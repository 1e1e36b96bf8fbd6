// Byte strings and the small list helpers that several components share.
module Bytes {
  type byte = bv8

  type Bytes = seq<byte>

  const LF: byte := 10
  const CR: byte := 13

  datatype Option<+T> = None | Some(value: T)

  lemma ConcatAssoc<T>(a: seq<T>, b: seq<T>, c: seq<T>)
    ensures (a + b) + c == a + (b + c)
  {
  }

  lemma HeadTail<T>(s: seq<T>)
    requires s != []
    ensures s == [s[0]] + s[1..]
  {
  }

  // The concatenation of a list of lists.
  function Flatten<T>(parts: seq<seq<T>>): seq<T> {
    if parts == [] then [] else parts[0] + Flatten(parts[1..])
  }

  lemma {:induction false} FlattenAppend<T>(a: seq<seq<T>>, b: seq<seq<T>>)
    ensures Flatten(a + b) == Flatten(a) + Flatten(b)
  {
    if a == [] {
      assert a + b == b;
    } else {
      assert (a + b)[0] == a[0] && (a + b)[1..] == a[1..] + b;
      FlattenAppend(a[1..], b);
    }
  }

  lemma FlattenSnoc<T>(a: seq<seq<T>>, x: seq<T>)
    ensures Flatten(a + [x]) == Flatten(a) + x
  {
    FlattenAppend(a, [x]);
    assert Flatten([x]) == x + Flatten<T>([]);
  }

  // The elements of `s` that satisfy `p`, in order.
  function Keep<T>(s: seq<T>, p: T -> bool): seq<T> {
    if s == [] then [] else (if p(s[0]) then [s[0]] else []) + Keep(s[1..], p)
  }

  lemma {:induction false} KeepAppend<T>(a: seq<T>, b: seq<T>, p: T -> bool)
    ensures Keep(a + b, p) == Keep(a, p) + Keep(b, p)
  {
    if a == [] {
      assert a + b == b;
    } else {
      assert (a + b)[0] == a[0] && (a + b)[1..] == a[1..] + b;
      KeepAppend(a[1..], b, p);
      var head := if p(a[0]) then [a[0]] else [];
      calc {
        Keep(a + b, p);
        head + (Keep(a[1..], p) + Keep(b, p));
        (head + Keep(a[1..], p)) + Keep(b, p);
        Keep(a, p) + Keep(b, p);
      }
    }
  }

  // std::string::find from `start`: the first position holding `b`, -1 when there is none.
  function IndexFrom(s: Bytes, b: byte, start: nat): (r: int)
    requires start <= |s|
    ensures r == -1 ==> forall k :: start <= k < |s| ==> s[k] != b
    ensures r != -1 ==> start <= r < |s| && s[r] == b && forall k :: start <= k < r ==> s[k] != b
    decreases |s| - start
  {
    if start == |s| then -1
    else if s[start] == b then start
    else IndexFrom(s, b, start + 1)
  }

  predicate Unbroken(s: Bytes) { forall k :: 0 <= k < |s| ==> s[k] != LF }

  predicate AllUnbroken(lines: seq<Bytes>) { forall i :: 0 <= i < |lines| ==> Unbroken(lines[i]) }

  lemma AllUnbrokenSnoc(lines: seq<Bytes>, line: Bytes)
    requires AllUnbroken(lines) && Unbroken(line)
    ensures AllUnbroken(lines + [line])
  {
  }

  // The newline-terminated lines of `s`, without their newline.
  function Lines(s: Bytes): seq<Bytes>
    decreases |s|
  {
    var nl := IndexFrom(s, LF, 0);
    if nl == -1 then [] else [s[..nl]] + Lines(s[nl + 1..])
  }

  // What follows the last newline of `s`.
  function Tail(s: Bytes): (t: Bytes)
    ensures Unbroken(t)
    decreases |s|
  {
    var nl := IndexFrom(s, LF, 0);
    if nl == -1 then s else Tail(s[nl + 1..])
  }

  // The bytes that spell the given lines.
  function Spelled(lines: seq<Bytes>): Bytes {
    if lines == [] then [] else lines[0] + [LF] + Spelled(lines[1..])
  }

  lemma {:induction false} SpelledSnoc(lines: seq<Bytes>, line: Bytes)
    ensures Spelled(lines + [line]) == Spelled(lines) + line + [LF]
  {
    if lines == [] {
      assert Spelled([line]) == line + [LF] + [];
    } else {
      assert (lines + [line])[0] == lines[0] && (lines + [line])[1..] == lines[1..] + [line];
      SpelledSnoc(lines[1..], line);
      calc {
        Spelled(lines + [line]);
        lines[0] + [LF] + (Spelled(lines[1..]) + line + [LF]);
        (lines[0] + [LF] + Spelled(lines[1..])) + line + [LF];
        Spelled(lines) + line + [LF];
      }
    }
  }

  // Splitting at newlines is the only reading of a byte string as complete lines and a rest.
  lemma {:induction false} SplitIsUnique(lines: seq<Bytes>, rest: Bytes)
    requires AllUnbroken(lines)
    ensures Lines(Spelled(lines) + rest) == lines + Lines(rest)
    ensures Tail(Spelled(lines) + rest) == Tail(rest)
  {
    if lines == [] {
      assert Spelled(lines) + rest == rest;
      assert lines + Lines(rest) == Lines(rest);
    } else {
      var more := Spelled(lines[1..]) + rest;
      SpelledCons(lines, rest);
      hide *;
      LinesOfFirst(lines[0], more);
      SplitIsUnique(lines[1..], rest);
      ConcatAssoc([lines[0]], lines[1..], Lines(rest));
      HeadTail(lines);
    }
  }

  lemma SpelledCons(lines: seq<Bytes>, rest: Bytes)
    requires lines != []
    ensures Spelled(lines) + rest == lines[0] + [LF] + (Spelled(lines[1..]) + rest)
  {
    ConcatAssoc(lines[0] + [LF], Spelled(lines[1..]), rest);
  }

  lemma LinesOfFirst(line: Bytes, more: Bytes)
    requires Unbroken(line)
    ensures Lines(line + [LF] + more) == [line] + Lines(more)
    ensures Tail(line + [LF] + more) == Tail(more)
  {
    var s, n := line + [LF] + more, |line|;
    assert s[..n] == line && s[n] == LF && s[n + 1..] == more;
    assert IndexFrom(s, LF, 0) == n by {
      assert forall k :: 0 <= k < n ==> s[k] == line[k];
    }
  }

  lemma LinesOfUnbroken(s: Bytes)
    requires Unbroken(s)
    ensures Lines(s) == [] && Tail(s) == s
  {
    var nl := IndexFrom(s, LF, 0);
    assert nl == -1;
  }
}
