// src/utf8.h: the UTF-8 recogniser and the sanitiser applied to every string that
// leaves the process, and the truncation of src/tool/read.h that respects them.
module Utf8 {
  import opened Bytes

  predicate IsTail(b: byte) { 0x80 <= b <= 0xBF }

  // UTF8-char of section 4 of RFC 3629, production by production.
  predicate IsChar(c: Bytes) {
    || (|c| == 1 && c[0] <= 0x7F)
    || (|c| == 2 && 0xC2 <= c[0] <= 0xDF && IsTail(c[1]))
    || (|c| == 3 && c[0] == 0xE0 && 0xA0 <= c[1] <= 0xBF && IsTail(c[2]))
    || (|c| == 3 && 0xE1 <= c[0] <= 0xEC && IsTail(c[1]) && IsTail(c[2]))
    || (|c| == 3 && c[0] == 0xED && 0x80 <= c[1] <= 0x9F && IsTail(c[2]))
    || (|c| == 3 && 0xEE <= c[0] <= 0xEF && IsTail(c[1]) && IsTail(c[2]))
    || (|c| == 4 && c[0] == 0xF0 && 0x90 <= c[1] <= 0xBF && IsTail(c[2]) && IsTail(c[3]))
    || (|c| == 4 && 0xF1 <= c[0] <= 0xF3 && IsTail(c[1]) && IsTail(c[2]) && IsTail(c[3]))
    || (|c| == 4 && c[0] == 0xF4 && 0x80 <= c[1] <= 0x8F && IsTail(c[2]) && IsTail(c[3]))
  }

  // UTF8-octets = *( UTF8-char ).
  ghost predicate Octets(s: Bytes) {
    exists cs: seq<Bytes> :: Flatten(cs) == s && forall c :: c in cs ==> IsChar(c)
  }

  // Number of continuation bytes a lead byte announces, -1 for a byte that leads nothing.
  function Need(c: byte): (n: int)
    ensures -1 <= n <= 3
  {
    if c < 0x80 then 0
    else if 0xC2 <= c <= 0xDF then 1
    else if 0xE0 <= c <= 0xEF then 2
    else if 0xF0 <= c <= 0xF4 then 3
    else -1
  }

  // Length of the UTF8-char at the head of `s`, 0 when there is none.
  function HeadLen(s: Bytes): (n: nat)
    requires s != []
    ensures n <= |s|
    ensures n != 0 ==> n == Need(s[0]) + 1 && IsChar(s[..n])
    ensures s[0] < 0x80 ==> n == 1
  {
    var n := Need(s[0]) + 1;
    if n <= |s| && IsChar(s[..n]) then n else 0
  }

  // Octets as a left-to-right parse; OctetsIsWellFormed connects the two.
  predicate WellFormed(s: Bytes) {
    s == [] || (HeadLen(s) != 0 && WellFormed(s[HeadLen(s)..]))
  }

  lemma HeadLenOfChar(c: Bytes, rest: Bytes)
    requires IsChar(c)
    ensures HeadLen(c + rest) == |c|
    ensures (c + rest)[..|c|] == c && (c + rest)[|c|..] == rest
  {
    assert (c + rest)[..|c|] == c;
    assert (c + rest)[0] == c[0];
  }

  lemma {:induction false} WellFormedAppend(a: Bytes, b: Bytes)
    requires WellFormed(a)
    ensures WellFormed(a + b) == WellFormed(b)
    decreases |a|
  {
    if a == [] {
      assert a + b == b;
    } else {
      var n := HeadLen(a);
      assert a + b == a[..n] + (a[n..] + b);
      HeadLenOfChar(a[..n], a[n..] + b);
      WellFormedAppend(a[n..], b);
    }
  }

  lemma CharIsWellFormed(c: Bytes)
    requires IsChar(c)
    ensures WellFormed(c)
  {
    HeadLenOfChar(c, []);
    assert c + [] == c;
  }

  // The parse recognises exactly the language of section 4 of RFC 3629.
  lemma OctetsIsWellFormed(s: Bytes)
    ensures WellFormed(s) <==> Octets(s)
  {
    if WellFormed(s) {
      var cs := Parse(s);
    }
    if Octets(s) {
      var cs: seq<Bytes> :| Flatten(cs) == s && forall c :: c in cs ==> IsChar(c);
      FlattenedCharsParse(cs);
    }
  }

  lemma {:induction false} Parse(s: Bytes) returns (cs: seq<Bytes>)
    requires WellFormed(s)
    ensures Flatten(cs) == s && forall c :: c in cs ==> IsChar(c)
    decreases |s|
  {
    if s == [] {
      cs := [];
    } else {
      var n := HeadLen(s);
      var rest := Parse(s[n..]);
      cs := [s[..n]] + rest;
      assert cs[1..] == rest;
    }
  }

  lemma {:induction false} FlattenedCharsParse(cs: seq<Bytes>)
    requires forall c :: c in cs ==> IsChar(c)
    ensures WellFormed(Flatten(cs))
  {
    if cs != [] {
      FlattenedCharsParse(cs[1..]);
      CharIsWellFormed(cs[0]);
      WellFormedAppend(cs[0], Flatten(cs[1..]));
    }
  }

  // True when the bytes at `i` are a lead byte with all its continuation bytes and none of the
  // four second bytes that would encode an overlong form, a surrogate or a value past U+10FFFF.
  lemma HeadLenAt(s: Bytes, i: nat, need: nat)
    requires i < |s| && Need(s[i]) == need && 1 <= need && i + need < |s|
    ensures HeadLen(s[i..]) == need + 1 <==>
            && (forall k :: i < k <= i + need ==> IsTail(s[k]))
            && !(s[i] == 0xE0 && s[i + 1] < 0xA0) && !(s[i] == 0xED && s[i + 1] > 0x9F)
            && !(s[i] == 0xF0 && s[i + 1] < 0x90) && !(s[i] == 0xF4 && s[i + 1] > 0x8F)
    ensures HeadLen(s[i..]) == need + 1 || HeadLen(s[i..]) == 0
  {
    var c := s[i..][..need + 1];
    assert |c| == need + 1 && c[0] == s[i] && c[1] == s[i + 1];
    assert need >= 2 ==> c[2] == s[i + 2];
    assert need >= 3 ==> c[3] == s[i + 3];
    assert IsTail(s[i + 1]) && (need >= 2 ==> IsTail(s[i + 2])) && (need >= 3 ==> IsTail(s[i + 3]))
      <==> forall k :: i < k <= i + need ==> IsTail(s[k]);
  }

  // The checks both loops make once a multi-byte character is known to lie inside the string.
  method WholeChar(s: Bytes, i: nat, need: nat) returns (ok: bool)
    requires i < |s| && Need(s[i]) == need && 1 <= need && i + need < |s|
    ensures HeadLen(s[i..]) == if ok then need + 1 else 0
  {
    HeadLenAt(s, i, need);
    var k := 1;
    while k <= need
      invariant 1 <= k <= need + 1
      invariant forall j :: i < j < i + k ==> IsTail(s[j])
    {
      if !IsTail(s[i + k]) { return false; }
      k := k + 1;
    }
    var c, b1 := s[i], s[i + 1];
    return !((c == 0xE0 && b1 < 0xA0) || (c == 0xED && b1 > 0x9F) ||
             (c == 0xF0 && b1 < 0x90) || (c == 0xF4 && b1 > 0x8F));
  }

  method Utf8Valid(s: Bytes) returns (ok: bool)
    ensures ok <==> Octets(s)
  {
    OctetsIsWellFormed(s);
    var n := |s|;
    var i := 0;
    while i < n
      invariant 0 <= i <= n
      invariant WellFormed(s) <==> WellFormed(s[i..])
    {
      var c := s[i];
      assert s[i..][0] == c;
      if c < 0x80 {
        assert IsChar(s[i..][..1]);
        assert s[i..][1..] == s[i + 1..];
        i := i + 1;
        continue;
      }
      var need := 0;
      if c >= 0xC2 && c <= 0xDF { need := 1; }
      else if c >= 0xE0 && c <= 0xEF { need := 2; }
      else if c >= 0xF0 && c <= 0xF4 { need := 3; }
      else { return false; }
      if i + need >= n { return false; }
      var whole := WholeChar(s, i, need);
      if !whole { return false; }
      assert s[i..][need + 1..] == s[i + need + 1..];
      i := i + need + 1;
    }
    return true;
  }

  const REPLACEMENT: Bytes := [0xEF, 0xBF, 0xBD]

  // A lead byte whose announced character runs past the end of the string.
  predicate CutLead(s: Bytes, j: nat) {
    j < |s| && Need(s[j]) >= 1 && j + Need(s[j]) >= |s|
  }

  // What utf8_sanitize outputs: characters are copied, a byte that starts no character becomes
  // U+FFFD, and a lead cut off by the end of the string absorbs everything after it.
  function Sanitized(s: Bytes): Bytes
    decreases |s|
  {
    if s == [] then []
    else if HeadLen(s) != 0 then s[..HeadLen(s)] + Sanitized(s[HeadLen(s)..])
    else if CutLead(s, 0) then REPLACEMENT
    else REPLACEMENT + Sanitized(s[1..])
  }

  lemma SanitizedChar(s: Bytes, i: nat)
    requires i < |s| && HeadLen(s[i..]) != 0
    ensures i + HeadLen(s[i..]) <= |s|
    ensures Sanitized(s[i..]) == s[i..i + HeadLen(s[i..])] + Sanitized(s[i + HeadLen(s[i..])..])
  {
    hide IsChar, HeadLen, Need, IsTail;
    var t := s[i..];
    var n := HeadLen(t);
    assert t[..n] == s[i..i + n] && t[n..] == s[i + n..];
  }

  lemma SanitizedBadByte(s: Bytes, i: nat)
    requires i < |s| && HeadLen(s[i..]) == 0
    ensures Sanitized(s[i..]) == if CutLead(s, i) then REPLACEMENT else REPLACEMENT + Sanitized(s[i + 1..])
  {
    hide IsChar, HeadLen, Need, IsTail;
    var t := s[i..];
    assert t[0] == s[i] && t[1..] == s[i + 1..];
  }

  method Utf8Sanitize(s: Bytes) returns (out: Bytes)
    ensures out == Sanitized(s)
  {
    hide IsChar, HeadLen, Sanitized;
    var valid := Utf8Valid(s);
    if valid {
      SanitizeYieldsOctets(s);
      return s;
    }
    out := [];
    var n := |s|;
    var i := 0;
    assert s[0..] == s;
    while i < n
      invariant 0 <= i <= n
      invariant Sanitized(s) == out + Sanitized(s[i..])
    {
      var c := s[i];
      if c < 0x80 {
        SanitizedChar(s, i);
        ConcatAssoc(out, [c], Sanitized(s[i + 1..]));
        assert s[i..i + 1] == [c];
        out := out + [c];
        i := i + 1;
        continue;
      }
      var need := 0;
      if c >= 0xC2 && c <= 0xDF { need := 1; }
      else if c >= 0xE0 && c <= 0xEF { need := 2; }
      else if c >= 0xF0 && c <= 0xF4 { need := 3; }
      else {
        SanitizedBadByte(s, i);
        ConcatAssoc(out, REPLACEMENT, Sanitized(s[i + 1..]));
        out := out + REPLACEMENT;
        i := i + 1;
        continue;
      }
      if i + need >= n {
        SanitizedBadByte(s, i);
        out := out + REPLACEMENT;
        return;
      }
      var ok := WholeChar(s, i, need);
      if !ok {
        SanitizedBadByte(s, i);
        ConcatAssoc(out, REPLACEMENT, Sanitized(s[i + 1..]));
        out := out + REPLACEMENT;
        i := i + 1;
        continue;
      }
      SanitizedChar(s, i);
      ConcatAssoc(out, s[i..i + need + 1], Sanitized(s[i + need + 1..]));
      out := out + s[i..i + need + 1];
      i := i + need + 1;
    }
    SanitizeKeepsValid([]);
    assert s[i..] == [] && out + [] == out;
  }

  // Sanitising always yields the language of section 4 of RFC 3629, and is the identity on it.
  lemma SanitizeYieldsOctets(s: Bytes)
    ensures Octets(Sanitized(s))
    ensures Octets(s) <==> Sanitized(s) == s
  {
    SanitizedWellFormed(s);
    OctetsIsWellFormed(Sanitized(s));
    OctetsIsWellFormed(s);
    if WellFormed(s) {
      SanitizeKeepsValid(s);
    }
  }

  lemma {:induction false} SanitizedWellFormed(s: Bytes)
    ensures WellFormed(Sanitized(s))
    decreases |s|
  {
    if s != [] {
      CharIsWellFormed(REPLACEMENT);
      if HeadLen(s) != 0 {
        CharIsWellFormed(s[..HeadLen(s)]);
        SanitizedWellFormed(s[HeadLen(s)..]);
        WellFormedAppend(s[..HeadLen(s)], Sanitized(s[HeadLen(s)..]));
      } else if !CutLead(s, 0) {
        SanitizedWellFormed(s[1..]);
        WellFormedAppend(REPLACEMENT, Sanitized(s[1..]));
      }
    }
  }

  lemma {:induction false} SanitizeKeepsValid(s: Bytes)
    requires WellFormed(s)
    ensures Sanitized(s) == s
    decreases |s|
  {
    hide IsChar;
    if s != [] {
      SanitizeKeepsValid(s[HeadLen(s)..]);
      assert s == s[..HeadLen(s)] + s[HeadLen(s)..];
    }
  }

  function Ascii(s: Bytes): Bytes { Keep(s, (b: byte) => b < 0x80) }

  // An ASCII byte behind a lead that the end of the string cuts off.
  ghost predicate SwallowsAscii(s: Bytes) {
    exists j, k :: 0 <= j < k < |s| && CutLead(s, j) && s[k] < 0x80
  }

  // The header comment promises that only invalid bytes are replaced. Every ASCII byte
  // survives, in order, exactly when none stands behind a cut-off lead.
  lemma {:induction false} AsciiSurvivesIff(s: Bytes)
    ensures Ascii(Sanitized(s)) == Ascii(s) <==> !SwallowsAscii(s)
    decreases |s|
  {
    hide *;
    if s == [] {
      AsciiOfEmpty(s);
    } else if HeadLen(s) != 0 {
      AsciiSurvivesIff(s[HeadLen(s)..]);
      var h := AsciiOfHead(s);
      var x, y := Ascii(s[HeadLen(s)..]), Ascii(Sanitized(s[HeadLen(s)..]));
      assert x == (h + x)[|h|..] && y == (h + y)[|h|..];
    } else if CutLead(s, 0) {
      AsciiOfCut(s);
    } else {
      AsciiSurvivesIff(s[1..]);
      AsciiOfBadByte(s);
    }
  }

  lemma AsciiOfEmpty(s: Bytes)
    requires s == []
    ensures Ascii(s) == [] && Ascii(Sanitized(s)) == [] && !SwallowsAscii(s)
  {
  }

  lemma AsciiOfHead(s: Bytes) returns (h: Bytes)
    requires s != [] && HeadLen(s) != 0
    ensures Ascii(s) == h + Ascii(s[HeadLen(s)..])
    ensures Ascii(Sanitized(s)) == h + Ascii(Sanitized(s[HeadLen(s)..]))
    ensures SwallowsAscii(s) <==> SwallowsAscii(s[HeadLen(s)..])
  {
    var p := (b: byte) => b < 0x80;
    var n := HeadLen(s);
    assert s == s[..n] + s[n..];
    KeepAppend(s[..n], s[n..], p);
    KeepAppend(s[..n], Sanitized(s[n..]), p);
    h := Keep(s[..n], p);
    forall j | 0 <= j < n ensures !CutLead(s, j) { assert s[j] == s[..n][j]; }
    SwallowShift(s, n);
  }

  lemma AsciiOfBadByte(s: Bytes)
    requires s != [] && HeadLen(s) == 0 && !CutLead(s, 0)
    ensures Ascii(s) == Ascii(s[1..])
    ensures Ascii(Sanitized(s)) == Ascii(Sanitized(s[1..]))
    ensures SwallowsAscii(s) <==> SwallowsAscii(s[1..])
  {
    var p := (b: byte) => b < 0x80;
    KeepNone(REPLACEMENT, p);
    KeepAppend(REPLACEMENT, Sanitized(s[1..]), p);
    assert s[0..] == s;
    SanitizedBadByte(s, 0);
    SwallowShift(s, 1);
  }

  lemma AsciiOfCut(s: Bytes)
    requires s != [] && HeadLen(s) == 0 && CutLead(s, 0)
    ensures Ascii(Sanitized(s)) == []
    ensures Ascii(s) == [] <==> !SwallowsAscii(s)
  {
    var p := (b: byte) => b < 0x80;
    KeepNone(REPLACEMENT, p);
    KeepFound(s, p);
    if Ascii(s) != [] {
      var k :| 0 <= k < |s| && s[k] < 0x80;
      assert CutLead(s, 0) && 0 < k;
    }
  }

  lemma {:induction false} KeepNone<T>(s: seq<T>, p: T -> bool)
    requires forall i :: 0 <= i < |s| ==> !p(s[i])
    ensures Keep(s, p) == []
  {
    if s != [] { KeepNone(s[1..], p); }
  }

  lemma {:induction false} KeepFound<T>(s: seq<T>, p: T -> bool)
    ensures Keep(s, p) == [] <==> forall i :: 0 <= i < |s| ==> !p(s[i])
  {
    if s != [] {
      KeepFound(s[1..], p);
      if forall i :: 0 <= i < |s[1..]| ==> !p(s[1..][i]) {
        forall i | 0 < i < |s| ensures !p(s[i]) { assert s[i] == s[1..][i - 1]; }
      }
    }
  }

  // Dropping a head that holds no cut-off lead changes nothing.
  lemma SwallowShift(s: Bytes, n: nat)
    requires n <= |s|
    requires forall j :: 0 <= j < n ==> !CutLead(s, j)
    ensures SwallowsAscii(s) <==> SwallowsAscii(s[n..])
  {
    if SwallowsAscii(s) {
      var j, k :| 0 <= j < k < |s| && CutLead(s, j) && s[k] < 0x80;
      assert CutLead(s[n..], j - n) && s[n..][k - n] < 0x80;
    }
    if SwallowsAscii(s[n..]) {
      var j, k :| 0 <= j < k < |s[n..]| && CutLead(s[n..], j) && s[n..][k] < 0x80;
      assert CutLead(s, j + n) && s[k + n] < 0x80;
    }
  }

  // A cut-off three-byte lead takes the letter behind it along.
  lemma SwallowedLetter()
    ensures Sanitized([0x78, 0xE2, 0x61]) == [0x78] + REPLACEMENT
    ensures 0x61 !in Sanitized([0x78, 0xE2, 0x61])
  {
    var s: Bytes := [0x78, 0xE2, 0x61];
    assert IsChar(s[..1]) && s[1..] == [0xE2, 0x61];
    assert CutLead(s[1..], 0);
  }

  // ---- src/tool/read.h truncate_to ----

  // `pos` starts a character or ends the string.
  predicate Boundary(s: Bytes, pos: int) {
    0 <= pos <= |s| && WellFormed(s[..pos]) && WellFormed(s[pos..])
  }

  method TruncateTo(s: Bytes, maxBytes: nat) returns (out: Bytes)
    ensures out == Truncated(s, maxBytes)
  {
    if |s| <= maxBytes { return s; }
    var cut := maxBytes;
    while cut > 0 && IsTail(s[cut])
      invariant 0 <= cut <= maxBytes
      invariant CutBack(s, cut) == CutBack(s, maxBytes)
    {
      cut := cut - 1;
    }
    return s[..cut];
  }

  function CutBack(s: Bytes, cut: nat): (c: nat)
    requires cut < |s|
    ensures c <= cut
    ensures forall k :: c < k <= cut ==> IsTail(s[k])
    ensures c == 0 || !IsTail(s[c])
  {
    if cut > 0 && IsTail(s[cut]) then CutBack(s, cut - 1) else cut
  }

  function Truncated(s: Bytes, maxBytes: nat): Bytes {
    if |s| <= maxBytes then s else s[..CutBack(s, maxBytes)]
  }

  lemma HeadNotTail(s: Bytes)
    requires s != [] && WellFormed(s)
    ensures !IsTail(s[0])
  {
    assert s[0] == s[..HeadLen(s)][0];
  }

  // In a well-formed string a position that holds no continuation byte is a boundary, and
  // every run of continuation bytes is at most three long.
  lemma {:induction false} BoundaryIffNotTail(s: Bytes, pos: nat)
    requires WellFormed(s) && pos < |s|
    ensures Boundary(s, pos) <==> !IsTail(s[pos])
    decreases |s|
  {
    var n := HeadLen(s);
    CharIsWellFormed(s[..n]);
    if pos == 0 {
      assert s[..0] == [] && s[0..] == s;
    } else if pos < n {
      assert IsTail(s[..n][pos]);
      if WellFormed(s[pos..]) {
        HeadNotTail(s[pos..]);
      }
    } else {
      BoundaryIffNotTail(s[n..], pos - n);
      BoundaryShift(s, n, pos);
      assert s[n..][pos - n] == s[pos];
    }
  }

  // Boundaries after a well-formed head are the boundaries of what follows it.
  lemma BoundaryShift(s: Bytes, n: nat, pos: nat)
    requires n <= pos <= |s| && WellFormed(s[..n])
    ensures Boundary(s, pos) <==> Boundary(s[n..], pos - n)
  {
    assert s[n..][pos - n..] == s[pos..];
    assert s[..pos] == s[..n] + s[n..][..pos - n];
    hide IsChar, HeadLen;
    WellFormedAppend(s[..n], s[n..][..pos - n]);
  }

  lemma {:induction false} TailRunShort(s: Bytes, lo: nat, hi: nat)
    requires WellFormed(s) && lo <= hi <= |s|
    requires forall k :: lo <= k < hi ==> IsTail(s[k])
    ensures hi - lo <= 3
    decreases |s|
  {
    if s != [] {
      var n := HeadLen(s);
      if lo >= n {
        forall k | lo - n <= k < hi - n ensures IsTail(s[n..][k]) { assert s[n..][k] == s[k + n]; }
        TailRunShort(s[n..], lo - n, hi - n);
      } else if lo < hi {
        assert lo != 0 by { assert s[0] == s[..n][0]; }
        if n < hi {
          HeadNotTail(s[n..]);
        }
      }
    }
  }

  // Truncating well-formed text gives a well-formed prefix within the limit, at most three
  // bytes short of it.
  lemma TruncateValid(s: Bytes, maxBytes: nat)
    requires WellFormed(s)
    ensures WellFormed(Truncated(s, maxBytes))
    ensures Truncated(s, maxBytes) <= s && |Truncated(s, maxBytes)| <= maxBytes
    ensures |s| > maxBytes ==> |Truncated(s, maxBytes)| >= maxBytes - 3
  {
    if |s| > maxBytes {
      var c := CutBack(s, maxBytes);
      TailRunShort(s, c + 1, maxBytes + 1);
      if c == 0 {
        assert s[..c] == [];
      } else {
        BoundaryIffNotTail(s, c);
      }
    }
  }

  // ---- sanitising piece by piece ----

  // No character of RFC 3629 begins here.
  predicate StartsNoChar(s: Bytes) { forall n :: 0 <= n <= |s| ==> !IsChar(s[..n]) }

  // The piece `p` at the head of `s`: a character; or else a single byte, or all of `s` when a lead
  // byte announces more than there is.
  predicate Piece(p: Bytes, s: Bytes) {
    && p != [] && p <= s
    && (IsChar(p) || (StartsNoChar(s) && if CutLead(s, 0) then p == s else |p| == 1))
  }

  predicate InPieces(s: Bytes, pieces: seq<Bytes>) {
    if pieces == [] then s == []
    else Piece(pieces[0], s) && InPieces(s[|pieces[0]|..], pieces[1..])
  }

  // Characters stay, every other piece becomes one U+FFFD.
  function Mended(pieces: seq<Bytes>): seq<Bytes> {
    if pieces == [] then [] else [if IsChar(pieces[0]) then pieces[0] else REPLACEMENT] + Mended(pieces[1..])
  }

  // U+FFFD, encoded in three octets.
  lemma ReplacementIsFFFD()
    ensures IsChar(REPLACEMENT) && |REPLACEMENT| == 3
    ensures (REPLACEMENT[0] & 0x0F) as int * 0x1000 + (REPLACEMENT[1] & 0x3F) as int * 0x40 + (REPLACEMENT[2] & 0x3F) as int
            == 0xFFFD
  {
  }

  lemma HeadLenIff(s: Bytes)
    requires s != []
    ensures HeadLen(s) == 0 <==> StartsNoChar(s)
  {
    if HeadLen(s) != 0 {
      assert IsChar(s[..HeadLen(s)]);
    }
    forall n | 0 <= n <= |s| && IsChar(s[..n]) ensures HeadLen(s) != 0 { CharAtHead(s, n); }
  }

  lemma CharAtHead(s: Bytes, n: nat)
    requires n <= |s| && IsChar(s[..n])
    ensures s != [] && HeadLen(s) == n && n > 0
  {
    HeadLenOfChar(s[..n], s[n..]);
    assert s[..n] + s[n..] == s;
  }

  // The sanitised text is the text cut into characters and bad pieces, with the bad pieces
  // replaced.
  lemma {:induction false} SanitizeMends(s: Bytes) returns (pieces: seq<Bytes>)
    ensures InPieces(s, pieces) && Sanitized(s) == Flatten(Mended(pieces))
    decreases |s|
  {
    hide IsChar, HeadLen, CutLead;
    if s == [] {
      pieces := [];
    } else {
      HeadLenIff(s);
      HeadIsChar(s);
      var n := if HeadLen(s) != 0 then HeadLen(s) else if CutLead(s, 0) then |s| else 1;
      var rest := SanitizeMends(s[n..]);
      pieces := [s[..n]] + rest;
      assert pieces[1..] == rest;
      assert s[..|s|] == s;
      MendedFirst(s[..n], rest);
      if HeadLen(s) == 0 && CutLead(s, 0) {
        assert s[n..] == [] && rest == [];
        assert REPLACEMENT + [] == REPLACEMENT;
      }
    }
  }

  lemma HeadIsChar(s: Bytes)
    requires s != []
    ensures HeadLen(s) <= |s| && (HeadLen(s) != 0 ==> IsChar(s[..HeadLen(s)]))
    ensures HeadLen(s) == 0 ==> !IsChar(s[..1]) && !IsChar(s)
  {
    HeadLenIff(s);
    assert s[..|s|] == s;
  }

  lemma MendedFirst(piece: Bytes, rest: seq<Bytes>)
    ensures Flatten(Mended([piece] + rest)) == (if IsChar(piece) then piece else REPLACEMENT) + Flatten(Mended(rest))
  {
    var pieces := [piece] + rest;
    assert pieces[0] == piece && pieces[1..] == rest;
    var m := if IsChar(piece) then piece else REPLACEMENT;
    assert ([m] + Mended(rest))[1..] == Mended(rest);
    hide IsChar;
  }
}
