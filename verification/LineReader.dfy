// src/server/protocol.h, LineReader: newline-delimited frames from a socket.
module LineReader {
  import opened Bytes

  const MAX_FRAME_BYTES: nat := 4194304
  const READ_CHUNK_BYTES: nat := 65536

  datatype ReadResult = Ok | Eof | Stopped | TooLong | Error | StillBlocked

  // What one turn of the read loop meets. StopSeen: the stop flag is up when the turn begins.
  // The others are the outcomes of poll() and recv(): nothing yet (a timeout or EINTR), bytes,
  // an orderly close, a failure.
  datatype Event = StopSeen | Nothing | Data(chunk: Bytes) | Closed | Failed

  predicate Receivable(e: Event) {
    e.Data? ==> 0 < |e.chunk| <= READ_CHUNK_BYTES
  }

  predicate AllReceivable(events: seq<Event>) {
    forall i :: 0 <= i < |events| ==> Receivable(events[i])
  }

  // A call that went through `used` events of its script can end with `r` only for this reason.
  predicate Explains(r: ReadResult, events: seq<Event>, used: nat)
    requires used <= |events|
  {
    match r
    case Stopped => used < |events| && events[used].StopSeen?
    case Eof => 0 < used && events[used - 1].Closed?
    case Error => 0 < used && events[used - 1].Failed?
    case StillBlocked => used == |events|
    case _ => true
  }

  lemma SuffixReceivable(events: seq<Event>, i: nat)
    requires i <= |events| && AllReceivable(events)
    ensures AllReceivable(events[i..])
  {
  }

  lemma ExplainsInWhole(r: ReadResult, events: seq<Event>, i: nat, n: nat)
    requires i + n <= |events| && Explains(r, events[i..], n)
    ensures Explains(r, events, i + n)
  {
  }

  function DataOf(events: seq<Event>): Bytes {
    if events == [] then []
    else (if events[0].Data? then events[0].chunk else []) + DataOf(events[1..])
  }

  lemma {:induction false} DataOfAppend(a: seq<Event>, b: seq<Event>)
    ensures DataOf(a + b) == DataOf(a) + DataOf(b)
  {
    if a == [] {
      assert a + b == b;
    } else {
      assert (a + b)[0] == a[0] && (a + b)[1..] == a[1..] + b;
      DataOfAppend(a[1..], b);
    }
  }

  lemma DataOfNext(events: seq<Event>, i: nat)
    requires i < |events|
    ensures !events[i].Data? ==> DataOf(events[..i + 1]) == DataOf(events[..i])
    ensures events[i].Data? ==> DataOf(events[..i + 1]) == DataOf(events[..i]) + events[i].chunk
  {
    assert events[..i + 1] == events[..i] + [events[i]];
    DataOfAppend(events[..i], [events[i]]);
  }

  // `received` was handed out as `frames` up to `rest`.
  ghost predicate Cut(received: Bytes, frames: seq<Bytes>, rest: Bytes) {
    AllUnbroken(frames) && received == Spelled(frames) + rest
  }

  lemma CutTake(received: Bytes, frames: seq<Bytes>, buf: Bytes, pos: nat, newline: nat)
    requires pos <= newline < |buf| && buf[newline] == LF
    requires forall k :: pos <= k < newline ==> buf[k] != LF
    requires Cut(received, frames, buf[pos..])
    ensures Cut(received, frames + [buf[pos..newline]], buf[newline + 1..])
  {
    var frame, rest := buf[pos..newline], buf[newline + 1..];
    AllUnbrokenSnoc(frames, frame);
    SpelledSnoc(frames, frame);
    assert buf[pos..] == frame + ([LF] + rest);
    ConcatAssoc(Spelled(frames), frame, [LF] + rest);
    ConcatAssoc(Spelled(frames) + frame, [LF], rest);
  }

  lemma CutAppend(received: Bytes, frames: seq<Bytes>, rest: Bytes, chunk: Bytes)
    requires Cut(received, frames, rest)
    ensures Cut(received + chunk, frames, rest + chunk)
  {
    ConcatAssoc(Spelled(frames), rest, chunk);
  }

  // `now` is `before` and the data of the first `used` events.
  ghost predicate Heard(before: Bytes, now: Bytes, events: seq<Event>, used: nat) {
    used <= |events| && now == before + DataOf(events[..used])
  }

  lemma HeardNothing(received: Bytes, events: seq<Event>)
    ensures Heard(received, received, events, 0)
  {
    assert DataOf(events[..0]) == [];
  }

  lemma HeardNext(before: Bytes, now: Bytes, events: seq<Event>, used: nat)
    requires used < |events| && Heard(before, now, events, used)
    ensures !events[used].Data? ==> Heard(before, now, events, used + 1)
    ensures events[used].Data? ==> Heard(before, now + events[used].chunk, events, used + 1)
  {
    DataOfNext(events, used);
    if events[used].Data? { ConcatAssoc(before, DataOf(events[..used]), events[used].chunk); }
  }

  lemma HeardMore(now: Bytes, later: Bytes, events: seq<Event>, i: nat, n: nat)
    requires i <= |events|
    requires Heard([], now, events, i) && Heard(now, later, events[i..], n)
    ensures Heard([], later, events, i + n)
  {
    DataOfSplit(events, i, n);
    ConcatAssoc([], DataOf(events[..i]), DataOf(events[i..][..n]));
  }

  class LineReader {
    var buf: Bytes
    var pos: nat
    ghost var received: Bytes     // everything recv() has delivered
    ghost var frames: seq<Bytes>  // every frame handed out

    ghost predicate Valid()
      reads this
    {
      && pos <= |buf| <= MAX_FRAME_BYTES + READ_CHUNK_BYTES
      && Cut(received, frames, buf[pos..])
    }

    constructor ()
      ensures Valid() && received == [] && frames == []
    {
      buf, pos, received, frames := [], 0, [], [];
    }

    // `used` is the number of events the call went through. StillBlocked stands for a call that
    // has not returned by the end of the script.
    method NextLine(events: seq<Event>) returns (r: ReadResult, out: Bytes, used: nat)
      requires Valid() && AllReceivable(events)
      modifies this
      ensures Valid() && Heard(old(received), received, events, used)
      ensures frames == if r.Ok? then old(frames) + [out] else old(frames)
      ensures r.Ok? ==> |out| < MAX_FRAME_BYTES + READ_CHUNK_BYTES
      ensures r.TooLong? ==> |buf| - pos > MAX_FRAME_BYTES
      ensures !r.Ok? && !r.Stopped? ==> Unbroken(buf[pos..])
      ensures used <= |events| && Explains(r, events, used)
    {
      r, out, used := StillBlocked, [], 0;
      HeardNothing(received, events);
      hide Cut, Heard, IndexFrom, Unbroken, AllReceivable;
      while true
        invariant Valid() && Heard(old(received), received, events, used)
        invariant used <= |events| && frames == old(frames)
        decreases |events| - used
      {
        if used < |events| && events[used].StopSeen? { r := Stopped; break; }
        var newline := IndexFrom(buf, LF, pos);
        if newline != -1 {
          r, out := Ok, buf[pos..newline];
          CutTake(received, frames, buf, pos, newline);
          frames := frames + [out];
          pos := newline + 1;
          break;
        }
        UnbrokenFrom(buf, pos);
        if |buf| - pos > MAX_FRAME_BYTES { r := TooLong; break; }
        buf := buf[pos..];
        pos := 0;
        if used == |events| { r := StillBlocked; break; }
        HeardNext(old(received), received, events, used);
        EventReceivable(events, used);
        var e := events[used];
        used := used + 1;
        if e.Data? {
          CutAppend(received, frames, buf, e.chunk);
          received := received + e.chunk;
          buf := buf + e.chunk;
          UnbrokenFrom(buf, 0);
        } else if !e.Nothing? {
          r := if e.Closed? then Eof else Error;
          break;
        }
      }
    }

    // The loop of every caller: frames until a read does not return one.
    method ReadAll(events: seq<Event>) returns (lines: seq<Bytes>, why: ReadResult, used: nat)
      requires Valid() && received == [] && frames == []
      requires AllReceivable(events)
      modifies this
      ensures used <= |events| && !why.Ok? && Explains(why, events, used)
      ensures lines <= Lines(DataOf(events[..used]))
      ensures !why.Stopped? ==> lines == Lines(DataOf(events[..used]))
      ensures why.TooLong? ==> |Tail(DataOf(events[..used]))| > MAX_FRAME_BYTES
    {
      lines, used := [], 0;
      HeardNothing([], events);
      hide DataOf, Spelled, Lines, Tail, Explains, AllReceivable, Cut, Heard;
      while true
        invariant Valid() && Heard([], received, events, used)
        invariant used <= |events| && frames == lines
        decreases |DataOf(events)| - |Spelled(frames)|
      {
        var line, n;
        ghost var before := received;
        SuffixReceivable(events, used);
        why, line, n := NextLine(events[used..]);
        ExplainsInWhole(why, events, used, n);
        HeardMore(before, received, events, used, n);
        used := used + n;
        FramesAreLines(events, used, received, frames, buf[pos..]);
        if !why.Ok? { return; }
        SpelledSnoc(lines, line);
        lines := lines + [line];
      }
    }
  }

  lemma UnbrokenFrom(buf: Bytes, pos: nat)
    requires pos <= |buf|
    ensures buf[pos..][0..] == buf[pos..] && buf[0..] == buf
    ensures (forall k :: pos <= k < |buf| ==> buf[k] != LF) ==> Unbroken(buf[pos..])
  {
  }

  lemma EventReceivable(events: seq<Event>, i: nat)
    requires i < |events| && AllReceivable(events)
    ensures Receivable(events[i])
  {
  }

  lemma FramesAreLines(events: seq<Event>, used: nat, received: Bytes, frames: seq<Bytes>, rest: Bytes)
    requires Heard([], received, events, used) && Cut(received, frames, rest)
    ensures used <= |events| && frames <= Lines(DataOf(events[..used]))
    ensures |Spelled(frames)| <= |DataOf(events)|
    ensures Unbroken(rest) ==> frames == Lines(DataOf(events[..used])) && rest == Tail(DataOf(events[..used]))
  {
    var data := DataOf(events[..used]);
    assert data == received;
    WholeScript(events, used);
    assert |Spelled(frames)| <= |data| <= |DataOf(events)|;
    hide *;
    SplitIsUnique(frames, rest);
    if Unbroken(rest) {
      LinesOfUnbroken(rest);
      assert frames + [] == frames;
    }
  }

  lemma DataOfSplit(events: seq<Event>, i: nat, n: nat)
    requires i + n <= |events|
    ensures DataOf(events[..i + n]) == DataOf(events[..i]) + DataOf(events[i..][..n])
  {
    assert events[..i + n] == events[..i] + events[i..][..n];
    DataOfAppend(events[..i], events[i..][..n]);
  }

  // Some frame of the stream, finished or not, exceeds the cap.
  ghost predicate OverCap(lines: seq<Bytes>, rest: Bytes) {
    (exists i :: 0 <= i < |lines| && |lines[i]| > MAX_FRAME_BYTES) || |rest| > MAX_FRAME_BYTES
  }

  // No chunking of a stream whose frames respect the cap makes the reader reject it: whatever
  // the chunks, the frames are the lines of the stream.
  method ReadWithinCap(stream: Bytes, events: seq<Event>) returns (lines: seq<Bytes>, why: ReadResult)
    requires AllReceivable(events)
    requires forall i :: 0 <= i < |events| ==> !events[i].StopSeen? && !events[i].Failed?
    requires DataOf(events) == stream
    requires forall i :: 0 <= i < |events| - 1 ==> !events[i].Closed?
    requires !OverCap(Lines(stream), Tail(stream))
    ensures lines == Lines(stream) && (why.Eof? || why.StillBlocked?)
  {
    var reader := new LineReader();
    var used;
    lines, why, used := reader.ReadAll(events);
    WholeScript(events, used);
    if why.TooLong? {
      CapBreached(DataOf(events[..used]), DataOf(events[used..]));
    }
  }

  lemma WholeScript(events: seq<Event>, used: nat)
    requires used <= |events|
    ensures DataOf(events) == DataOf(events[..used]) + DataOf(events[used..])
    ensures used == |events| ==> events[..used] == events
  {
    assert events == events[..used] + events[used..];
    DataOfAppend(events[..used], events[used..]);
  }

  // Whatever follows it, a rest over the cap is the beginning of a frame over the cap.
  lemma {:induction false} CapBreached(s: Bytes, more: Bytes)
    requires |Tail(s)| > MAX_FRAME_BYTES
    ensures OverCap(Lines(s + more), Tail(s + more))
    decreases |s|
  {
    var nl := IndexFrom(s, LF, 0);
    if nl == -1 {
      RestBreaches(s, more);
    } else {
      var rest := s[nl + 1..];
      assert Tail(s) == Tail(rest);
      assert s + more == s[..nl] + [LF] + (rest + more);
      assert Unbroken(s[..nl]);
      hide *;
      CapBreached(rest, more);
      LinesOfFirst(s[..nl], rest + more);
      OverCapCons(s[..nl], Lines(rest + more), Tail(rest + more));
    }
  }

  lemma OverCapCons(line: Bytes, lines: seq<Bytes>, rest: Bytes)
    requires OverCap(lines, rest)
    ensures OverCap([line] + lines, rest)
  {
    assert forall i :: 0 <= i < |lines| ==> ([line] + lines)[i + 1] == lines[i];
  }

  lemma RestBreaches(s: Bytes, more: Bytes)
    requires Unbroken(s) && |s| > MAX_FRAME_BYTES
    ensures OverCap(Lines(s + more), Tail(s + more))
  {
    var both := s + more;
    var nl := IndexFrom(both, LF, 0);
    if nl != -1 {
      assert forall k :: 0 <= k < |s| ==> both[k] == s[k];
      assert Lines(both)[0] == both[..nl];
    }
  }
}
