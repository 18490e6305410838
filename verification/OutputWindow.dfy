/** `CollectedStream` (apps/agent-host/src/harness-subprocess.ts): a bounded tail of a byte stream,
    read by whole-stream offsets. */
module OutputWindow {
  import opened Wrappers

  type Bytes = seq<Byte>

  datatype Window = Window(chunks: seq<Bytes>, windowBytes: nat, windowStart: nat, totalBytes: nat)

  datatype Read = Read(text: Bytes, nextOffset: nat, lossy: bool)

  /** `Buffer.concat`. */
  function Concat(chunks: seq<Bytes>): Bytes {
    if chunks == [] then [] else chunks[0] + Concat(chunks[1..])
  }

  /** The window gives up its first chunk. */
  predicate Sheds(w: Window, maxBytes: int) {
    && w.windowBytes > maxBytes && |w.chunks| > 1
    && |w.chunks[0]| <= w.windowBytes && w.windowBytes - |w.chunks[0]| >= maxBytes
  }

  function Trim(w: Window, maxBytes: int): Window
    decreases |w.chunks|
  {
    if !Sheds(w, maxBytes) then w
    else
      var head := |w.chunks[0]|;
      Trim(Window(w.chunks[1..], w.windowBytes - head, w.windowStart + head, w.totalBytes), maxBytes)
  }

  function AfterPush(w: Window, data: Bytes, maxBytes: int): Window {
    Trim(Window(w.chunks + [data], w.windowBytes + |data|, w.windowStart, w.totalBytes + |data|), maxBytes)
  }

  /** A read at or above the window start gets the rest of the window, and one below gets it all, marked lossy. */
  function ReadAt(w: Window, fromByte: int): Read {
    var whole := Concat(w.chunks);
    if fromByte < w.windowStart then Read(whole, w.totalBytes, true)
    else if fromByte - w.windowStart > |whole| then Read([], w.totalBytes, false)
    else Read(whole[fromByte - w.windowStart..], w.totalBytes, false)
  }

  const EMPTY := Window([], 0, 0, 0)

  class CollectedStream {
    const maxBytes: int
    var chunks: seq<Bytes>
    var windowBytes: nat
    var windowStart: nat
    var totalBytes: nat
    ghost var stream: Bytes

    function Abstract(): Window
      reads this
    {
      Window(chunks, windowBytes, windowStart, totalBytes)
    }

    ghost predicate Valid()
      reads this
    {
      Holds(Abstract(), stream, maxBytes)
    }

    constructor (maxBytes: int)
      ensures Valid() && stream == [] && this.maxBytes == maxBytes && Abstract() == EMPTY
    {
      this.maxBytes := maxBytes;
      chunks, windowBytes, windowStart, totalBytes := [], 0, 0, 0;
      stream := [];
    }

    method Push(data: Bytes)
      requires Valid()
      modifies this
      ensures Valid() && stream == old(stream) + data
      ensures Abstract() == AfterPush(old(Abstract()), data, maxBytes)
      ensures |chunks| > 0 && chunks[|chunks| - 1] == data
      ensures old(windowBytes) + |data| <= maxBytes ==> chunks == old(chunks) + [data]
    {
      PushKeepsSuffix(Abstract(), stream, data, maxBytes);
      PushHolds(Abstract(), stream, data, maxBytes);
      TrimKeepsLast(Window(chunks + [data], windowBytes + |data|, windowStart, totalBytes + |data|), maxBytes);
      totalBytes := totalBytes + |data|;
      chunks := chunks + [data];
      windowBytes := windowBytes + |data|;
      stream := stream + data;
      ShiftHeads();
    }

    /** The loop of `push`. */
    method ShiftHeads()
      requires Suffix(Abstract(), stream, maxBytes)
      modifies this`chunks, this`windowBytes, this`windowStart
      ensures Abstract() == Trim(old(Abstract()), maxBytes)
    {
      while windowBytes > maxBytes && |chunks| > 1
        invariant Suffix(Abstract(), stream, maxBytes)
        invariant Trim(Abstract(), maxBytes) == Trim(old(Abstract()), maxBytes)
        decreases |chunks|
      {
        var head := |chunks[0]|;
        HeadFits(Abstract(), stream, maxBytes);
        if windowBytes - head < maxBytes {
          break;
        }
        ShedKeepsSuffix(Abstract(), stream, maxBytes);
        assert Trim(Abstract(), maxBytes) == Trim(Shed(Abstract()), maxBytes);
        chunks, windowBytes, windowStart := chunks[1..], windowBytes - head, windowStart + head;
      }
    }

    /** Exactly the stream from that offset on, unless it lies below the window. */
    method ReadFrom(fromByte: nat) returns (r: Read)
      requires Valid()
      ensures r.nextOffset == |stream| && (r.lossy <==> fromByte < windowStart)
      ensures !r.lossy ==> r.text == if fromByte <= |stream| then stream[fromByte..] else []
      ensures r.lossy ==> r.text == stream[windowStart..]
    {
      ReadIsExact(Abstract(), stream, maxBytes, fromByte);
      r := ReadAt(Abstract(), fromByte);
    }
  }

  // ---------------------------------------------------------------- what the window is

  /** The window is a suffix of the stream, holding at least `maxBytes` of it or all. */
  ghost predicate Suffix(w: Window, stream: Bytes, maxBytes: int) {
    && w.totalBytes == |stream|
    && w.windowStart + w.windowBytes == w.totalBytes
    && Concat(w.chunks) == stream[w.windowStart..]
    && (w.windowBytes < maxBytes ==> w.windowStart == 0)
  }

  /** And it is over the limit by less than its first chunk, unless that is its only one. */
  ghost predicate Holds(w: Window, stream: Bytes, maxBytes: int) {
    && Suffix(w, stream, maxBytes)
    && (w.windowBytes > maxBytes && |w.chunks| > 1 ==> w.windowBytes - |w.chunks[0]| < maxBytes)
  }

  lemma {:induction false} ConcatAppend(chunks: seq<Bytes>, data: Bytes)
    ensures Concat(chunks + [data]) == Concat(chunks) + data
  {
    if chunks == [] {
      assert Concat([data]) == data + Concat([]);
    } else {
      ConcatAppend(chunks[1..], data);
      assert (chunks + [data])[1..] == chunks[1..] + [data];
    }
  }

  lemma HeadFits(w: Window, stream: Bytes, maxBytes: int)
    requires Suffix(w, stream, maxBytes) && w.chunks != []
    ensures |w.chunks[0]| <= w.windowBytes
  {
    assert |Concat(w.chunks)| == |w.chunks[0]| + |Concat(w.chunks[1..])|;
  }

  function Shed(w: Window): Window
    requires w.chunks != [] && |w.chunks[0]| <= w.windowBytes
  {
    Window(w.chunks[1..], w.windowBytes - |w.chunks[0]|, w.windowStart + |w.chunks[0]|, w.totalBytes)
  }

  lemma ShedKeepsSuffix(w: Window, stream: Bytes, maxBytes: int)
    requires Suffix(w, stream, maxBytes) && Sheds(w, maxBytes)
    ensures Suffix(Shed(w), stream, maxBytes)
  {
    var head := |w.chunks[0]|;
    assert Concat(w.chunks)[head..] == Concat(w.chunks[1..]);
    assert stream[w.windowStart..][head..] == stream[w.windowStart + head..];
  }

  lemma {:induction false} TrimHolds(w: Window, stream: Bytes, maxBytes: int)
    requires Suffix(w, stream, maxBytes)
    ensures Holds(Trim(w, maxBytes), stream, maxBytes)
    decreases |w.chunks|
  {
    if Sheds(w, maxBytes) {
      ShedKeepsSuffix(w, stream, maxBytes);
      TrimHolds(Shed(w), stream, maxBytes);
    } else if w.chunks != [] {
      HeadFits(w, stream, maxBytes);
    }
  }

  /** What was pushed last is never given up, nor anything while the window is within the limit. */
  lemma {:induction false} TrimKeepsLast(w: Window, maxBytes: int)
    requires w.chunks != []
    ensures var t := Trim(w, maxBytes);
            && t.chunks != [] && t.chunks[|t.chunks| - 1] == w.chunks[|w.chunks| - 1]
            && (w.windowBytes <= maxBytes ==> t == w)
    decreases |w.chunks|
  {
    if Sheds(w, maxBytes) {
      TrimKeepsLast(Shed(w), maxBytes);
    }
  }

  lemma PushKeepsSuffix(w: Window, stream: Bytes, data: Bytes, maxBytes: int)
    requires Suffix(w, stream, maxBytes)
    ensures Suffix(Window(w.chunks + [data], w.windowBytes + |data|, w.windowStart, w.totalBytes + |data|),
                   stream + data, maxBytes)
  {
    ConcatAppend(w.chunks, data);
    assert (stream + data)[w.windowStart..] == stream[w.windowStart..] + data;
  }

  lemma PushHolds(w: Window, stream: Bytes, data: Bytes, maxBytes: int)
    requires Holds(w, stream, maxBytes)
    ensures Holds(AfterPush(w, data, maxBytes), stream + data, maxBytes)
  {
    PushKeepsSuffix(w, stream, data, maxBytes);
    TrimHolds(Window(w.chunks + [data], w.windowBytes + |data|, w.windowStart, w.totalBytes + |data|),
              stream + data, maxBytes);
  }

  lemma ReadIsExact(w: Window, stream: Bytes, maxBytes: int, fromByte: nat)
    requires Holds(w, stream, maxBytes)
    ensures var r := ReadAt(w, fromByte);
            && r.nextOffset == |stream|
            && (r.lossy <==> fromByte < w.windowStart)
            && (!r.lossy ==> r.text == if fromByte <= |stream| then stream[fromByte..] else [])
            && (r.lossy ==> r.text == stream[w.windowStart..])
  {
    if w.windowStart <= fromByte <= |stream| {
      assert stream[w.windowStart..][fromByte - w.windowStart..] == stream[fromByte..];
    }
  }

  // ---------------------------------------------------------------- any pushes and reads

  /** A reader that reads from where its last read ended. */
  datatype Event = Pushed(data: Bytes) | Polled

  datatype Session = Session(window: Window, stream: Bytes, cursor: nat, seen: Bytes, lossy: bool)

  function After(events: seq<Event>, maxBytes: int): Session {
    if events == [] then Session(EMPTY, [], 0, [], false)
    else
      var s, e := After(events[..|events| - 1], maxBytes), events[|events| - 1];
      match e
      case Pushed(data) => s.(window := AfterPush(s.window, data, maxBytes), stream := s.stream + data)
      case Polled =>
        var r := ReadAt(s.window, s.cursor);
        s.(cursor := r.nextOffset, seen := s.seen + r.text, lossy := s.lossy || r.lossy)
  }

  /** After any pushes the window is an exact suffix within its bounds. */
  lemma {:induction false} WindowIsTail(events: seq<Event>, maxBytes: int)
    ensures Holds(After(events, maxBytes).window, After(events, maxBytes).stream, maxBytes)
  {
    if events != [] {
      var s := After(events[..|events| - 1], maxBytes);
      WindowIsTail(events[..|events| - 1], maxBytes);
      if events[|events| - 1].Pushed? {
        PushHolds(s.window, s.stream, events[|events| - 1].data, maxBytes);
      }
    }
  }

  /** The bounds in bytes: at least `min(total, maxBytes)`, and less than a first chunk over a positive limit. */
  lemma WindowBounds(events: seq<Event>, maxBytes: int)
    requires maxBytes > 0
    ensures var w, stream := After(events, maxBytes).window, After(events, maxBytes).stream;
            && w.windowBytes == |Concat(w.chunks)| <= |stream| && Concat(w.chunks) == stream[|stream| - w.windowBytes..]
            && w.windowBytes >= (if |stream| < maxBytes then |stream| else maxBytes)
            && (w.windowBytes > maxBytes ==> w.chunks != [] && w.windowBytes < maxBytes + |w.chunks[0]|)
  {
    WindowIsTail(events, maxBytes);
    var w := After(events, maxBytes).window;
    if |w.chunks| == 1 {
      assert Concat(w.chunks) == w.chunks[0] + Concat([]);
    }
  }

  lemma ReadContinues(w: Window, stream: Bytes, maxBytes: int, cursor: nat)
    requires Holds(w, stream, maxBytes) && cursor <= |stream|
    ensures ReadAt(w, cursor).nextOffset == |stream|
    ensures !ReadAt(w, cursor).lossy ==> stream[..cursor] + ReadAt(w, cursor).text == stream
  {
    ReadIsExact(w, stream, maxBytes, cursor);
  }

  /** Chained reads rebuild the stream exactly, up to the last read, as long as none was lossy. */
  lemma {:induction false} ChainedReadsRebuildTheStream(events: seq<Event>, maxBytes: int)
    ensures After(events, maxBytes).cursor <= |After(events, maxBytes).stream|
    ensures var s := After(events, maxBytes); !s.lossy ==> s.seen == s.stream[..s.cursor]
  {
    if events != [] {
      var before, e := events[..|events| - 1], events[|events| - 1];
      var s := After(before, maxBytes);
      ChainedReadsRebuildTheStream(before, maxBytes);
      if e.Polled? {
        WindowIsTail(before, maxBytes);
        ReadContinues(s.window, s.stream, maxBytes, s.cursor);
      } else {
        assert (s.stream + e.data)[..s.cursor] == s.stream[..s.cursor];
      }
    }
  }

  /** Bytes pushed since the last read. */
  function Unread(events: seq<Event>): nat {
    if events == [] then 0
    else
      match events[|events| - 1]
      case Pushed(data) => Unread(events[..|events| - 1]) + |data|
      case Polled => 0
  }

  /** A read ends at the end of the stream. */
  lemma {:induction false} CursorIsBehindByUnread(events: seq<Event>, maxBytes: int)
    ensures After(events, maxBytes).cursor + Unread(events) == |After(events, maxBytes).stream|
  {
    if events != [] {
      var before := events[..|events| - 1];
      var s := After(before, maxBytes);
      CursorIsBehindByUnread(before, maxBytes);
      WindowIsTail(before, maxBytes);
      ReadContinues(s.window, s.stream, maxBytes, s.cursor);
    }
  }

  /** A reader that never falls behind by more than the limit loses nothing, and has seen the whole stream
      up to its last read. */
  lemma {:induction false} KeepingUpLosesNothing(events: seq<Event>, maxBytes: int)
    requires forall i :: 0 <= i < |events| && events[i].Polled? ==> Unread(events[..i]) <= maxBytes
    ensures var s := After(events, maxBytes);
            !s.lossy && s.cursor + Unread(events) == |s.stream| && s.seen == s.stream[..s.cursor]
  {
    CursorIsBehindByUnread(events, maxBytes);
    if events != [] {
      var before := events[..|events| - 1];
      assert forall i :: 0 <= i < |before| ==> before[..i] == events[..i] && before[i] == events[i];
      KeepingUpLosesNothing(before, maxBytes);
      CursorIsBehindByUnread(before, maxBytes);
      WindowIsTail(before, maxBytes);
      var s := After(before, maxBytes);
      if events[|events| - 1].Polled? {
        assert s.window.windowStart <= s.cursor;
        ReadIsExact(s.window, s.stream, maxBytes, s.cursor);
      }
    }
    ChainedReadsRebuildTheStream(events, maxBytes);
  }
}
