/** Putting log lines together from frames (`streamContainerLogs`, pkg/controlplane/docker_logs.go). */
module LogLines {
  import opened Bytes

  const NEWLINE: byte := 10
  const CAP: nat := 5242880
  const MAX_LOG_FRAME_SIZE: nat := 1048576

  /** Finished lines and the text after the last newline. */
  datatype Text = Text(lines: seq<bytes>, tail: bytes)

  const NOTHING: Text := Text([], [])

  /** The reference: octet by octet, a newline ends a line, anything else extends the tail. */
  function Put(t: Text, b: byte): Text {
    if b == NEWLINE then Text(t.lines + [t.tail], []) else Text(t.lines, t.tail + [b])
  }

  function Extend(t: Text, s: bytes): Text
    decreases |s|
  {
    if s == [] then t else Extend(Put(t, s[0]), s[1..])
  }

  /** The position of the first newline, or the length. */
  function IndexOf(s: bytes): (i: nat)
    ensures i <= |s| && NEWLINE !in s[..i] && (i < |s| ==> s[i] == NEWLINE)
    ensures i == |s| <==> NEWLINE !in s
  {
    if s == [] || s[0] == NEWLINE then 0
    else
      assert s == [s[0]] + s[1..];
      1 + IndexOf(s[1..])
  }

  /** One frame: whole lines go out, the rest is kept for the next frame unless it has grown too long. */
  function Feed(t: Text, chunk: bytes): Text
    decreases |chunk|
  {
    var idx := IndexOf(chunk);
    if idx == |chunk| then Text(t.lines, if |t.tail| + |chunk| > CAP then [] else t.tail + chunk)
    else Feed(Text(t.lines + [t.tail + chunk[..idx]], []), chunk[idx + 1..])
  }

  /** The lines sent on after all frames, and what the buffer then holds. */
  function FeedAll(frames: seq<bytes>): Text {
    if frames == [] then NOTHING else Feed(FeedAll(frames[..|frames| - 1]), frames[|frames| - 1])
  }

  class LogReader {
    var lineBuf: bytes
    var processed: seq<bytes>

    ghost function Abs(): Text
      reads this
    {
      Text(processed, lineBuf)
    }

    constructor ()
      ensures Abs() == NOTHING
    {
      lineBuf, processed := [], [];
    }

    method ProcessFrame(payload: bytes)
      modifies this
      ensures Abs() == Feed(old(Abs()), payload)
    {
      hide IndexOf;
      var chunk := payload;
      while true
        invariant Feed(Abs(), chunk) == Feed(old(Abs()), payload)
        decreases |chunk|
      {
        var idx := FindNewline(chunk);
        if idx == |chunk| {
          if |lineBuf| + |chunk| > CAP {
            lineBuf := [];
          } else {
            lineBuf := lineBuf + chunk;
          }
          break;
        }
        lineBuf := lineBuf + chunk[..idx];
        processed := processed + [lineBuf];
        lineBuf := [];
        chunk := chunk[idx + 1..];
      }
    }
  }

  method FindNewline(s: bytes) returns (i: nat)
    ensures i == IndexOf(s)
  {
    i := 0;
    assert s[0..] == s;
    while i < |s| && s[i] != NEWLINE
      invariant i <= |s| && IndexOf(s) == i + IndexOf(s[i..])
    {
      Tail(s, i);
      i := i + 1;
    }
  }

  function Concat(frames: seq<bytes>): bytes {
    if frames == [] then [] else Concat(frames[..|frames| - 1]) + frames[|frames| - 1]
  }

  /** The text of the stream, however it was cut into frames. */
  function TextOf(frames: seq<bytes>): Text {
    Extend(NOTHING, Concat(frames))
  }

  function Unlines(lines: seq<bytes>): bytes {
    if lines == [] then [] else Unlines(lines[..|lines| - 1]) + lines[|lines| - 1] + [NEWLINE]
  }

  ghost predicate Lossless(t: Text, s: bytes) {
    Unlines(t.lines) + t.tail == s && NEWLINE !in t.tail && forall i :: 0 <= i < |t.lines| ==> NEWLINE !in t.lines[i]
  }

  lemma PutLossless(t: Text, s: bytes, b: byte)
    requires Lossless(t, s)
    ensures Lossless(Put(t, b), s + [b])
  {
    if b == NEWLINE {
      assert (t.lines + [t.tail])[..|t.lines|] == t.lines;
    }
  }

  /** The reference is right: the lines and the tail are newline-free and make up the stream. */
  lemma {:induction false} ExtendLossless(t: Text, s: bytes, more: bytes)
    requires Lossless(t, s)
    ensures Lossless(Extend(t, more), s + more)
    decreases |more|
  {
    hide Lossless, Put;
    if more == [] {
      Unit(s);
    } else {
      PutLossless(t, s, more[0]);
      ExtendLossless(Put(t, more[0]), s + [more[0]], more[1..]);
      assert s + more == s + [more[0]] + more[1..];
    }
  }

  lemma {:induction false} ExtendConcat(t: Text, a: bytes, b: bytes)
    ensures Extend(t, a + b) == Extend(Extend(t, a), b)
    decreases |a|
  {
    hide Put;
    if a == [] {
      Unit(b);
    } else {
      assert (a + b)[1..] == a[1..] + b;
      ExtendConcat(Put(t, a[0]), a[1..], b);
    }
  }

  lemma {:induction false} ExtendPlain(t: Text, s: bytes)
    requires NEWLINE !in s
    ensures Extend(t, s) == Text(t.lines, t.tail + s)
    decreases |s|
  {
    if s == [] {
      Unit(t.tail);
    } else {
      ExtendPlain(Put(t, s[0]), s[1..]);
      assert t.tail + s == t.tail + [s[0]] + s[1..];
    }
  }

  /** A chunk with a newline in it: the line it ends, then the rest. */
  lemma ExtendLine(t: Text, chunk: bytes)
    requires NEWLINE in chunk
    ensures var idx := IndexOf(chunk);
            Extend(t, chunk) == Extend(Text(t.lines + [t.tail + chunk[..idx]], []), chunk[idx + 1..])
  {
    hide IndexOf;
    var idx := IndexOf(chunk);
    assert chunk == chunk[..idx] + ([NEWLINE] + chunk[idx + 1..]);
    ExtendConcat(t, chunk[..idx], [NEWLINE] + chunk[idx + 1..]);
    ExtendPlain(t, chunk[..idx]);
    assert ([NEWLINE] + chunk[idx + 1..])[1..] == chunk[idx + 1..];
  }

  /** The buffer never exceeds the cap, and holds the true tail whenever that fits. */
  predicate InStep(t: Text, truth: Text) {
    |t.tail| <= CAP && (|truth.tail| <= CAP ==> t.tail == truth.tail)
  }

  lemma {:induction false} FeedGrows(t: Text, chunk: bytes)
    ensures t.lines <= Feed(t, chunk).lines
    decreases |chunk|
  {
    hide IndexOf;
    var idx := IndexOf(chunk);
    if idx < |chunk| {
      FeedGrows(Text(t.lines + [t.tail + chunk[..idx]], []), chunk[idx + 1..]);
    }
  }

  lemma {:induction false} ExtendGrows(t: Text, s: bytes)
    ensures t.lines <= Extend(t, s).lines
    decreases |s|
  {
    if s != [] {
      ExtendGrows(Put(t, s[0]), s[1..]);
    }
  }

  lemma {:induction false} FeedInStep(t: Text, truth: Text, chunk: bytes)
    requires InStep(t, truth) && |t.lines| == |truth.lines|
    ensures InStep(Feed(t, chunk), Extend(truth, chunk))
    ensures |Feed(t, chunk).lines| == |Extend(truth, chunk).lines|
    decreases |chunk|
  {
    hide Extend, IndexOf;
    var idx := IndexOf(chunk);
    if idx == |chunk| {
      ExtendPlain(truth, chunk);
    } else {
      ExtendLine(truth, chunk);
      FeedInStep(Text(t.lines + [t.tail + chunk[..idx]], []),
                 Text(truth.lines + [truth.tail + chunk[..idx]], []), chunk[idx + 1..]);
    }
  }

  /** A buffer that holds the true tail gives the true lines. */
  lemma {:induction false} FeedSame(t: Text, truth: Text, chunk: bytes)
    requires t.lines == truth.lines && (NEWLINE in chunk ==> t.tail == truth.tail)
    ensures Feed(t, chunk).lines == Extend(truth, chunk).lines
    decreases |chunk|
  {
    hide Extend, IndexOf;
    var idx := IndexOf(chunk);
    if idx == |chunk| {
      ExtendPlain(truth, chunk);
    } else {
      ExtendLine(truth, chunk);
      var after := Text(t.lines + [t.tail + chunk[..idx]], []);
      FeedSame(after, after, chunk[idx + 1..]);
    }
  }

  /** A buffer that lost something shows at the next newline. */
  lemma FeedDiffers(t: Text, truth: Text, chunk: bytes)
    requires |t.lines| == |truth.lines| && NEWLINE in chunk && |t.tail| != |truth.tail|
    ensures Feed(t, chunk).lines != Extend(truth, chunk).lines
  {
    hide Extend, IndexOf;
    var idx := IndexOf(chunk);
    var line, trueLine := t.tail + chunk[..idx], truth.tail + chunk[..idx];
    ExtendLine(truth, chunk);
    FeedGrows(Text(t.lines + [line], []), chunk[idx + 1..]);
    ExtendGrows(Text(truth.lines + [trueLine], []), chunk[idx + 1..]);
    assert Feed(t, chunk).lines[|t.lines|] == line && Extend(truth, chunk).lines[|t.lines|] == trueLine;
  }

  lemma FeedLines(t: Text, truth: Text, chunk: bytes)
    requires InStep(t, truth) && |t.lines| == |truth.lines|
    ensures Feed(t, chunk).lines == Extend(truth, chunk).lines
            <==> t.lines == truth.lines && (NEWLINE !in chunk || |truth.tail| <= CAP)
  {
    hide Feed, Extend;
    FeedGrows(t, chunk);
    ExtendGrows(truth, chunk);
    if NEWLINE in chunk && |truth.tail| > CAP {
      FeedDiffers(t, truth, chunk);
    } else if t.lines == truth.lines {
      FeedSame(t, truth, chunk);
    }
  }

  /** Every newline finds the buffer intact: the text pending before its frame fits under the cap. */
  ghost predicate NothingLost(frames: seq<bytes>) {
    forall i :: 0 <= i < |frames| && NEWLINE in frames[i] ==> |TextOf(frames[..i]).tail| <= CAP
  }

  lemma TextSnoc(frames: seq<bytes>)
    requires frames != []
    ensures TextOf(frames) == Extend(TextOf(frames[..|frames| - 1]), frames[|frames| - 1])
  {
    ExtendConcat(NOTHING, Concat(frames[..|frames| - 1]), frames[|frames| - 1]);
  }

  lemma NothingLostSnoc(frames: seq<bytes>)
    requires frames != []
    ensures var n := |frames| - 1;
            NothingLost(frames) <==>
              NothingLost(frames[..n]) && (NEWLINE !in frames[n] || |TextOf(frames[..n]).tail| <= CAP)
  {
    hide TextOf;
    var n := |frames| - 1;
    assert forall i :: 0 <= i < n ==> frames[..n][..i] == frames[..i];
  }

  lemma {:induction false} Reassembly(frames: seq<bytes>)
    ensures InStep(FeedAll(frames), TextOf(frames)) && |FeedAll(frames).lines| == |TextOf(frames).lines|
    ensures FeedAll(frames).lines == TextOf(frames).lines <==> NothingLost(frames)
  {
    hide TextOf, Feed, Extend;
    if frames == [] {
      EmptyText();
    } else {
      var n := |frames| - 1;
      var t, truth := FeedAll(frames[..n]), TextOf(frames[..n]);
      Reassembly(frames[..n]);
      TextSnoc(frames);
      NothingLostSnoc(frames);
      FeedInStep(t, truth, frames[n]);
      FeedLines(t, truth, frames[n]);
    }
  }

  lemma EmptyText()
    ensures TextOf([]) == NOTHING
  {
  }

  /**
    The lines sent on are the newline-terminated lines of the stream, however it was cut into
    frames, if and only if no newline arrives after the pending text outgrew the cap.
   */
  lemma FramingIndependence(frames: seq<bytes>)
    ensures FeedAll(frames).lines == TextOf(frames).lines <==> NothingLost(frames)
    ensures Lossless(TextOf(frames), Concat(frames))
  {
    hide FeedAll, Feed, Extend, NothingLost, Concat;
    Reassembly(frames);
    ExtendLossless(NOTHING, [], Concat(frames));
    assert [] + Concat(frames) == Concat(frames);
  }

  /** Two ways to cut the same octets give the same lines, while the pending text stays under the cap. */
  lemma SameStreamSameLines(frames: seq<bytes>, others: seq<bytes>)
    requires Concat(frames) == Concat(others) && NothingLost(frames) && NothingLost(others)
    ensures FeedAll(frames).lines == FeedAll(others).lines
  {
    hide FeedAll, Feed, Extend, NothingLost, Concat;
    Reassembly(frames);
    Reassembly(others);
  }

  function Blocks(block: bytes, n: nat): seq<bytes> {
    if n == 0 then [] else Blocks(block, n - 1) + [block]
  }

  /** Text without a newline, in frames that together stay under the cap, all goes into the buffer. */
  lemma {:induction false} PlainFrames(block: bytes, n: nat)
    requires NEWLINE !in block && n * |block| <= CAP
    ensures FeedAll(Blocks(block, n)) == Text([], Concat(Blocks(block, n)))
    ensures |Concat(Blocks(block, n))| == n * |block| && NEWLINE !in Concat(Blocks(block, n))
    decreases n
  {
    hide FeedAll, Concat, IndexOf;
    if n == 0 {
      NoFrames();
    } else {
      assert (n - 1) * |block| <= n * |block| == (n - 1) * |block| + |block|;
      PlainFrames(block, n - 1);
      FeedSnoc(Blocks(block, n - 1), block);
    }
  }

  lemma NoFrames()
    ensures FeedAll([]) == Text([], []) && Concat([]) == []
  {
  }

  lemma FeedSnoc(frames: seq<bytes>, chunk: bytes)
    ensures FeedAll(frames + [chunk]) == Feed(FeedAll(frames), chunk)
    ensures Concat(frames + [chunk]) == Concat(frames) + chunk
  {
    hide Feed;
    assert (frames + [chunk])[..|frames|] == frames;
  }

  lemma NewlineEnds(t: Text)
    ensures Feed(t, [NEWLINE]) == Text(t.lines + [t.tail], [])
  {
    assert IndexOf([NEWLINE]) == 0;
    assert t.tail + [NEWLINE][..0] == t.tail;
  }

  lemma ExtendNewline(t: Text)
    ensures Extend(t, [NEWLINE]) == Text(t.lines + [t.tail], [])
  {
  }

  /**
    A stream that loses the beginning of a line: five full frames and at least one octet more
    without a newline, then the newline.  An empty line is sent on in place of the whole text.
   */
  lemma LongLineLost(block: bytes, last: bytes)
    requires |block| == MAX_LOG_FRAME_SIZE && 0 < |last| <= MAX_LOG_FRAME_SIZE && NEWLINE !in block && NEWLINE !in last
    ensures var frames := Blocks(block, 5) + [last] + [[NEWLINE]];
            && FeedAll(frames) == Text([[]], [])
            && TextOf(frames) == Text([Concat(Blocks(block, 5)) + last], [])
            && !NothingLost(frames)
  {
    hide FeedAll, Concat, NothingLost, Blocks, IndexOf, Extend;
    var full := Blocks(block, 5);
    PlainFrames(block, 5);
    FeedSnoc(full, last);
    FeedSnoc(full + [last], [NEWLINE]);
    NewlineEnds(NOTHING);
    var text := Concat(full) + last;
    ExtendConcat(NOTHING, text, [NEWLINE]);
    ExtendPlain(NOTHING, text);
    assert [] + text == text;
    ExtendNewline(Text([], text));
    Reassembly(full + [last] + [[NEWLINE]]);
  }
}
