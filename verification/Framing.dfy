/** How a stream splits into frames, whatever the sizes of the chunks it arrives in. */
module Framing {
  import opened Sequences
  import opened Wrappers
  import opened StreamCodec
  import Utf8

  /**
   The frames that repeated calls of the decoder give for one buffer, and the bytes left when it first
   has none to give. `clean` says that it stopped for want of a boundary, not over a frame that is not UTF-8.
   */
  datatype Drained = Drained(frames: seq<Bytes>, rest: Bytes, clean: bool) {
    function After(earlier: seq<Bytes>): Drained {
      Drained(earlier + frames, rest, clean)
    }
  }

  function Drain(sep: Separator, b: Bytes): (r: Drained)
    ensures |r.rest| <= |b|
    ensures r.clean ==> Boundary(sep, r.rest).None?
    decreases |b|
  {
    match DecodeSpec(sep, b)
    case (Frame(f), rest) => Drain(sep, rest).After([f])
    case (_, rest) => Drained([], rest, Boundary(sep, b).None?)
  }

  /** The reader: each chunk is appended to what was held back, then the buffer is drained. */
  function Feed(sep: Separator, held: Bytes, chunks: seq<Bytes>): (seq<Bytes>, Bytes)
    decreases |chunks|
  {
    if chunks == [] then ([], held)
    else
      var now := Drain(sep, held + chunks[0]);
      var later := Feed(sep, now.rest, chunks[1..]);
      (now.frames + later.0, later.1)
  }

  ghost predicate IsSplitOf(chunks: seq<Bytes>, b: Bytes) {
    Flatten(chunks) == b && forall i :: 0 <= i < |chunks| ==> chunks[i] != []
  }

  // ---------------------------------------------------------------- one call

  lemma {:induction false} RunPrefix(s: Scan, a: Bytes, b: Bytes, n: nat)
    requires n <= |a|
    ensures Run(s, a + b, n) == Run(s, a, n)
  {
    if n > 0 {
      RunPrefix(s, a, b, n - 1);
    }
  }

  lemma {:induction false} CutPrefix(a: Bytes, b: Bytes, n: nat)
    requires n <= |a|
    ensures CutAt(a + b, n) == CutAt(a, n)
  {
    RunPrefix(FRESH, a, b, n);
  }

  lemma {:induction false} FirstCutStable(a: Bytes, b: Bytes, k: nat)
    requires k <= |a|
    ensures FirstCut(a, k).Some? ==> FirstCut(a + b, k) == FirstCut(a, k)
    ensures FirstCut(a + b, k).Some? && FirstCut(a + b, k).value <= |a| ==> FirstCut(a, k) == FirstCut(a + b, k)
    decreases |a| - k
  {
    CutPrefix(a, b, k);
    if !CutAt(a, k) && k < |a| {
      FirstCutStable(a, b, k + 1);
    }
  }

  lemma {:induction false} IndexStable(a: Bytes, b: Bytes, c: byte)
    ensures IndexOf(a, c).Some? ==> IndexOf(a + b, c) == IndexOf(a, c)
    ensures IndexOf(a + b, c).Some? && IndexOf(a + b, c).value < |a| ==> IndexOf(a, c) == IndexOf(a + b, c)
  {
    if a != [] {
      assert (a + b)[1..] == a[1..] + b;
      IndexStable(a[1..], b, c);
    }
  }

  /** A boundary depends only on the bytes before it. */
  lemma {:induction false} BoundaryStable(sep: Separator, a: Bytes, b: Bytes)
    ensures Boundary(sep, a).Some? ==> Boundary(sep, a + b) == Boundary(sep, a)
    ensures Boundary(sep, a + b).Some? && Boundary(sep, a + b).value.next <= |a| ==>
              Boundary(sep, a) == Boundary(sep, a + b)
  {
    match sep
    case Byte(c) => IndexStable(a, b, c);
    case Empty => FirstCutStable(a, b, 0);
  }

  /** More input never changes what a decoder has cut; without a boundary the buffer is untouched. */
  lemma {:induction false} DecodeExtends(sep: Separator, b: Bytes, s: Bytes)
    ensures Boundary(sep, b).Some? ==>
              DecodeSpec(sep, b + s) == (DecodeSpec(sep, b).0, DecodeSpec(sep, b).1 + s)
    ensures Boundary(sep, b).None? ==> DecodeSpec(sep, b) == (NotReady, b)
  {
    BoundaryStable(sep, b, s);
    if Boundary(sep, b).Some? {
      var at := Boundary(sep, b).value;
      assert (b + s)[..at.end] == b[..at.end];
      assert (b + s)[at.next..] == b[at.next..] + s;
    }
  }

  /** What a call says: an invalid frame is an error in separator mode, and looks like none in the other. */
  lemma {:induction false} DecodeSays(sep: Separator, b: Bytes)
    ensures var (now, at) := (DecodeSpec(sep, b).0, Boundary(sep, b));
            && (now.Frame? <==> at.Some? && Utf8.Valid(b[..at.value.end]))
            && (now.InvalidUtf8? <==> sep.Byte? && at.Some? && !Utf8.Valid(b[..at.value.end]))
            && (now.Frame? ==> now.bytes == b[..at.value.end])
  {
  }

  // ---------------------------------------------------------------- many calls

  lemma {:induction false} AfterTwice(d: Drained, a: seq<Bytes>, b: seq<Bytes>)
    ensures d.After(a).After(b) == d.After(b + a)
  {
    assert b + (a + d.frames) == b + a + d.frames;
  }

  lemma {:induction false} DrainExtends(sep: Separator, b: Bytes, s: Bytes)
    ensures Drain(sep, b).clean ==>
              Drain(sep, b + s) == Drain(sep, Drain(sep, b).rest + s).After(Drain(sep, b).frames)
    ensures !Drain(sep, b).clean ==>
              Drain(sep, b + s) == Drained(Drain(sep, b).frames, Drain(sep, b).rest + s, false)
    decreases |b|
  {
    DecodeExtends(sep, b, s);
    var (now, rest) := DecodeSpec(sep, b);
    if now.Frame? {
      DrainExtends(sep, rest, s);
      var d := Drain(sep, rest);
      assert Drain(sep, b) == d.After([now.bytes]);
      assert Drain(sep, b + s) == Drain(sep, rest + s).After([now.bytes]);
      if d.clean {
        AfterTwice(Drain(sep, d.rest + s), d.frames, [now.bytes]);
      }
    } else if Boundary(sep, b).Some? {
      assert Drain(sep, b + s) == Drained([], rest + s, false);
    } else {
      assert Drain(sep, b) == Drained([], b, true);
    }
  }

  lemma {:induction false} FeedIsDrain(sep: Separator, held: Bytes, chunks: seq<Bytes>)
    requires Boundary(sep, held).None?
    requires Boundary(sep, Drain(sep, held + Flatten(chunks)).rest).None?
    ensures var all := Drain(sep, held + Flatten(chunks));
            Feed(sep, held, chunks) == (all.frames, all.rest)
    decreases |chunks|
  {
    if chunks == [] {
      assert held + Flatten(chunks) == held;
      assert Drain(sep, held) == Drained([], held, true);
    } else {
      var b, later := held + chunks[0], Flatten(chunks[1..]);
      assert held + Flatten(chunks) == b + later;
      DrainExtends(sep, b, later);
      BoundaryStable(sep, Drain(sep, b).rest, later);
      var d := Drain(sep, b);
      if !d.clean {
        assert Drain(sep, d.rest + later) == Drained([], d.rest + later, true);
        assert d.frames + [] == d.frames;
      }
      FeedIsDrain(sep, d.rest, chunks[1..]);
    }
  }

  lemma {:induction false} RestIsSuffix(sep: Separator, b: Bytes)
    ensures var r := Drain(sep, b).rest; b[|b| - |r|..] == r
    decreases |b|
  {
    hide Boundary, Utf8.Valid;
    var (now, rest) := DecodeSpec(sep, b);
    if now.Frame? {
      RestIsSuffix(sep, rest);
    }
  }

  /** Cutting the buffer just where a drain stopped does not change what the drain gives. */
  lemma {:induction false} DrainConsumed(sep: Separator, b: Bytes)
    ensures var d := Drain(sep, b);
            Drain(sep, b[..|b| - |d.rest|]).frames == d.frames &&
            (!d.clean ==> Drain(sep, b[..|b| - |d.rest|]).rest == [] && |d.rest| < |b|)
    decreases |b|
  {
    hide Boundary, Utf8.Valid;
    var d := Drain(sep, b);
    var used := b[..|b| - |d.rest|];
    RestIsSuffix(sep, b);
    assert used + d.rest == b;
    BoundaryStable(sep, used, d.rest);
    if Boundary(sep, b).Some? {
      var at := Boundary(sep, b).value;
      DecodeExtends(sep, used, d.rest);
      if Utf8.Valid(b[..at.end]) {
        assert |d.rest| <= |b[at.next..]|;
        assert used[at.next..] == b[at.next..][..|b[at.next..]| - |d.rest|];
        DrainConsumed(sep, b[at.next..]);
        assert used[..at.end] == b[..at.end];
      } else {
        assert used[at.next..] == [];
      }
    } else {
      assert used == [];
    }
  }

  /**
   Chunking independence, exactly: every way to split a stream into chunks gives the same frames and
   the same leftover if and only if a drain of the whole stream leaves no boundary behind. It does leave
   none when every frame is valid UTF-8 (CleanStreams).
   */
  lemma {:induction false} ChunkingIndependence(sep: Separator, b: Bytes)
    ensures SplitsAgree(sep, b) <==> Boundary(sep, Drain(sep, b).rest).None?
  {
    if Boundary(sep, Drain(sep, b).rest).None? {
      forall chunks | IsSplitOf(chunks, b)
        ensures Feed(sep, [], chunks) == (Drain(sep, b).frames, Drain(sep, b).rest)
      {
        SplitIsDrain(sep, b, chunks);
      }
    } else {
      SplitDiffers(sep, b);
    }
  }

  ghost predicate SplitsAgree(sep: Separator, b: Bytes) {
    forall chunks :: IsSplitOf(chunks, b) ==>
      Feed(sep, [], chunks) == (Drain(sep, b).frames, Drain(sep, b).rest)
  }

  lemma {:induction false} SplitIsDrain(sep: Separator, b: Bytes, chunks: seq<Bytes>)
    requires Flatten(chunks) == b && Boundary(sep, Drain(sep, b).rest).None?
    ensures Feed(sep, [], chunks) == (Drain(sep, b).frames, Drain(sep, b).rest)
  {
    assert [] + Flatten(chunks) == b;
    FeedIsDrain(sep, [], chunks);
  }

  lemma {:induction false} SplitDiffers(sep: Separator, b: Bytes)
    requires Boundary(sep, Drain(sep, b).rest).Some?
    ensures !SplitsAgree(sep, b)
  {
    var chunks := SplitAtStop(sep, b);
    assert Feed(sep, [], chunks) != (Drain(sep, b).frames, Drain(sep, b).rest);
  }

  lemma {:induction false} SplitAtStop(sep: Separator, b: Bytes) returns (chunks: seq<Bytes>)
    requires Boundary(sep, Drain(sep, b).rest).Some?
    ensures IsSplitOf(chunks, b)
    ensures |Feed(sep, [], chunks).1| < |Drain(sep, b).rest|
  {
    hide Drain, Boundary;
    var d := Drain(sep, b);
    var used := b[..|b| - |d.rest|];
    RestIsSuffix(sep, b);
    DrainConsumed(sep, b);
    chunks := [used, d.rest];
    FeedTwo(sep, chunks);
    assert [] + d.rest == d.rest;
    DrainShrinks(sep, d.rest);
  }

  lemma {:induction false} FeedTwo(sep: Separator, chunks: seq<Bytes>)
    requires |chunks| == 2
    ensures Flatten(chunks) == chunks[0] + chunks[1]
    ensures var now := Drain(sep, chunks[0]); var later := Drain(sep, now.rest + chunks[1]);
            Feed(sep, [], chunks) == (now.frames + later.frames, later.rest)
  {
    assert chunks[1..] == [chunks[1]];
    assert Flatten([chunks[1]]) == chunks[1];
    assert [] + chunks[0] == chunks[0];
    FeedOne(sep, Drain(sep, chunks[0]).rest, chunks[1]);
  }

  lemma {:induction false} FeedOne(sep: Separator, held: Bytes, b: Bytes)
    ensures Feed(sep, held, [b]) == (Drain(sep, held + b).frames, Drain(sep, held + b).rest)
  {
    assert [b][1..] == [];
    assert forall f: seq<Bytes> :: f + [] == f;
  }

  lemma {:induction false} DrainShrinks(sep: Separator, b: Bytes)
    requires Boundary(sep, b).Some?
    ensures |Drain(sep, b).rest| < |b|
  {
  }

  lemma {:induction false} CleanDrainInChunks(sep: Separator, b: Bytes, chunks: seq<Bytes>)
    requires Drain(sep, b).clean && Flatten(chunks) == b
    ensures Feed(sep, [], chunks) == (Drain(sep, b).frames, Drain(sep, b).rest)
  {
    SplitIsDrain(sep, b, chunks);
  }

  // ---------------------------------------------------------------- streams that are drained whole

  /** With an ASCII separator, a stream is UTF-8 exactly when no line of it makes a drain stop, and its rest is UTF-8. */
  lemma {:induction false} LinesCleanIffValid(c: byte, b: Bytes)
    requires c <= 0x7F
    ensures Utf8.Valid(b) <==> Drain(Byte(c), b).clean && Utf8.Valid(Drain(Byte(c), b).rest)
    decreases |b|
  {
    hide Utf8.Valid;
    match IndexOf(b, c) {
      case None =>
      case Some(i) =>
        var line, later := b[..i], b[i + 1..];
        assert b == line + [c] + later;
        if Utf8.Valid(b) {
          Utf8.ValidSplits(line, c, later);
        }
        if Utf8.Valid(line) {
          LinesCleanIffValid(c, later);
          if Utf8.Valid(later) {
            Utf8.AsciiIsValid([c]);
            Utf8.ValidConcat(line, [c]);
            Utf8.ValidConcat(line + [c], later);
          }
        }
    }
  }

  ghost predicate IsAscii(b: Bytes) {
    forall i :: 0 <= i < |b| ==> b[i] <= 0x7F
  }

  lemma {:induction false} AsciiIsClean(b: Bytes)
    requires IsAscii(b)
    ensures Drain(Empty, b).clean
    decreases |b|
  {
    var (now, rest) := DecodeSpec(Empty, b);
    if Boundary(Empty, b).Some? {
      var n := Boundary(Empty, b).value.end;
      Utf8.AsciiIsValid(b[..n]);
      assert rest == b[n..];
      AsciiIsClean(rest);
    }
  }

  /**
   So chunks do not matter for a UTF-8 stream with an ASCII separator, nor for an ASCII stream that is scanned
   for brackets. (Scanned streams of JSON texts in UTF-8 are in JsonFraming.)
   */
  lemma {:induction false} CleanStreams(sep: Separator, b: Bytes, chunks: seq<Bytes>)
    requires if sep.Byte? then sep.value <= 0x7F && Utf8.Valid(b) else IsAscii(b)
    requires Flatten(chunks) == b
    ensures Feed(sep, [], chunks) == (Drain(sep, b).frames, Drain(sep, b).rest)
  {
    match sep
    case Byte(c) =>
      LinesCleanIffValid(c, b);
      CleanDrainInChunks(sep, b, chunks);
    case Empty =>
      AsciiIsClean(b);
      CleanDrainInChunks(sep, b, chunks);
  }

  /** A frame that is not UTF-8 hides the frame behind it until more bytes arrive. */
  lemma {:induction false} InvalidFrameHidesTheNext()
    ensures exists bad: Bytes, good: Bytes ::
              Feed(Empty, [], [bad + good]) == ([], good) && Feed(Empty, [], [bad, good]) == ([good], [])
  {
    var bad: Bytes, good: Bytes := [0x7B, 0xFF, 0x7D], [0x7B, 0x7D];
    HiddenFrame(bad, good);
  }

  lemma {:induction false} HiddenFrame(bad: Bytes, good: Bytes)
    requires bad == [0x7B, 0xFF, 0x7D] && good == [0x7B, 0x7D]
    ensures Feed(Empty, [], [bad + good]) == ([], good)
    ensures Feed(Empty, [], [bad, good]) == ([good], [])
  {
    DrainGood(good);
    DrainBad(bad, good);
    assert [] + (bad + good) == bad + good;
    FeedOne(Empty, [], bad + good);
    HiddenFrameShown([bad, good]);
  }

  lemma {:induction false} HiddenFrameShown(chunks: seq<Bytes>)
    requires |chunks| == 2 && chunks[0] == [0x7B, 0xFF, 0x7D] && chunks[1] == [0x7B, 0x7D]
    ensures Feed(Empty, [], chunks) == ([chunks[1]], [])
  {
    FeedTwo(Empty, chunks);
    DrainGood(chunks[1]);
    assert chunks[0] + [] == chunks[0];
    DrainBad(chunks[0], []);
    var now := Drain(Empty, chunks[0]);
    assert now == Drained([], [], false);
    assert now.rest + chunks[1] == chunks[1];
    assert now.frames + [chunks[1]] == [chunks[1]];
  }

  lemma {:induction false} DrainGood(good: Bytes)
    requires good == [0x7B, 0x7D]
    ensures Drain(Empty, good) == Drained([good], [], true)
  {
    assert Run(FRESH, good, 1) == Scan(1, 1, false, false, 0, 0);
    assert Run(FRESH, good, 2) == Scan(2, 0, false, false, 0, 0);
    CutIsFirst(good, 0, 2);
    assert good[..2] == good && good[2..] == [];
    Utf8.AsciiIsValid(good);
    var none: Bytes := [];
    assert Boundary(Empty, none).None?;
    assert DecodeSpec(Empty, good) == (Frame(good), none);
    assert Drain(Empty, none) == Drained([], none, true);
  }

  lemma {:induction false} DrainBad(bad: Bytes, more: Bytes)
    requires bad == [0x7B, 0xFF, 0x7D]
    ensures Drain(Empty, bad + more) == Drained([], more, false)
  {
    assert Run(FRESH, bad, 1) == Scan(1, 1, false, false, 0, 0);
    assert Run(FRESH, bad, 2) == Scan(2, 1, false, false, 0, 0);
    assert Run(FRESH, bad, 3) == Scan(3, 0, false, false, 0, 0);
    CutIsFirst(bad, 0, 3);
    assert bad[..3] == bad && bad[3..] == [];
    assert !Utf8.Valid(bad) by {
      assert Utf8.HeadLength(bad[1..]) == 0;
    }
    assert DecodeSpec(Empty, bad) == (NotReady, []);
    DecodeExtends(Empty, bad, more);
    assert [] + more == more;
  }
}
