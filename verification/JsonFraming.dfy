/** Printer against parser: what the two decoders give back for written JSON texts. */
module JsonFraming {
  import opened Sequences
  import opened Wrappers
  import opened StreamCodec
  import opened Framing
  import opened JsonText
  import Utf8

  // ---------------------------------------------------------------- reading whitespace and containers

  /** Between texts. */
  predicate IsBetween(s: Scan) {
    s.depth == 0 && !s.inStr && !s.escaped
  }

  lemma {:induction false} PadScan(s: Scan, w: Bytes, n: nat)
    requires IsBetween(s) && IsPad(w) && n <= |w|
    ensures Run(s, w, n) == s.(idx := s.idx + n, spaces := s.spaces + n)
  {
    if n > 0 {
      PadScan(s, w, n - 1);
    }
  }

  function NonSpaces(t: Bytes): nat {
    |t| - Spaces(t)
  }

  predicate IsText(pad: Bytes, v: Json) {
    IsPad(pad) && Ok(v) && IsContainer(v)
  }

  function OpenOf(v: Json): byte {
    if v.Array? then 0x5B else 0x7B
  }

  function CloseOf(v: Json): byte {
    if v.Array? then 0x5D else 0x7D
  }

  lemma {:induction false} InsideWrapped(s: Scan, open: byte, inner: Bytes, close: byte, m: nat)
    requires 0 < m <= |inner| + 1 && Held(Step(s, open), inner)
    ensures Run(s, [open] + inner + [close], m).depth >= Step(s, open).depth
  {
    LeadsByte(s, open, if s.depth < Step(s, open).depth then s.depth else Step(s, open).depth);
    RunPrefix(s, [open] + inner, [close], m);
    RunConcat(s, [open], inner, m - 1);
  }

  /** The scan of a container: at depth 1 or more until its last byte, between texts there. */
  lemma {:induction false} ContainerScan(s: Scan, v: Json, m: nat)
    requires IsBetween(s) && Ok(v) && IsContainer(v) && 0 < m <= |Render(v)|
    ensures var t := Render(v);
            if m < |t| then Run(s, t, m).depth >= 1
            else 2 <= |t| && Run(s, t, m) == Scan(s.idx + |t|, 0, false, false, s.idx, s.spaces + Spaces(t))
  {
    hide Run, Held, Spaces;
    var open, inner, close := OpenOf(v), Body(v), CloseOf(v);
    RenderIsWrapped(v);
    HeldBody(Step(s, open), v);
    if m < |Render(v)| {
      InsideWrapped(s, open, inner, close, m);
    } else {
      WrappedLeads(s, open, inner, close, 0);
    }
  }

  lemma {:induction false} RenderIsWrapped(v: Json)
    requires IsContainer(v)
    ensures Render(v) == [OpenOf(v)] + Body(v) + [CloseOf(v)]
    ensures Spaces(Render(v)) == Spaces(Body(v))
  {
    SpacesWrapped(OpenOf(v), Body(v), CloseOf(v));
  }

  // ---------------------------------------------------------------- a stream of padded containers

  datatype Padded = Padded(pad: Bytes, value: Json) {
    function Bytes(): Bytes {
      pad + Render(value)
    }
  }

  ghost predicate AllTexts(ps: seq<Padded>) {
    forall i :: 0 <= i < |ps| ==> IsText(ps[i].pad, ps[i].value)
  }

  ghost predicate AllValid(ps: seq<Padded>) {
    forall i :: 0 <= i < |ps| ==> Utf8.Valid(Render(ps[i].value))
  }

  /** Less whitespace in front than other bytes inside. */
  predicate IsPrompt(p: Padded) {
    |p.pad| < NonSpaces(Render(p.value))
  }

  function Written(ps: seq<Padded>): seq<Bytes> {
    seq(|ps|, i requires 0 <= i < |ps| => ps[i].Bytes())
  }

  function Stream(ps: seq<Padded>): Bytes {
    if ps == [] then [] else Stream(ps[..|ps| - 1]) + ps[|ps| - 1].Bytes()
  }

  /** The whitespace in and before the texts. */
  function Lead(ps: seq<Padded>): nat {
    if ps == [] then 0
    else Lead(ps[..|ps| - 1]) + |ps[|ps| - 1].pad| + Spaces(Render(ps[|ps| - 1].value))
  }

  /** Has text j more bytes besides whitespace than there is whitespace before it? */
  predicate Closes(ps: seq<Padded>, j: nat)
    requires j < |ps|
  {
    Lead(ps[..j]) + |ps[j].pad| < NonSpaces(Render(ps[j].value))
  }

  /** The first text from j on that closes a frame, |ps| if none does. */
  function FirstClosing(ps: seq<Padded>, j: nat): (k: nat)
    requires j <= |ps|
    ensures j <= k <= |ps| && (k < |ps| ==> Closes(ps, k))
    ensures forall i :: j <= i < k ==> !Closes(ps, i)
    decreases |ps| - j
  {
    if j == |ps| || Closes(ps, j) then j else FirstClosing(ps, j + 1)
  }

  /** The frames: each ends with the first text that closes, counting from the frame before. */
  function Frames(ps: seq<Padded>): seq<Bytes>
    decreases |ps|
  {
    var k := FirstClosing(ps, 0);
    if k == |ps| then [] else [Stream(ps[..k + 1])] + Frames(ps[k + 1..])
  }

  /** The texts behind the last frame. */
  function HeldBack(ps: seq<Padded>): seq<Padded>
    decreases |ps|
  {
    var k := FirstClosing(ps, 0);
    if k == |ps| then ps else HeldBack(ps[k + 1..])
  }

  lemma {:induction false} StreamConcat(a: seq<Padded>, b: seq<Padded>)
    ensures Stream(a + b) == Stream(a) + Stream(b)
    decreases |b|
  {
    if b == [] {
      assert a + b == a && Stream(a) + [] == Stream(a);
    } else {
      assert (a + b)[..|a + b| - 1] == a + b[..|b| - 1];
      StreamConcat(a, b[..|b| - 1]);
      var last := b[|b| - 1].Bytes();
      assert Stream(a) + Stream(b[..|b| - 1]) + last == Stream(a) + (Stream(b[..|b| - 1]) + last);
    }
  }

  lemma {:induction false} StreamIsWritten(ps: seq<Padded>)
    ensures Flatten(Written(ps)) == Stream(ps)
    decreases |ps|
  {
    if ps != [] {
      StreamIsWritten(ps[1..]);
      assert Written(ps)[1..] == Written(ps[1..]);
      assert ps == [ps[0]] + ps[1..];
      StreamConcat([ps[0]], ps[1..]);
      StreamOne(ps[0]);
    }
  }

  lemma {:induction false} StreamOne(p: Padded)
    ensures Stream([p]) == p.Bytes()
  {
    assert [p][..0] == [] && [] + p.Bytes() == p.Bytes();
  }

  // ---------------------------------------------------------------- how the scan runs through a stream of texts

  /** Between texts, and not just behind one that closes. */
  predicate IsWaiting(s: Scan) {
    IsBetween(s) && s.start <= s.idx <= s.start + s.spaces
  }

  /** From such a state on, the only place to cut within a text and its padding is its end. */
  lemma {:induction false} TextScan(s: Scan, p: Padded, m: nat)
    requires IsWaiting(s) && IsText(p.pad, p.value) && m <= |p.Bytes()|
    ensures IsCut(Run(s, p.Bytes(), m)) <==>
              m == |p.Bytes()| && s.spaces + |p.pad| < NonSpaces(Render(p.value))
    ensures m == |p.Bytes()| ==>
              var r := Run(s, p.Bytes(), m);
              && IsBetween(r) && r.start <= r.idx == s.idx + m && r.spaces == s.spaces + |p.pad| + Spaces(Render(p.value))
              && (s.spaces + |p.pad| >= NonSpaces(Render(p.value)) ==> IsWaiting(r))
  {
    hide Render, Spaces, Run;
    var t := Render(p.value);
    if m <= |p.pad| {
      RunPrefix(s, p.pad, t, m);
      PadScan(s, p.pad, m);
      RenderIsWrapped(p.value);
    } else {
      RunConcat(s, p.pad, t, m - |p.pad|);
      PadScan(s, p.pad, |p.pad|);
      ContainerScan(Run(s, p.pad, |p.pad|), p.value, m - |p.pad|);
    }
  }

  // ---------------------------------------------------------------- one padded container

  /** Up to its closing bracket a padded container has at most one cut, at that bracket, under one condition. */
  lemma {:induction false} ContainerCuts(pad: Bytes, v: Json, more: Bytes, m: nat)
    requires IsText(pad, v) && m <= |pad + Render(v)|
    ensures CutAt(pad + Render(v) + more, m) <==> m == |pad + Render(v)| && |pad| < NonSpaces(Render(v))
  {
    CutPrefix(pad + Render(v), more, m);
    TextScan(FRESH, Padded(pad, v), m);
  }

  /** A container is cut at its closing bracket if and only if its whitespace in front is the shorter part. */
  lemma {:induction false} CutAtClosingBracket(pad: Bytes, v: Json, more: Bytes)
    requires IsText(pad, v)
    ensures FirstCut(pad + Render(v) + more, 0) == Some(|pad + Render(v)|) <==> |pad| < NonSpaces(Render(v))
  {
    var b, n := pad + Render(v) + more, |pad + Render(v)|;
    forall m: nat | m <= n
      ensures CutAt(b, m) <==> m == n && |pad| < NonSpaces(Render(v))
    {
      ContainerCuts(pad, v, more, m);
    }
    if |pad| < NonSpaces(Render(v)) {
      CutIsFirst(b, 0, n);
    } else {
      FirstCutIsLeast(b, 0);
    }
  }

  /** A container that has not closed yet is not cut at all. */
  lemma {:induction false} IncompleteIsKept(pad: Bytes, v: Json, n: nat)
    requires IsText(pad, v) && n < |pad + Render(v)|
    ensures FirstCut((pad + Render(v))[..n], 0) == None
  {
    var whole := pad + Render(v);
    var part := whole[..n];
    assert part + whole[n..] == whole && whole + [] == whole;
    forall m: nat | m <= |part|
      ensures !CutAt(part, m)
    {
      ContainerCuts(pad, v, [], m);
      CutPrefix(part, whole[n..], m);
    }
    NoCutIsNone(part, 0);
  }

  // ---------------------------------------------------------------- the first frame of a stream of texts

  /** As long as no text closes, there is no cut. */
  lemma {:induction false} NoneCloses(ps: seq<Padded>)
    requires AllTexts(ps) && forall j :: 0 <= j < |ps| ==> !Closes(ps, j)
    ensures var s := Run(FRESH, Stream(ps), |Stream(ps)|); IsWaiting(s) && s.spaces == Lead(ps)
    ensures forall m :: 0 <= m <= |Stream(ps)| ==> !CutAt(Stream(ps), m)
    decreases |ps|
  {
    if ps == [] {
      assert Stream(ps) == [];
    } else {
      var before, last := ps[..|ps| - 1], ps[|ps| - 1];
      NoneClosesBefore(ps, |ps| - 1, before);
      NoneCloses(before);
      TextAdds(before, last);
      assert !Closes(ps, |ps| - 1);
    }
  }

  lemma {:induction false} NoneClosesBefore(ps: seq<Padded>, k: nat, before: seq<Padded>)
    requires k <= |ps| && before == ps[..k] && forall j :: 0 <= j < k ==> !Closes(ps, j)
    ensures forall j :: 0 <= j < |before| ==> !Closes(before, j)
  {
    forall j | 0 <= j < |before|
      ensures !Closes(before, j)
    {
      assert before[..j] == ps[..j];
      assert !Closes(ps, j);
    }
  }

  lemma {:induction false} TextAdds(before: seq<Padded>, last: Padded)
    requires AllTexts(before) && IsText(last.pad, last.value)
    requires var s := Run(FRESH, Stream(before), |Stream(before)|); IsWaiting(s) && s.spaces == Lead(before)
    requires forall m :: 0 <= m <= |Stream(before)| ==> !CutAt(Stream(before), m)
    ensures var b := Stream(before) + last.Bytes();
            var closes := Lead(before) + |last.pad| < NonSpaces(Render(last.value));
            && (forall m :: 0 <= m <= |b| ==> (CutAt(b, m) <==> m == |b| && closes))
            && (!closes ==> IsWaiting(Run(FRESH, b, |b|)))
            && Run(FRESH, b, |b|).spaces == Lead(before) + |last.pad| + Spaces(Render(last.value))
  {
    hide Run, IsCut, Render, Spaces, NonSpaces, IsWaiting, Lead, Stream;
    var a, t := Stream(before), last.Bytes();
    var s := Run(FRESH, a, |a|);
    TextIsLong(last);
    forall m | 0 <= m <= |a + t|
      ensures CutAt(a + t, m) <==> m == |a + t| && Lead(before) + |last.pad| < NonSpaces(Render(last.value))
    {
      if m <= |a| {
        CutPrefix(a, t, m);
      } else {
        RunConcat(FRESH, a, t, m - |a|);
        TextScan(s, last, m - |a|);
      }
    }
    RunConcat(FRESH, a, t, |t|);
    TextScan(s, last, |t|);
  }

  lemma {:induction false} TextIsLong(p: Padded)
    requires IsText(p.pad, p.value)
    ensures |p.Bytes()| >= 2 && |Render(p.value)| >= 2
  {
    RenderIsWrapped(p.value);
  }

  /** The first frame of a stream of texts ends with the first text that closes, whatever follows. */
  lemma {:induction false} FirstFrame(ps: seq<Padded>, more: Bytes)
    requires AllTexts(ps) && FirstClosing(ps, 0) < |ps|
    ensures FirstCut(Stream(ps[..FirstClosing(ps, 0) + 1]) + more, 0) == Some(|Stream(ps[..FirstClosing(ps, 0) + 1])|)
  {
    hide Run, Stream, Lead, CutAt;
    var k := FirstClosing(ps, 0);
    var before, b := ps[..k], Stream(ps[..k + 1]);
    NoneClosesBefore(ps, k, before);
    NoneCloses(before);
    TextAdds(before, ps[k]);
    assert ps[..k + 1][..k] == before;
    assert b == Stream(before) + ps[k].Bytes() by {
      StreamStep(ps, k);
    }
    forall m: nat | m <= |b|
      ensures CutAt(b + more, m) <==> m == |b|
    {
      CutPrefix(b, more, m);
    }
    CutIsFirst(b + more, 0, |b|);
  }

  lemma {:induction false} StreamStep(ps: seq<Padded>, k: nat)
    requires k < |ps|
    ensures Stream(ps[..k + 1]) == Stream(ps[..k]) + ps[k].Bytes()
  {
    assert ps[..k + 1][..k] == ps[..k];
  }

  /** Whitespace, or the start of a text. */
  ghost predicate IsUnfinished(tail: Bytes) {
    IsPad(tail) || exists p: Padded, n: nat :: IsPartOf(tail, p, n)
  }

  ghost predicate IsPartOf(tail: Bytes, p: Padded, n: nat) {
    IsText(p.pad, p.value) && n < |p.Bytes()| && tail == p.Bytes()[..n]
  }

  /** Texts of which none closes, and an unfinished one behind them, are held back. */
  lemma {:induction false} UnfinishedIsKept(ps: seq<Padded>, tail: Bytes)
    requires AllTexts(ps) && FirstClosing(ps, 0) == |ps| && IsUnfinished(tail)
    ensures FirstCut(Stream(ps) + tail, 0) == None
  {
    hide Run, Stream, Lead;
    var a := Stream(ps);
    NoneCloses(ps);
    var s := Run(FRESH, a, |a|);
    forall m: nat | m <= |a + tail|
      ensures !CutAt(a + tail, m)
    {
      if m <= |a| {
        CutPrefix(a, tail, m);
      } else {
        RunConcat(FRESH, a, tail, m - |a|);
        NoCutInTail(s, tail, m - |a|);
      }
    }
    NoCutIsNone(a + tail, 0);
  }

  lemma {:induction false} NoCutInTail(s: Scan, tail: Bytes, m: nat)
    requires IsWaiting(s) && IsUnfinished(tail) && m <= |tail|
    ensures !IsCut(Run(s, tail, m))
  {
    if IsPad(tail) {
      PadScan(s, tail, m);
    } else {
      var p: Padded, n: nat :| IsPartOf(tail, p, n);
      TextScan(s, p, m);
      RunPrefix(s, tail, p.Bytes()[n..], m);
      assert tail + p.Bytes()[n..] == p.Bytes();
    }
  }

  // ---------------------------------------------------------------- the frames of a stream of texts

  lemma {:induction false} PadIsValid(w: Bytes, t: Bytes)
    requires IsPad(w)
    ensures Utf8.Valid(w + t) <==> Utf8.Valid(t)
  {
    Utf8.AsciiIsValid(w);
    if Utf8.Valid(t) {
      Utf8.ValidConcat(w, t);
    }
    if Utf8.Valid(w + t) {
      Utf8.ValidBehindAscii(w, t);
    }
  }

  lemma {:induction false} StreamIsValid(ps: seq<Padded>)
    requires AllTexts(ps) && AllValid(ps)
    ensures Utf8.Valid(Stream(ps))
    decreases |ps|
  {
    if ps != [] {
      var last := ps[|ps| - 1];
      StreamIsValid(ps[..|ps| - 1]);
      PadIsValid(last.pad, Render(last.value));
      Utf8.ValidConcat(Stream(ps[..|ps| - 1]), last.Bytes());
    }
  }

  /** Any list of texts comes out as these frames: a text that does not close is joined with those behind it. */
  lemma {:induction false} JoinedFrames(ps: seq<Padded>, tail: Bytes)
    requires AllTexts(ps) && AllValid(ps) && IsUnfinished(tail)
    ensures Drain(Empty, Stream(ps) + tail) == Drained(Frames(ps), Stream(HeldBack(ps)) + tail, true)
    decreases |ps|
  {
    hide Stream, FirstCut, Utf8.Valid, Closes, IsUnfinished, IsText;
    var k := FirstClosing(ps, 0);
    if k == |ps| {
      UnfinishedIsKept(ps, tail);
    } else {
      var first, behind := ps[..k + 1], ps[k + 1..];
      assert ps == first + behind;
      StreamConcat(first, behind);
      var b := Stream(first) + (Stream(behind) + tail);
      assert Stream(ps) + tail == b;
      FirstFrame(ps, Stream(behind) + tail);
      StreamIsValid(first);
      assert b[..|Stream(first)|] == Stream(first) && b[|Stream(first)|..] == Stream(behind) + tail;
      assert DecodeSpec(Empty, b) == (Frame(Stream(first)), Stream(behind) + tail);
      JoinedFrames(behind, tail);
    }
  }

  /** The frames are the texts one by one exactly when all have less whitespace in front than other bytes. */
  lemma {:induction false} FramesAreTexts(ps: seq<Padded>)
    requires AllTexts(ps)
    ensures Frames(ps) == Written(ps) <==> forall i :: 0 <= i < |ps| ==> IsPrompt(ps[i])
    ensures Frames(ps) == Written(ps) ==> HeldBack(ps) == []
    decreases |ps|
  {
    if ps != [] {
      var k, behind := FirstClosing(ps, 0), ps[1..];
      assert ps[..0] == [] && (Closes(ps, 0) <==> IsPrompt(ps[0]));
      assert Written(ps) == [ps[0].Bytes()] + Written(behind);
      FramesAreTexts(behind);
      if k == 0 {
        assert ps[..1] == [ps[0]];
        StreamOne(ps[0]);
        assert Frames(ps) == [ps[0].Bytes()] + Frames(behind);
        assert Frames(ps) == Written(ps) <==> Frames(behind) == Written(behind) by {
          if Frames(ps) == Written(ps) {
            assert Frames(ps)[1..] == Written(ps)[1..];
            assert Frames(ps)[1..] == Frames(behind) && Written(ps)[1..] == Written(behind);
          }
        }
      } else {
        assert !IsPrompt(ps[0]);
        if k < |ps| {
          JoinedIsLonger(ps, k + 1);
          assert Frames(ps)[0] != Written(ps)[0];
        }
      }
    }
  }

  lemma {:induction false} JoinedIsLonger(ps: seq<Padded>, n: nat)
    requires AllTexts(ps) && 1 < n <= |ps|
    ensures |Stream(ps[..n])| > |ps[0].Bytes()|
    decreases n
  {
    StreamStep(ps, n - 1);
    TextIsLong(ps[n - 1]);
    if n > 2 {
      JoinedIsLonger(ps, n - 1);
    } else {
      assert ps[..1] == [ps[0]];
      StreamOne(ps[0]);
    }
  }

  lemma {:induction false} DrainedAreValid(sep: Separator, b: Bytes)
    ensures forall i :: 0 <= i < |Drain(sep, b).frames| ==> Utf8.Valid(Drain(sep, b).frames[i])
    decreases |b|
  {
    var (now, rest) := DecodeSpec(sep, b);
    if now.Frame? {
      DrainedAreValid(sep, rest);
      assert Drain(sep, b).frames == [now.bytes] + Drain(sep, rest).frames;
    }
  }

  lemma {:induction false} FedAreValid(sep: Separator, held: Bytes, chunks: seq<Bytes>)
    ensures forall i :: 0 <= i < |Feed(sep, held, chunks).0| ==> Utf8.Valid(Feed(sep, held, chunks).0[i])
    decreases |chunks|
  {
    if chunks != [] {
      var now := Drain(sep, held + chunks[0]);
      DrainedAreValid(sep, held + chunks[0]);
      FedAreValid(sep, now.rest, chunks[1..]);
    }
  }

  /** Written as valid UTF-8 (section 8.1 of RFC 8259), with less whitespace in front than other bytes inside. */
  predicate Sendable(p: Padded) {
    Utf8.Valid(Render(p.value)) && IsPrompt(p)
  }

  /**
   The framing round trip: whatever the chunks, and whether the stream ends in whitespace or inside a text, the
   texts come back one by one exactly when all are sendable.
   */
  lemma {:induction false} RoundTripInChunks(ps: seq<Padded>, tail: Bytes, chunks: seq<Bytes>)
    requires AllTexts(ps) && IsUnfinished(tail) && Flatten(chunks) == Stream(ps) + tail
    ensures Feed(Empty, [], chunks) == (Written(ps), tail) <==> forall i :: 0 <= i < |ps| ==> Sendable(ps[i])
  {
    if Feed(Empty, [], chunks) == (Written(ps), tail) {
      FedAreValid(Empty, [], chunks);
      forall i | 0 <= i < |ps|
        ensures Utf8.Valid(Render(ps[i].value))
      {
        assert Utf8.Valid(Written(ps)[i]);
        PadIsValid(ps[i].pad, Render(ps[i].value));
      }
    }
    if AllValid(ps) {
      JoinedFrames(ps, tail);
      CleanDrainInChunks(Empty, Flatten(chunks), chunks);
      FramesAreTexts(ps);
      assert HeldBack(ps) == [] ==> Stream(HeldBack(ps)) + tail == tail;
      assert Feed(Empty, [], chunks) == (Written(ps), tail) <==> Frames(ps) == Written(ps);
    }
  }

  // ---------------------------------------------------------------- the encoder against the decoders

  function EncodeAll(sep: Separator, msgs: seq<Bytes>): Bytes {
    if msgs == [] then [] else EncodeSpec(sep, msgs[0]) + EncodeAll(sep, msgs[1..])
  }

  lemma {:induction false} FramesAreLines(c: byte, b: Bytes)
    ensures forall i :: 0 <= i < |Drain(Byte(c), b).frames| ==>
              c !in Drain(Byte(c), b).frames[i] && Utf8.Valid(Drain(Byte(c), b).frames[i])
    decreases |b|
  {
    var (now, rest) := DecodeSpec(Byte(c), b);
    if now.Frame? {
      FramesAreLines(c, rest);
      assert Drain(Byte(c), b).frames == [now.bytes] + Drain(Byte(c), rest).frames;
    }
  }

  lemma {:induction false} LinesComeBack(c: byte, msgs: seq<Bytes>)
    requires forall i :: 0 <= i < |msgs| ==> c !in msgs[i] && Utf8.Valid(msgs[i])
    ensures Drain(Byte(c), EncodeAll(Byte(c), msgs)) == Drained(msgs, [], true)
    decreases |msgs|
  {
    if msgs != [] {
      var m, later := msgs[0], EncodeAll(Byte(c), msgs[1..]);
      var b := m + [c] + later;
      assert b[..|m|] == m && b[|m|] == c && b[|m| + 1..] == later;
      IndexIsFirst(b, c, |m|);
      assert DecodeSpec(Byte(c), b) == (Frame(m), later);
      LinesComeBack(c, msgs[1..]);
    }
  }

  /** Separated messages come back exactly when none holds the separator (and each is a string, so UTF-8). */
  lemma {:induction false} EncoderAgainstLines(c: byte, msgs: seq<Bytes>)
    ensures Drain(Byte(c), EncodeAll(Byte(c), msgs)) == Drained(msgs, [], true) <==>
              forall i :: 0 <= i < |msgs| ==> c !in msgs[i] && Utf8.Valid(msgs[i])
  {
    FramesAreLines(c, EncodeAll(Byte(c), msgs));
    if forall i :: 0 <= i < |msgs| ==> c !in msgs[i] && Utf8.Valid(msgs[i]) {
      LinesComeBack(c, msgs);
    }
  }

  function Renders(vs: seq<Json>): seq<Bytes> {
    seq(|vs|, i requires 0 <= i < |vs| => Render(vs[i]))
  }

  /** Each value with the separator of the message before it as its whitespace. */
  function Shifted(pad: Bytes, vs: seq<Json>): seq<Padded> {
    seq(|vs|, i requires 0 <= i < |vs| => Padded(if i == 0 then pad else [0x0A], vs[i]))
  }

  lemma {:induction false} EncodedIsShifted(pad: Bytes, vs: seq<Json>)
    requires vs != []
    ensures pad + EncodeAll(Byte(0x0A), Renders(vs)) == Flatten(Written(Shifted(pad, vs))) + [0x0A]
    decreases |vs|
  {
    var first := Render(vs[0]);
    var shifted := Written(Shifted(pad, vs));
    assert shifted[0] == pad + first;
    assert Renders(vs)[1..] == Renders(vs[1..]);
    if |vs| == 1 {
      assert shifted[1..] == [];
      assert Flatten(shifted) == pad + first;
      assert EncodeAll(Byte(0x0A), Renders(vs)) == first + [0x0A];
    } else {
      EncodedIsShifted([0x0A], vs[1..]);
      assert shifted[1..] == Written(Shifted([0x0A], vs[1..]));
      var later := EncodeAll(Byte(0x0A), Renders(vs[1..]));
      assert pad + (first + [0x0A] + later) == (pad + first) + ([0x0A] + later);
      assert Flatten(shifted) + [0x0A] == (pad + first) + (Flatten(shifted[1..]) + [0x0A]);
    }
  }

  /** A container has its two brackets besides whitespace. */
  lemma {:induction false} TwoNonSpaces(v: Json)
    requires IsContainer(v)
    ensures NonSpaces(Render(v)) >= 2
  {
    RenderIsWrapped(v);
  }

  /** The encoder's separators reach the scanning decoder as one byte of whitespace before the next value. */
  lemma {:induction false} EncoderAgainstScanner(vs: seq<Json>)
    requires vs != []
    requires forall i :: 0 <= i < |vs| ==> Ok(vs[i]) && IsContainer(vs[i]) && Utf8.Valid(Render(vs[i]))
    ensures Drain(Empty, EncodeAll(Byte(0x0A), Renders(vs))) == Drained(Written(Shifted([], vs)), [0x0A], true)
  {
    var ps := Shifted([], vs);
    forall i | 0 <= i < |ps|
      ensures IsPrompt(ps[i])
    {
      TwoNonSpaces(vs[i]);
    }
    JoinedFrames(ps, [0x0A]);
    FramesAreTexts(ps);
    EncodedIsShifted([], vs);
    StreamIsWritten(ps);
    assert Stream([]) + [0x0A] == [0x0A];
    assert [] + EncodeAll(Byte(0x0A), Renders(vs)) == EncodeAll(Byte(0x0A), Renders(vs));
  }

  lemma {:induction false} ScanNext(b: Bytes, n: nat, s: Scan, t: Scan)
    requires n < |b| && Run(FRESH, b, n) == s && Step(s, b[n]) == t
    ensures Run(FRESH, b, n + 1) == t && (CutAt(b, n + 1) <==> IsCut(t))
  {
  }

  /** Two blanks in front of {} are too many: it is held back, and comes out as one frame with the text behind it. */
  lemma {:induction false} TwoTextsInOneFrame(b: Bytes)
    requires b == [0x20, 0x20, 0x7B, 0x7D, 0x5B, 0x31, 0x5D]
    ensures FirstCut(b[..4], 0) == None && FirstCut(b, 0) == Some(7)
  {
    hide CutAt, FirstCut, Run;
    ScanNone(b);
    ScanNext(b, 0, FRESH, Scan(1, 0, false, false, 0, 1));
    ScanNext(b, 1, Scan(1, 0, false, false, 0, 1), Scan(2, 0, false, false, 0, 2));
    ScanNext(b, 2, Scan(2, 0, false, false, 0, 2), Scan(3, 1, false, false, 2, 2));
    ScanNext(b, 3, Scan(3, 1, false, false, 2, 2), Scan(4, 0, false, false, 2, 2));
    ScanNext(b, 4, Scan(4, 0, false, false, 2, 2), Scan(5, 1, false, false, 4, 2));
    ScanNext(b, 5, Scan(5, 1, false, false, 4, 2), Scan(6, 1, false, false, 4, 2));
    ScanNext(b, 6, Scan(6, 1, false, false, 4, 2), Scan(7, 0, false, false, 4, 2));
    CutIsFirst(b, 0, 7);
    FirstCutStable(b[..4], b[4..], 0);
    assert b[..4] + b[4..] == b;
  }

  /** A text with a bracket, an escaped quote and a tab inside a string is cut behind its last byte. */
  lemma {:induction false} StringHidesBrackets(b: Bytes, more: Bytes)
    requires b == [0x5B, 0x22, 0x5D, 0x5C, 0x22, 0x09, 0x22, 0x5D]
    ensures FirstCut(b + more, 0) == Some(8)
  {
    hide CutAt, FirstCut, Run;
    ScanNone(b);
    ScanNext(b, 0, FRESH, Scan(1, 1, false, false, 0, 0));
    ScanNext(b, 1, Scan(1, 1, false, false, 0, 0), Scan(2, 1, true, false, 0, 0));
    ScanNext(b, 2, Scan(2, 1, true, false, 0, 0), Scan(3, 1, true, false, 0, 0));
    ScanNext(b, 3, Scan(3, 1, true, false, 0, 0), Scan(4, 1, true, true, 0, 0));
    ScanNext(b, 4, Scan(4, 1, true, true, 0, 0), Scan(5, 1, true, false, 0, 0));
    ScanNext(b, 5, Scan(5, 1, true, false, 0, 0), Scan(6, 1, true, false, 0, 1));
    ScanNext(b, 6, Scan(6, 1, true, false, 0, 1), Scan(7, 1, false, false, 0, 1));
    ScanNext(b, 7, Scan(7, 1, false, false, 0, 1), Scan(8, 0, false, false, 0, 1));
    CutIsFirst(b, 0, 8);
    FirstCutStable(b, more, 0);
  }

  // ---------------------------------------------------------------- bytes that are no container

  lemma {:induction false} FlatScan(t: Bytes, n: nat)
    requires ScalarOk(t) && n <= |t|
    ensures Run(FRESH, t, n) == Scan(n, 0, false, false, 0, 0)
  {
    if n > 0 {
      FlatScan(t, n - 1);
    }
  }

  /** A number or literal outside a container is cut behind its second byte, and kept if it has only one. */
  lemma {:induction false} BareScalarIsCut(t: Bytes, more: Bytes)
    requires ScalarOk(t)
    ensures |t| >= 2 ==> FirstCut(t + more, 0) == Some(2)
    ensures |t| < 2 ==> FirstCut(t, 0) == None
  {
    forall m: nat | m <= |t|
      ensures CutAt(t, m) <==> m >= 2
    {
      FlatScan(t, m);
    }
    if |t| >= 2 {
      CutIsFirst(t, 0, 2);
      FirstCutStable(t, more, 0);
    } else {
      NoCutIsNone(t, 0);
    }
  }

  /** A stray closing bracket is balanced by the next opening one, so the text behind it is torn apart. */
  lemma {:induction false} StrayCloseTearsText(b: Bytes, more: Bytes)
    requires b == [0x5D, 0x5B]
    ensures FirstCut(b + more, 0) == Some(2)
  {
    hide CutAt, FirstCut, Run;
    ScanNone(b);
    ScanNext(b, 0, FRESH, Scan(1, -1, false, false, 0, 0));
    ScanNext(b, 1, Scan(1, -1, false, false, 0, 0), Scan(2, 0, false, false, 0, 0));
    CutIsFirst(b, 0, 2);
    FirstCutStable(b, more, 0);
  }
}
