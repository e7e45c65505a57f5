/**
 JSON texts (RFC 8259) as trees with their insignificant whitespace, in the bytes of the standard, and what the
 scanning decoder does with them.
 */
module JsonText {
  import opened Wrappers
  import opened StreamCodec
  import opened Framing

  /** A character of a string: as it is, behind a backslash, or \u with four hexadecimal digits (section 7). */
  datatype Letter = Plain(b: byte) | Escape(b: byte) | Unicode(h0: byte, h1: byte, h2: byte, h3: byte)

  /** Scalars are numbers and the three literal names. Pads are runs of whitespace (section 2). */
  datatype Json =
    | Scalar(text: Bytes)
    | Text(letters: seq<Letter>)
    | Array(pad: Bytes, elems: seq<Elem>)
    | Object(pad: Bytes, members: seq<Member>)

  datatype Elem = Elem(before: Bytes, value: Json, after: Bytes)

  datatype Member = Member(before: Bytes, key: seq<Letter>, after: Bytes, elem: Elem)

  /** Insignificant whitespace (section 2): blank, tab, line feed, carriage return. */
  predicate IsBlank(b: byte) {
    b == 0x20 || b == 0x09 || b == 0x0A || b == 0x0D
  }

  predicate IsBracket(b: byte) {
    b == 0x5B || b == 0x5D || b == 0x7B || b == 0x7D
  }

  predicate IsPad(t: Bytes) {
    forall i :: 0 <= i < |t| ==> IsBlank(t[i])
  }

  predicate IsHex(b: byte) {
    0x30 <= b <= 0x39 || 0x41 <= b <= 0x46 || 0x61 <= b <= 0x66
  }

  predicate LetterOk(c: Letter) {
    match c
    case Plain(b) => b >= 0x20 && b != 0x22 && b != 0x5C
    case Escape(b) => b in [0x22, 0x5C, 0x2F, 0x62, 0x66, 0x6E, 0x72, 0x74]
    case Unicode(h0, h1, h2, h3) => IsHex(h0) && IsHex(h1) && IsHex(h2) && IsHex(h3)
  }

  predicate LettersOk(cs: seq<Letter>) {
    forall i :: 0 <= i < |cs| ==> LetterOk(cs[i])
  }

  /** No byte of a scalar is a bracket, a quote or whitespace. */
  predicate ScalarOk(t: Bytes) {
    forall i :: 0 <= i < |t| ==> !IsBracket(t[i]) && t[i] != 0x22 && !IsBlank(t[i])
  }

  predicate Ok(v: Json)
    decreases v, 1
  {
    match v
    case Scalar(t) => ScalarOk(t)
    case Text(cs) => LettersOk(cs)
    case Array(pad, es) => IsPad(pad) && ElemsOk(es)
    case Object(pad, ms) => IsPad(pad) && MembersOk(ms)
  }

  predicate ElemOk(e: Elem)
    decreases e, 2
  {
    IsPad(e.before) && Ok(e.value) && IsPad(e.after)
  }

  predicate KeyOk(m: Member) {
    IsPad(m.before) && LettersOk(m.key) && IsPad(m.after)
  }

  predicate ElemsOk(es: seq<Elem>)
    decreases es, 0
  {
    es != [] ==>
      ElemOk(es[0]) && ElemsOk(es[1..])
  }

  predicate MembersOk(ms: seq<Member>)
    decreases ms, 0
  {
    ms != [] ==>
      KeyOk(ms[0]) && ElemOk(ms[0].elem) && MembersOk(ms[1..])
  }

  function RenderLetter(c: Letter): Bytes {
    match c
    case Plain(b) => [b]
    case Escape(b) => [0x5C, b]
    case Unicode(h0, h1, h2, h3) => [0x5C, 0x75, h0, h1, h2, h3]
  }

  function RenderLetters(cs: seq<Letter>): Bytes {
    if cs == [] then [] else RenderLetter(cs[0]) + RenderLetters(cs[1..])
  }

  function RenderText(cs: seq<Letter>): Bytes {
    [0x22] + RenderLetters(cs) + [0x22]
  }

  function Separated(last: bool): Bytes {
    if last then [] else [0x2C]
  }

  function Render(v: Json): Bytes
    decreases v, 1
  {
    match v
    case Scalar(t) => t
    case Text(cs) => RenderText(cs)
    case Array(pad, es) => [0x5B] + (pad + RenderElems(es)) + [0x5D]
    case Object(pad, ms) => [0x7B] + (pad + RenderMembers(ms)) + [0x7D]
  }

  function RenderElem(e: Elem): Bytes
    decreases e, 2
  {
    e.before + Render(e.value) + e.after
  }

  function RenderKey(m: Member): Bytes {
    m.before + RenderText(m.key) + m.after + [0x3A]
  }

  function RenderElems(es: seq<Elem>): Bytes
    decreases es, 0
  {
    if es == [] then []
    else RenderElem(es[0]) + Separated(|es| == 1) + RenderElems(es[1..])
  }

  function RenderMembers(ms: seq<Member>): Bytes
    decreases ms, 0
  {
    if ms == [] then []
    else RenderKey(ms[0]) + RenderElem(ms[0].elem) + Separated(|ms| == 1) + RenderMembers(ms[1..])
  }

  predicate IsContainer(v: Json) {
    v.Array? || v.Object?
  }

  /** How many whitespace bytes t has, those inside strings included. */
  function Spaces(t: Bytes): (n: nat)
    ensures n <= |t|
  {
    if t == [] then 0 else (if IsBlank(t[0]) then 1 else 0) + Spaces(t[1..])
  }

  lemma {:induction false} SpacesConcat(a: Bytes, b: Bytes)
    ensures Spaces(a + b) == Spaces(a) + Spaces(b)
  {
    if a == [] {
      assert a + b == b;
    } else {
      assert (a + b)[1..] == a[1..] + b;
      SpacesConcat(a[1..], b);
    }
  }

  // ---------------------------------------------------------------- text that leaves the scan as it was

  ghost predicate Above(s: Scan, t: Bytes, d: int) {
    forall m: nat {:trigger Run(s, t, m)} :: m <= |t| ==> Run(s, t, m).depth >= d
  }

  /** After t the scan is as before, t and its whitespace counted, and it was never shallower in between. */
  ghost predicate Held(s: Scan, t: Bytes) {
    && Run(s, t, |t|) == s.(idx := s.idx + |t|, spaces := s.spaces + Spaces(t))
    && Above(s, t, s.depth)
  }

  lemma {:induction false} RunConcat(s: Scan, a: Bytes, b: Bytes, n: nat)
    requires n <= |b|
    ensures Run(s, a + b, |a| + n) == Run(Run(s, a, |a|), b, n)
  {
    if n == 0 {
      RunPrefix(s, a, b, |a|);
    } else {
      RunConcat(s, a, b, n - 1);
    }
  }

  lemma {:induction false} AboveConcat(s: Scan, a: Bytes, b: Bytes, d: int)
    requires Above(s, a, d) && Above(Run(s, a, |a|), b, d)
    ensures Above(s, a + b, d)
  {
    forall m: nat | m <= |a + b|
      ensures Run(s, a + b, m).depth >= d
    {
      if m <= |a| {
        RunPrefix(s, a, b, m);
      } else {
        RunConcat(s, a, b, m - |a|);
      }
    }
  }

  lemma {:induction false} HeldConcat(s: Scan, a: Bytes, b: Bytes)
    requires Held(s, a) && Held(Run(s, a, |a|), b)
    ensures Held(s, a + b)
  {
    RunConcat(s, a, b, |b|);
    SpacesConcat(a, b);
    AboveConcat(s, a, b, s.depth);
  }

  lemma {:induction false} HeldByte(s: Scan, b: byte)
    requires !s.escaped && b != 0x22
    requires if s.inStr then b != 0x5C else !IsBracket(b)
    ensures Held(s, [b])
  {
    assert [b][1..] == [];
    assert Run(s, [b], 1) == Step(Run(s, [b], 0), b);
  }

  lemma {:induction false} HeldFlat(s: Scan, t: Bytes)
    requires !s.escaped && 0x22 !in t
    requires forall i :: 0 <= i < |t| ==> if s.inStr then t[i] != 0x5C else !IsBracket(t[i])
    ensures Held(s, t)
    decreases |t|
  {
    if t != [] {
      HeldByte(s, t[0]);
      HeldFlat(Run(s, [t[0]], 1), t[1..]);
      HeldConcat(s, [t[0]], t[1..]);
      assert [t[0]] + t[1..] == t;
    }
  }

  lemma {:induction false} HeldEscape(s: Scan, b: byte)
    requires s.inStr && !s.escaped && !IsBlank(b)
    ensures Held(s, [0x5C, b])
  {
    var t := [0x5C, b];
    assert Run(s, t, 1) == s.(idx := s.idx + 1, escaped := true);
    assert Run(s, t, 2) == s.(idx := s.idx + 2);
    assert t[1..] == [b] && [b][1..] == [];
    assert Spaces(t) == 0;
  }

  lemma {:induction false} HeldLetter(s: Scan, c: Letter)
    requires s.inStr && !s.escaped && LetterOk(c)
    ensures Held(s, RenderLetter(c))
  {
    match c
    case Plain(b) => HeldByte(s, b);
    case Escape(b) => HeldEscape(s, b);
    case Unicode(h0, h1, h2, h3) =>
      HeldEscape(s, 0x75);
      var digits := [h0, h1, h2, h3];
      HeldFlat(Run(s, [0x5C, 0x75], 2), digits);
      HeldConcat(s, [0x5C, 0x75], digits);
      assert [0x5C, 0x75] + digits == RenderLetter(c);
  }

  lemma {:induction false} HeldLetters(s: Scan, cs: seq<Letter>)
    requires s.inStr && !s.escaped && LettersOk(cs)
    ensures Held(s, RenderLetters(cs))
    decreases |cs|
  {
    if cs != [] {
      var first := RenderLetter(cs[0]);
      HeldLetter(s, cs[0]);
      HeldLetters(Run(s, first, |first|), cs[1..]);
      HeldConcat(s, first, RenderLetters(cs[1..]));
    }
  }

  /** Reading t takes the scan from s to r, never below depth d. */
  ghost predicate Leads(s: Scan, t: Bytes, r: Scan, d: int) {
    Run(s, t, |t|) == r && Above(s, t, d)
  }

  lemma {:induction false} LeadsConcat(s: Scan, a: Bytes, r: Scan, b: Bytes, q: Scan, d: int)
    requires Leads(s, a, r, d) && Leads(r, b, q, d)
    ensures Leads(s, a + b, q, d)
  {
    RunConcat(s, a, b, |b|);
    AboveConcat(s, a, b, d);
  }

  lemma {:induction false} LeadsByte(s: Scan, b: byte, d: int)
    requires s.depth >= d && Step(s, b).depth >= d
    ensures Leads(s, [b], Step(s, b), d)
  {
    assert Run(s, [b], 1) == Step(Run(s, [b], 0), b);
  }

  function Past(s: Scan, a: Bytes): Scan {
    s.(idx := s.idx + |a|, spaces := s.spaces + Spaces(a))
  }

  lemma {:induction false} SpacesWrapped(open: byte, inner: Bytes, close: byte)
    requires !IsBlank(open) && !IsBlank(close)
    ensures Spaces([open] + inner + [close]) == Spaces(inner)
  {
    SpacesConcat([open], inner);
    SpacesConcat([open] + inner, [close]);
    assert [open][1..] == [] && [close][1..] == [];
  }

  /** A pair of delimiters around text that is held leads where the closing one does. */
  lemma {:induction false} WrappedLeads(s: Scan, open: byte, inner: Bytes, close: byte, d: int)
    requires s.depth >= d && Step(s, open).depth >= d && Held(Step(s, open), inner)
    requires Step(Past(Step(s, open), inner), close).depth >= d
    ensures Leads(s, [open] + inner + [close], Step(Past(Step(s, open), inner), close), d)
  {
    var s1 := Step(s, open);
    LeadsByte(s, open, d);
    LeadsConcat(s, [open], s1, inner, Past(s1, inner), d);
    LeadsByte(Past(s1, inner), close, d);
    LeadsConcat(s, [open] + inner, Past(s1, inner), [close], Step(Past(s1, inner), close), d);
  }

  predicate Calm(s: Scan) {
    s.depth >= 1 && !s.inStr && !s.escaped
  }

  lemma {:induction false} HeldText(s: Scan, cs: seq<Letter>)
    requires Calm(s) && LettersOk(cs)
    ensures Held(s, RenderText(cs))
  {
    HeldLetters(Step(s, 0x22), cs);
    WrappedLeads(s, 0x22, RenderLetters(cs), 0x22, s.depth);
    SpacesWrapped(0x22, RenderLetters(cs), 0x22);
  }

  lemma {:induction false} HeldValue(s: Scan, v: Json)
    requires Calm(s) && Ok(v)
    ensures Held(s, Render(v))
    decreases v, 1
  {
    match v
    case Scalar(t) => HeldFlat(s, t);
    case Text(cs) => HeldText(s, cs);
    case Array(pad, es) =>
      HeldBody(Step(s, 0x5B), v);
      WrappedLeads(s, 0x5B, Body(v), 0x5D, s.depth);
      SpacesWrapped(0x5B, Body(v), 0x5D);
    case Object(pad, ms) =>
      HeldBody(Step(s, 0x7B), v);
      WrappedLeads(s, 0x7B, Body(v), 0x7D, s.depth);
      SpacesWrapped(0x7B, Body(v), 0x7D);
  }

  function Body(v: Json): Bytes
    requires IsContainer(v)
  {
    match v
    case Array(pad, es) => pad + RenderElems(es)
    case Object(pad, ms) => pad + RenderMembers(ms)
  }

  lemma {:induction false} HeldBody(s: Scan, v: Json)
    requires Calm(s) && Ok(v) && IsContainer(v)
    ensures Held(s, Body(v))
    decreases v, 0
  {
    HeldFlat(s, v.pad);
    match v
    case Array(pad, es) =>
      HeldElems(Past(s, pad), es);
      HeldThen(s, pad, RenderElems(es));
    case Object(pad, ms) =>
      HeldMembers(Past(s, pad), ms);
      HeldThen(s, pad, RenderMembers(ms));
  }

  /** One more held piece behind a held prefix. */
  lemma {:induction false} HeldThen(s: Scan, a: Bytes, b: Bytes)
    requires Held(s, a) && Held(Past(s, a), b)
    ensures Held(s, a + b)
  {
    HeldConcat(s, a, b);
  }

  lemma {:induction false} HeldElem(s: Scan, e: Elem)
    requires Calm(s) && ElemOk(e)
    ensures Held(s, RenderElem(e))
    decreases e, 2
  {
    HeldFlat(s, e.before);
    HeldValue(Past(s, e.before), e.value);
    HeldThen(s, e.before, Render(e.value));
    var a := e.before + Render(e.value);
    HeldFlat(Past(s, a), e.after);
    HeldThen(s, a, e.after);
  }

  lemma {:induction false} HeldElems(s: Scan, es: seq<Elem>)
    requires Calm(s) && ElemsOk(es)
    ensures Held(s, RenderElems(es))
    decreases es, 0
  {
    if es != [] {
      HeldElem(s, es[0]);
      HeldTail(s, RenderElem(es[0]), |es| == 1);
      var a := RenderElem(es[0]) + Separated(|es| == 1);
      HeldElems(Past(s, a), es[1..]);
      HeldThen(s, a, RenderElems(es[1..]));
    }
  }

  lemma {:induction false} HeldTail(s: Scan, a: Bytes, last: bool)
    requires Calm(s) && Held(s, a)
    ensures Held(s, a + Separated(last))
  {
    HeldFlat(Past(s, a), Separated(last));
    HeldThen(s, a, Separated(last));
  }

  lemma {:induction false} HeldMembers(s: Scan, ms: seq<Member>)
    requires Calm(s) && MembersOk(ms)
    ensures Held(s, RenderMembers(ms))
    decreases ms, 0
  {
    if ms != [] {
      HeldKey(s, ms[0]);
      var a := RenderKey(ms[0]);
      HeldElem(Past(s, a), ms[0].elem);
      HeldThen(s, a, RenderElem(ms[0].elem));
      HeldTail(s, a + RenderElem(ms[0].elem), |ms| == 1);
      var b := a + RenderElem(ms[0].elem) + Separated(|ms| == 1);
      HeldMembers(Past(s, b), ms[1..]);
      HeldThen(s, b, RenderMembers(ms[1..]));
    }
  }

  lemma {:induction false} HeldKey(s: Scan, m: Member)
    requires Calm(s) && KeyOk(m)
    ensures Held(s, RenderKey(m))
  {
    HeldFlat(s, m.before);
    HeldText(Past(s, m.before), m.key);
    HeldThen(s, m.before, RenderText(m.key));
    var a := m.before + RenderText(m.key);
    HeldFlat(Past(s, a), m.after);
    HeldThen(s, a, m.after);
    HeldByte(Past(s, a + m.after), 0x3A);
    HeldThen(s, a + m.after, [0x3A]);
  }
}
