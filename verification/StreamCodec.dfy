/**
 The stream codec of the subscription client (ckb-testkit/src/subscribe/mod.rs, module stream_codec).
 A decoder cuts a growing byte buffer into frames, either at a separator byte or by
 scanning brackets, strings and escapes until a JSON text closes.
 */
module StreamCodec {
  import opened Wrappers
  import Utf8

  datatype Separator = Empty | Byte(value: byte)

  const NEWLINE: byte := 0x0A
  const QUOTE: byte := 0x22
  const BACKSLASH: byte := 0x5C

  predicate IsWhitespace(b: byte) {
    b == 0x0D || b == 0x0A || b == 0x20 || b == 0x09
  }

  predicate IsOpen(b: byte) {
    b == 0x7B || b == 0x5B
  }

  predicate IsClose(b: byte) {
    b == 0x7D || b == 0x5D
  }

  // ---------------------------------------------------------------- the scanner

  /** The five locals of the scan, after `idx` bytes. */
  datatype Scan = Scan(idx: nat, depth: int, inStr: bool, escaped: bool, start: nat, spaces: nat)

  const FRESH := Scan(0, 0, false, false, 0, 0)

  function Step(s: Scan, b: byte): Scan {
    var brackets :=
      if IsOpen(b) && !s.inStr then
        s.(start := if s.depth == 0 then s.idx else s.start, depth := s.depth + 1)
      else if IsClose(b) && !s.inStr then s.(depth := s.depth - 1)
      else if b == QUOTE && !s.escaped then s.(inStr := !s.inStr)
      else if IsWhitespace(b) then s.(spaces := s.spaces + 1)
      else s;
    brackets.(escaped := b == BACKSLASH && !s.escaped && brackets.inStr, idx := s.idx + 1)
  }

  /** The test made after each byte: does the buffer split just behind it? */
  predicate IsCut(s: Scan) {
    s.idx > 0 && s.depth == 0 && s.idx - 1 != s.start && s.idx - s.start > s.spaces
  }

  /** The scan of the first n bytes of t, started in state s. */
  function Run(s: Scan, t: Bytes, n: nat): (r: Scan)
    requires n <= |t|
    ensures r.idx == s.idx + n
  {
    if n == 0 then s else Step(Run(s, t, n - 1), t[n - 1])
  }

  predicate CutAt(b: Bytes, n: nat)
    requires n <= |b|
  {
    IsCut(Run(FRESH, b, n))
  }

  lemma {:induction false} ScanNone(b: Bytes)
    ensures Run(FRESH, b, 0) == FRESH && !CutAt(b, 0)
  {
  }

  lemma {:induction false} ScanOne(b: Bytes, n: nat)
    requires n < |b|
    ensures Run(FRESH, b, n + 1) == Step(Run(FRESH, b, n), b[n])
    ensures CutAt(b, n + 1) <==> IsCut(Run(FRESH, b, n + 1))
  {
  }

  /** The least cut of b that is not below n. */
  function FirstCut(b: Bytes, n: nat): (r: Option<nat>)
    requires n <= |b|
    ensures r.Some? ==> n <= r.value <= |b|
    decreases |b| - n
  {
    if CutAt(b, n) then Some(n)
    else if n == |b| then None
    else FirstCut(b, n + 1)
  }

  // ---------------------------------------------------------------- one call of the decoder

  /** Where the next frame ends and where the bytes behind it start. */
  datatype Split = Split(end: nat, next: nat)

  function IndexOf(b: Bytes, c: byte): (r: Option<nat>)
    ensures r.Some? ==> r.value < |b| && b[r.value] == c && c !in b[..r.value]
    ensures r.None? ==> c !in b
  {
    if b == [] then None
    else if b[0] == c then Some(0)
    else match IndexOf(b[1..], c)
      case None => None
      case Some(i) => Some(i + 1)
  }

  function Boundary(sep: Separator, b: Bytes): (r: Option<Split>)
    ensures r.Some? ==> r.value.end <= r.value.next <= |b| && 0 < r.value.next
  {
    match sep
    case Byte(c) => (match IndexOf(b, c) case None => None case Some(i) => Some(Split(i, i + 1)))
    case Empty => (match FirstCut(b, 0) case None => None case Some(n) => Some(Split(n, n)))
  }

  /** Ok(Some(frame)), Ok(None) and Err of the decoder. */
  datatype Decoded = Frame(bytes: Bytes) | NotReady | InvalidUtf8

  /** The result of one call, and the buffer it leaves. */
  function DecodeSpec(sep: Separator, b: Bytes): (Decoded, Bytes) {
    match Boundary(sep, b)
    case None => (NotReady, b)
    case Some(at) =>
      var frame := b[..at.end];
      (if Utf8.Valid(frame) then Frame(frame) else if sep.Empty? then NotReady else InvalidUtf8,
       b[at.next..])
  }

  /** A byte buffer that is split in place. */
  class Buffer {
    var data: Bytes

    constructor (bytes: Bytes)
      ensures data == bytes
    {
      data := bytes;
    }

    method SplitTo(n: nat) returns (head: Bytes)
      requires n <= |data|
      modifies this
      ensures head == old(data)[..n] && data == old(data)[n..]
    {
      head, data := data[..n], data[n..];
    }

    method Extend(bytes: Bytes)
      modifies this
      ensures data == old(data) + bytes
    {
      data := data + bytes;
    }
  }

  class Codec {
    const incoming: Separator
    const outgoing: Separator

    constructor (incoming: Separator, outgoing: Separator)
      ensures this.incoming == incoming && this.outgoing == outgoing
    {
      this.incoming, this.outgoing := incoming, outgoing;
    }

    constructor StreamIncoming()
      ensures incoming == Empty && outgoing == Byte(0x0A)
    {
      incoming, outgoing := Empty, Byte(NEWLINE);
    }

    method Decode(buf: Buffer) returns (r: Decoded)
      modifies buf
      ensures (r, buf.data) == DecodeSpec(incoming, old(buf.data))
    {
      hide FirstCut, IndexOf, Utf8.Valid;
      if incoming.Byte? {
        var i := Position(buf.data, incoming.value);
        if i == |buf.data| {
          return NotReady;
        }
        var line := buf.SplitTo(i);
        var _ := buf.SplitTo(1);
        return if Utf8.Valid(line) then Frame(line) else InvalidUtf8;
      }
      var cut := FindCut(buf.data);
      if cut == None {
        return NotReady;
      }
      var bts := buf.SplitTo(cut.value);
      return if Utf8.Valid(bts) then Frame(bts) else NotReady;
    }

    method Encode(msg: Bytes, buf: Buffer)
      modifies buf
      ensures buf.data == old(buf.data) + EncodeSpec(outgoing, msg)
    {
      var payload := msg;
      if outgoing.Byte? {
        payload := payload + [outgoing.value];
      }
      buf.Extend(payload);
    }
  }

  /** The scan: where to split the buffer, if anywhere. */
  method FindCut(b: Bytes) returns (cut: Option<nat>)
    ensures cut == FirstCut(b, 0)
  {
    hide CutAt, FirstCut, Run;
    var depth, inStr, isEscaped, startIdx, whitespaces := 0, false, false, 0, 0;
    var idx := 0;
    ScanNone(b);
    while idx < |b|
      invariant 0 <= idx <= |b| && 0 <= startIdx <= idx && 0 <= whitespaces <= idx && -idx <= depth <= idx
      invariant Run(FRESH, b, idx) == Scan(idx, depth, inStr, isEscaped, startIdx, whitespaces)
      invariant forall m :: 0 <= m <= idx ==> !CutAt(b, m)
    {
      var byte := b[idx];
      ScanOne(b, idx);
      if IsOpen(byte) && !inStr {
        if depth == 0 {
          startIdx := idx;
        }
        depth := depth + 1;
      } else if IsClose(byte) && !inStr {
        depth := depth - 1;
      } else if byte == QUOTE && !isEscaped {
        inStr := !inStr;
      } else if IsWhitespace(byte) {
        whitespaces := whitespaces + 1;
      }
      isEscaped := byte == BACKSLASH && !isEscaped && inStr;

      if depth == 0 && idx != startIdx && idx - startIdx + 1 > whitespaces {
        CutIsFirst(b, 0, idx + 1);
        return Some(idx + 1);
      }
      idx := idx + 1;
    }
    NoCutIsNone(b, 0);
    return None;
  }

  method Position(b: Bytes, c: byte) returns (i: nat)
    ensures i <= |b|
    ensures IndexOf(b, c) == if i == |b| then None else Some(i)
  {
    i := 0;
    while i < |b| && b[i] != c
      invariant i <= |b| && c !in b[..i]
    {
      i := i + 1;
    }
    if i < |b| {
      IndexIsFirst(b, c, i);
    }
  }

  function EncodeSpec(sep: Separator, msg: Bytes): Bytes {
    if sep.Byte? then msg + [sep.value] else msg
  }

  lemma {:induction false} IndexIsFirst(b: Bytes, c: byte, i: nat)
    requires i < |b| && b[i] == c && c !in b[..i]
    ensures IndexOf(b, c) == Some(i)
  {
    if i > 0 {
      assert b[0] == b[..i][0];
      assert b[1..][..i - 1] == b[..i][1..];
      IndexIsFirst(b[1..], c, i - 1);
    }
  }

  lemma {:induction false} CutIsFirst(b: Bytes, k: nat, n: nat)
    requires k <= n <= |b| && CutAt(b, n) && forall m :: k <= m < n ==> !CutAt(b, m)
    ensures FirstCut(b, k) == Some(n)
    decreases n - k
  {
    if k < n {
      CutIsFirst(b, k + 1, n);
    }
  }

  lemma {:induction false} NoCutIsNone(b: Bytes, k: nat)
    requires k <= |b| && forall m :: k <= m <= |b| ==> !CutAt(b, m)
    ensures FirstCut(b, k) == None
    decreases |b| - k
  {
    if k < |b| {
      NoCutIsNone(b, k + 1);
    }
  }

  /** FirstCut finds the least cut, and none only when there is none. */
  lemma {:induction false} FirstCutIsLeast(b: Bytes, k: nat)
    requires k <= |b|
    ensures FirstCut(b, k).Some? ==> CutAt(b, FirstCut(b, k).value)
    ensures forall m :: k <= m <= |b| && CutAt(b, m) ==> FirstCut(b, k).Some? && FirstCut(b, k).value <= m
    decreases |b| - k
  {
    if !CutAt(b, k) && k < |b| {
      FirstCutIsLeast(b, k + 1);
    }
  }
}
