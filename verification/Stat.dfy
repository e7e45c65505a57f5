/** Sliding-window throughput over a range of blocks (ckb-bench/src/stat.rs). */
module Stat {
  import opened Wrappers
  import opened Arithmetic
  import opened Sequences

  const U64_MAX := 0xFFFF_FFFF_FFFF_FFFF

  /** A block: `outs` is the number of outputs of its transaction 1, if it has one. */
  datatype BlockInfo = BlockInfo(timestamp: nat, txs: nat, size: nat, outs: nat)

  type Blocks = seq<BlockInfo>

  datatype Report = Report(
    nInout: nat,
    fromNumber: nat,
    toNumber: nat,
    tps: nat,
    sps: nat,
    averageTxs: nat,
    averageSize: nat,
    averageTime: nat,
    totalTxs: nat,
    totalSize: nat)

  const NO_REPORT := Report(0, 0, 0, 0, 0, 0, 0, 0, 0, 0)

  /** Milliseconds from block i to block j, 0 if the clock runs backwards. */
  function Gap(c: Blocks, i: nat, j: nat): nat
    requires i < |c| && j < |c|
  {
    if c[j].timestamp > c[i].timestamp then c[j].timestamp - c[i].timestamp else 0
  }

  /** `amount` per second, rounded down; the casts of the quotients by a zero gap saturate. */
  function Rate(amount: nat, gap: nat): nat {
    if gap == 0 then (if amount == 0 then 0 else U64_MAX)
    else if Quotient(amount * 1000, gap) > U64_MAX then U64_MAX
    else Quotient(amount * 1000, gap)
  }

  /** Transactions of the blocks from i up to but not including e. */
  function Txs(c: Blocks, i: nat, e: nat): nat
    requires e <= |c|
  {
    if e <= i then 0 else Txs(c, i, e - 1) + c[e - 1].txs
  }

  function Size(c: Blocks, i: nat, e: nat): nat
    requires e <= |c|
  {
    if e <= i then 0 else Size(c, i, e - 1) + c[e - 1].size
  }

  /** Outputs of the first transaction 1 that has any. */
  function Inout(c: Blocks, i: nat, e: nat): nat
    requires e <= |c|
  {
    if e <= i then 0
    else if Inout(c, i, e - 1) != 0 then Inout(c, i, e - 1)
    else if c[e - 1].txs > 1 then c[e - 1].outs
    else 0
  }

  /** A range of block numbers on chain c, both ends included, and the length of a window. */
  datatype Query = Query(c: Blocks, from: nat, to: nat, period: nat) {
    ghost predicate Valid() {
      0 < from < to < |c| && forall n :: 0 <= n < |c| ==> c[n].txs > 0
    }
  }

  // ---------------------------------------------------------------- windows

  /** The first block from j on that is at least a period after block i, or the number behind the range. */
  function FirstFar(q: Query, i: nat, j: nat): (e: nat)
    requires q.Valid() && i <= q.to && j <= q.to + 1
    ensures j <= e <= q.to + 1
    decreases q.to + 1 - j
  {
    if j > q.to || Gap(q.c, i, j) >= q.period then j else FirstFar(q, i, j + 1)
  }

  /** The right end that the definition of a window asks for. */
  function WindowEnd(q: Query, i: nat): nat
    requires q.Valid() && i <= q.to
  {
    FirstFar(q, i, i)
  }

  /** The right end that the scan reaches: it goes on from where it was for the block before. */
  function ScanEnd(q: Query, i: nat): (e: nat)
    requires q.Valid() && q.from <= i <= q.to
    ensures e <= q.to + 1
  {
    FirstFar(q, i, if i == q.from then i else ScanEnd(q, i - 1))
  }

  /** The last start that is visited: its window is the first to reach the end of the range. */
  function LastStart(q: Query, i: nat): (last: nat)
    requires q.Valid() && q.period > 0 && q.from <= i <= q.to
    ensures i <= last <= q.to
    decreases q.to - i
  {
    ScanEndAfter(q, i);
    if ScanEnd(q, i) >= q.to then i else LastStart(q, i + 1)
  }

  lemma {:induction false} LastStartIsFirst(q: Query, i: nat)
    requires q.Valid() && q.period > 0 && q.from <= i <= q.to
    ensures ScanEnd(q, LastStart(q, i)) >= q.to
    ensures forall x :: i <= x < LastStart(q, i) ==> ScanEnd(q, x) < q.to
    decreases q.to - i
  {
    hide ScanEnd;
    ScanEndAfter(q, i);
    if ScanEnd(q, i) < q.to {
      LastStartIsFirst(q, i + 1);
    }
  }

  lemma {:induction false} ScanEndAfter(q: Query, i: nat)
    requires q.Valid() && q.period > 0 && q.from <= i <= q.to
    ensures ScanEnd(q, i) > i
  {
    if i > q.from {
      ScanEndAfter(q, i - 1);
    }
  }

  /** The report of the window that starts at i and whose scan ended at e. */
  function WindowReport(q: Query, i: nat, e: nat): Report
    requires q.Valid() && i <= q.to && i < e <= q.to + 1
  {
    var j := if e > q.to then q.to else e;
    var gap, txs, size, blocks := Gap(q.c, i, j), Txs(q.c, i, e), Size(q.c, q.from, e), j - i + 1;
    Report(0, i, j, Rate(txs, gap), Rate(size, gap), Quotient(txs, blocks), Quotient(size, blocks),
           Quotient(gap, blocks), txs, size)
  }

  function ReportAt(q: Query, i: nat): Report
    requires q.Valid() && q.period > 0 && q.from <= i <= q.to
  {
    ScanEndAfter(q, i);
    WindowReport(q, i, ScanEnd(q, i))
  }

  /** r is the first of the best reports among the windows from q.from up to but not including n. */
  ghost predicate IsBest(q: Query, r: Report, n: nat)
    requires q.Valid() && q.period > 0 && n <= q.to + 1
  {
    && (forall x :: q.from <= x < n ==> ReportAt(q, x).tps <= r.tps)
    && (r == NO_REPORT ||
        exists x :: q.from <= x < n && r == ReportAt(q, x) && r.tps > 0 &&
                    forall y :: q.from <= y < x ==> ReportAt(q, y).tps < r.tps)
  }

  /** The report kept over the windows from q.from up to but not including n. */
  function Best(q: Query, n: nat): (r: Report)
    requires q.Valid() && q.period > 0 && n <= q.to + 1
    ensures r.nInout == 0
  {
    if n <= q.from then NO_REPORT
    else Better(Best(q, n - 1), ReportAt(q, n - 1))
  }

  function Better(best: Report, r: Report): Report {
    if r.tps > best.tps then r else best
  }

  /** What is kept is the first of the fastest windows. */
  lemma {:induction false} BestIsBest(q: Query, n: nat)
    requires q.Valid() && q.period > 0 && n <= q.to + 1
    ensures IsBest(q, Best(q, n), n)
    decreases n
  {
    hide ReportAt;
    if n > q.from {
      BestIsBest(q, n - 1);
    }
  }

  lemma {:induction false} TxsFront(c: Blocks, i: nat, e: nat)
    requires i < e <= |c|
    ensures Txs(c, i, e) == c[i].txs + Txs(c, i + 1, e)
    decreases e
  {
    if i + 1 < e {
      TxsFront(c, i, e - 1);
    }
  }

  /** None stands for the underflow of the transaction count. */
  method Stat(q: Query) returns (r: Option<Report>)
    requires q.Valid()
    ensures r.None? <==> q.period == 0
    ensures r.Some? ==>
              var last := LastStart(q, q.from);
              r.value == Best(q, last + 1).(nInout := Inout(q.c, q.from, ScanEnd(q, last)))
  {
    hide ReportAt;
    var i, j := q.from, q.from;
    var totalTxs, totalSize, nInout, best := 0, 0, 0, NO_REPORT;
    while true
      invariant q.from <= i <= q.to && i <= j <= q.to
      invariant totalTxs == Txs(q.c, i, j) && totalSize == Size(q.c, q.from, j) && nInout == Inout(q.c, q.from, j)
      invariant j == if i == q.from then i else ScanEnd(q, i - 1)
      invariant q.period > 0 ==> best == Best(q, i)
      invariant if q.period > 0 then LastStart(q, q.from) == LastStart(q, i) else i == q.from
      decreases q.to - i
    {
      j, totalTxs, totalSize, nInout := ScanFrom(q, i, j, totalTxs, totalSize, nInout);
      assert j == ScanEnd(q, i);
      ghost var e := j;
      if j > q.to {
        j := q.to;
      }
      best := KeepBetter(q, i, e, j, totalTxs, totalSize, best);
      if j >= q.to {
        return Some(best.(nInout := nInout));
      }
      if q.period > 0 {
        TxsFront(q.c, i, j);
      }
      if totalTxs < q.c[i].txs {
        return None;
      }
      totalTxs := totalTxs - q.c[i].txs;
      i := i + 1;
    }
  }

  /** Replaces the best report by the current window's if that is faster. */
  method KeepBetter(q: Query, i: nat, ghost e: nat, j: nat, txs: nat, size: nat, best: Report) returns (better: Report)
    requires q.Valid() && q.from <= i <= q.to && i <= e <= q.to + 1 && e == ScanEnd(q, i)
    requires j == if e > q.to then q.to else e
    requires txs == Txs(q.c, i, e) && size == Size(q.c, q.from, e)
    ensures e == i && q.period == 0 ==> better == best
    ensures q.period > 0 ==> better == Better(best, ReportAt(q, i))
  {
    var gap, blocks := Gap(q.c, i, j), j - i + 1;
    var tps := Rate(txs, gap);
    if tps > best.tps {
      better := Report(0, i, j, tps, Rate(size, gap), Quotient(txs, blocks), Quotient(size, blocks),
                       Quotient(gap, blocks), txs, size);
    } else {
      better := best;
    }
    if q.period > 0 {
      ScanEndAfter(q, i);
      assert ReportAt(q, i) == WindowReport(q, i, e);
    }
  }

  /** The inner loop: moves the right end on and adds up what it passes. */
  method ScanFrom(q: Query, i: nat, j0: nat, txs0: nat, size0: nat, inout0: nat)
    returns (j: nat, txs: nat, size: nat, nInout: nat)
    requires q.Valid() && q.from <= i <= q.to && i <= j0 <= q.to
    requires txs0 == Txs(q.c, i, j0) && size0 == Size(q.c, q.from, j0) && inout0 == Inout(q.c, q.from, j0)
    ensures j == FirstFar(q, i, j0)
    ensures txs == Txs(q.c, i, j) && size == Size(q.c, q.from, j) && nInout == Inout(q.c, q.from, j)
  {
    j, txs, size, nInout := j0, txs0, size0, inout0;
    while j <= q.to
      invariant j0 <= j <= q.to + 1 && FirstFar(q, i, j0) == FirstFar(q, i, j)
      invariant txs == Txs(q.c, i, j) && size == Size(q.c, q.from, j) && nInout == Inout(q.c, q.from, j)
    {
      if Gap(q.c, i, j) >= q.period {
        break;
      }
      txs := txs + q.c[j].txs;
      size := size + q.c[j].size;
      if nInout == 0 && q.c[j].txs > 1 {
        nInout := q.c[j].outs;
      }
      j := j + 1;
    }
  }

  // ---------------------------------------------------------------- the scan against the definition

  ghost predicate Sorted(q: Query)
    requires q.Valid()
  {
    forall m, n :: q.from <= m <= n <= q.to ==> q.c[m].timestamp <= q.c[n].timestamp
  }

  /** No block before j is a period after block i. */
  ghost predicate AllNear(q: Query, i: nat, j: nat)
    requires q.Valid() && i <= q.to && j <= q.to + 1
  {
    forall x :: i <= x < j ==> Gap(q.c, i, x) < q.period
  }

  lemma {:induction false} SkipNear(q: Query, i: nat, k: nat, j: nat)
    requires q.Valid() && i <= k <= j <= q.to + 1 && i <= q.to
    ensures FirstFar(q, i, k) == FirstFar(q, i, j) <==> forall x :: k <= x < j ==> Gap(q.c, i, x) < q.period
    decreases j - k
  {
    if k < j && Gap(q.c, i, k) < q.period {
      SkipNear(q, i, k + 1, j);
    }
  }

  /** The scan finds the window of a start exactly when the blocks it has passed already are near that start. */
  lemma {:induction false} ScanFindsWindow(q: Query, i: nat)
    requires q.Valid() && q.period > 0 && q.from < i <= q.to
    ensures ScanEnd(q, i) == WindowEnd(q, i) <==> AllNear(q, i, ScanEnd(q, i - 1))
  {
    ScanEndAfter(q, i - 1);
    SkipNear(q, i, i, ScanEnd(q, i - 1));
  }

  lemma {:induction false} NearBeforeFar(q: Query, i: nat, j: nat)
    requires q.Valid() && i <= q.to && j <= q.to + 1
    ensures forall x :: j <= x < FirstFar(q, i, j) ==> Gap(q.c, i, x) < q.period
    decreases q.to + 1 - j
  {
    if j <= q.to && Gap(q.c, i, j) < q.period {
      NearBeforeFar(q, i, j + 1);
    }
  }

  /** The scan finds the windows of all starts from q.from up to and including last. */
  ghost predicate FindsWindows(q: Query, last: nat)
    requires q.Valid() && last <= q.to
  {
    forall i :: q.from <= i <= last ==> ScanEnd(q, i) == WindowEnd(q, i)
  }

  /** The blocks of the window before are near start i, too. */
  ghost predicate StaysNear(q: Query, i: nat)
    requires q.Valid() && 0 < i <= q.to
  {
    AllNear(q, i, WindowEnd(q, i - 1))
  }

  /** A run finds all windows exactly when every start visited is near all blocks of the window before. */
  lemma {:induction false} RunFindsWindows(q: Query, last: nat)
    requires q.Valid() && q.period > 0 && q.from <= last <= q.to
    ensures FindsWindows(q, last) <==> forall i :: q.from < i <= last ==> StaysNear(q, i)
    decreases last
  {
    if last == q.from {
      assert ScanEnd(q, last) == WindowEnd(q, last);
    } else {
      RunFindsWindows(q, last - 1);
      ScanFindsWindow(q, last);
      if FindsWindows(q, last - 1) {
        assert ScanEnd(q, last - 1) == WindowEnd(q, last - 1);
        assert StaysNear(q, last) <==> ScanEnd(q, last) == WindowEnd(q, last);
      } else {
        assert !FindsWindows(q, last);
      }
    }
  }

  lemma {:induction false} SortedStaysNear(q: Query, i: nat)
    requires q.Valid() && Sorted(q) && q.from < i <= q.to
    ensures StaysNear(q, i)
  {
    NearBeforeFar(q, i - 1, i - 1);
    forall x | i <= x < WindowEnd(q, i - 1)
      ensures Gap(q.c, i, x) < q.period
    {
      assert Gap(q.c, i - 1, x) < q.period;
    }
  }

  /** On timestamps that do not decrease, every window the scan visits is the one the definition asks for. */
  lemma {:induction false} SortedScanIsWindow(q: Query)
    requires q.Valid() && q.period > 0 && Sorted(q)
    ensures FindsWindows(q, LastStart(q, q.from))
  {
    var last := LastStart(q, q.from);
    forall i | q.from < i <= last
      ensures StaysNear(q, i)
    {
      SortedStaysNear(q, i);
    }
    RunFindsWindows(q, last);
  }

  /** On timestamps that decrease it need not be: start 2 of this run is visited with the wrong window. */
  lemma {:induction false} UnsortedScanMisses(q: Query)
    requires q.c == [BlockInfo(0, 1, 1, 0), BlockInfo(50, 1, 1, 0), BlockInfo(0, 1, 1, 0), BlockInfo(55, 1, 1, 0),
                     BlockInfo(61, 1, 1, 0), BlockInfo(62, 1, 1, 0)]
    requires q.from == 1 && q.to == 5 && q.period == 11
    ensures 2 <= LastStart(q, q.from) && WindowEnd(q, 2) == 3 && ScanEnd(q, 2) == 4
  {
    assert FirstFar(q, 1, 4) == 4;
    assert FirstFar(q, 1, 3) == 4;
    assert FirstFar(q, 1, 2) == 4;
    assert ScanEnd(q, 1) == FirstFar(q, 1, 1) == 4;
    assert FirstFar(q, 2, 4) == 4;
    assert FirstFar(q, 2, 3) == 3;
  }

  lemma {:induction false} SizeSplits(c: Blocks, i: nat, j: nat, e: nat)
    requires i <= j <= e <= |c|
    ensures Size(c, i, e) == Size(c, i, j) + Size(c, j, e)
    decreases e
  {
    if j < e {
      SizeSplits(c, i, j, e - 1);
    }
  }

  /** The size of a window is that of all blocks since q.from, so of the window only if that starts there. */
  lemma {:induction false} SizeIsOfWindow(q: Query, i: nat)
    requires q.Valid() && q.period > 0 && q.from <= i <= q.to
    requires forall n :: 0 <= n < |q.c| ==> q.c[n].size > 0
    ensures ReportAt(q, i).fromNumber == i && ReportAt(q, i).totalTxs == Txs(q.c, i, ScanEnd(q, i))
    ensures ReportAt(q, i).totalSize == Size(q.c, i, ScanEnd(q, i)) <==> i == q.from
  {
    ScanEndAfter(q, i);
    SizeSplits(q.c, q.from, i, ScanEnd(q, i));
  }

  /** What the run reports. */
  function Reported(q: Query): Report
    requires q.Valid() && q.period > 0
  {
    Best(q, LastStart(q, q.from) + 1)
  }

  /** A reported window has its own size exactly when it is the first of the range. */
  lemma {:induction false} ReportedSizeExact(q: Query)
    requires q.Valid() && q.period > 0 && Reported(q) != NO_REPORT
    requires forall n :: 0 <= n < |q.c| ==> q.c[n].size > 0
    ensures var r := Reported(q);
            q.from <= r.fromNumber <= q.to &&
            (r.totalSize == Size(q.c, r.fromNumber, ScanEnd(q, r.fromNumber)) <==> r.fromNumber == q.from)
  {
    hide Best, LastStart, ReportAt, ScanEnd, Size;
    BestIsBest(q, LastStart(q, q.from) + 1);
    var x :| q.from <= x <= q.to && Reported(q) == ReportAt(q, x);
    SizeIsOfWindow(q, x);
  }

  /** A run that reports another: the second window is the fastest, and gets the first block's size, too. */
  lemma {:induction false} ReportedSizeIsTooLarge(q: Query)
    requires q.c == [BlockInfo(0, 1, 1, 0), BlockInfo(0, 1, 1, 0), BlockInfo(10, 1, 1, 0), BlockInfo(11, 100, 1, 0)]
    requires q.from == 1 && q.to == 3 && q.period == 10
    ensures Reported(q).fromNumber == 2 && Reported(q).totalSize == 3 && Size(q.c, 2, ScanEnd(q, 2)) == 2
  {
    assert FirstFar(q, 1, 2) == 2;
    assert ScanEnd(q, 1) == FirstFar(q, 1, 1) == 2;
    assert FirstFar(q, 2, 3) == 4;
    assert ScanEnd(q, 2) == FirstFar(q, 2, 2) == 4;
    assert LastStart(q, 2) == 2;
    assert Txs(q.c, 2, 3) == 1 && Txs(q.c, 2, 4) == 101;
    QuotientIs(1000, Gap(q.c, 1, 2));
    QuotientIs(101000, Gap(q.c, 2, 3));
    assert Txs(q.c, 1, 2) == 1;
    assert ReportAt(q, 1).tps == 100;
    assert ReportAt(q, 2).tps == 101000;
    assert Best(q, 1) == NO_REPORT;
    assert Best(q, 2) == ReportAt(q, 1);
    assert Best(q, 3) == ReportAt(q, 2);
    assert Size(q.c, 2, 3) == 1;
    assert Size(q.c, 1, 2) == 1 && Size(q.c, 1, 3) == 2 && Size(q.c, 1, 4) == 3;
  }

  // ---------------------------------------------------------------- what the numbers of a report mean

  lemma {:induction false} QuotientIsFloor(a: nat, b: nat)
    requires b > 0
    ensures Quotient(a, b) * b <= a < (Quotient(a, b) + 1) * b
  {
    var q := Quotient(a, b);
    QuotientFits(a, b);
    ProductIs(q, b);
    ProductIs(q + 1, b);
  }

  /** r is `amount` per `gap` milliseconds, in whole units per second, as far as it fits into 64 bits. */
  ghost predicate IsRate(r: nat, amount: nat, gap: nat) {
    if gap == 0 then r == if amount == 0 then 0 else 18_446_744_073_709_551_615
    else if amount * 1000 < 18_446_744_073_709_551_616 * gap then r * gap <= amount * 1000 < (r + 1) * gap
    else r == 18_446_744_073_709_551_615
  }

  lemma {:induction false} RateIsRate(amount: nat, gap: nat)
    ensures IsRate(Rate(amount, gap), amount, gap)
  {
    if gap > 0 {
      RateIsCapped(amount * 1000, gap, Rate(amount, gap));
    }
  }

  lemma {:induction false} RateIsCapped(scaled: nat, gap: nat, r: nat)
    requires gap > 0 && r == if Quotient(scaled, gap) > U64_MAX then U64_MAX else Quotient(scaled, gap)
    ensures if scaled < 18_446_744_073_709_551_616 * gap then r * gap <= scaled < (r + 1) * gap
            else r == 18_446_744_073_709_551_615
  {
    var q := Quotient(scaled, gap);
    QuotientIsFloor(scaled, gap);
    if q >= 18_446_744_073_709_551_616 {
      Scale(18_446_744_073_709_551_616, q, gap);
    } else {
      Scale(q + 1, 18_446_744_073_709_551_616, gap);
    }
  }

  lemma {:induction false} Scale(a: nat, b: nat, c: nat)
    requires a <= b
    ensures a * c <= b * c
  {
    ProductGrows(a, b, c);
    ProductIs(a, c);
    ProductIs(b, c);
  }

  function TxsOf(b: BlockInfo): nat {
    b.txs
  }

  function SizeOf(b: BlockInfo): nat {
    b.size
  }

  lemma {:induction false} SumsAreSums(c: Blocks, i: nat, e: nat)
    requires i <= e <= |c|
    ensures Txs(c, i, e) == SumOf(c[i..e], TxsOf) && Size(c, i, e) == SumOf(c[i..e], SizeOf)
    decreases e
  {
    if i < e {
      SumsAreSums(c, i, e - 1);
      assert c[i..e] == c[i..e - 1] + [c[e - 1]];
      SumOfConcat(c[i..e - 1], [c[e - 1]], TxsOf);
      SumOfConcat(c[i..e - 1], [c[e - 1]], SizeOf);
      SumOfOne(c[e - 1], TxsOf);
      SumOfOne(c[e - 1], SizeOf);
    }
  }

  /** Milliseconds between two blocks, 0 if the second is the earlier. */
  function Between(a: BlockInfo, b: BlockInfo): nat {
    if a.timestamp < b.timestamp then b.timestamp - a.timestamp else 0
  }

  /**
   The report of a window from block i, with right end e: its rates are those of the transactions from i and of the
   sizes from the start of the range, and its averages are over the blocks from i to the block reported as last.
   */
  ghost predicate IsReport(q: Query, r: Report, i: nat, e: nat)
    requires q.Valid() && q.from <= i < e <= q.to + 1
  {
    var txs, size, blocks := SumOf(q.c[i..e], TxsOf), SumOf(q.c[q.from..e], SizeOf), r.toNumber - i + 1;
    var gap := Between(q.c[i], q.c[if e > q.to then q.to else e]);
    && r.fromNumber == i && r.toNumber == (if e > q.to then q.to else e)
    && r.totalTxs == txs && r.totalSize == size
    && IsRate(r.tps, txs, gap) && IsRate(r.sps, size, gap)
    && r.averageTxs * blocks <= txs < (r.averageTxs + 1) * blocks
    && r.averageSize * blocks <= size < (r.averageSize + 1) * blocks
    && r.averageTime * blocks <= gap < (r.averageTime + 1) * blocks
  }

  lemma {:induction false} ReportIsReport(q: Query, i: nat)
    requires q.Valid() && q.period > 0 && q.from <= i <= q.to
    ensures ScanEnd(q, i) > i && IsReport(q, ReportAt(q, i), i, ScanEnd(q, i))
  {
    ScanEndAfter(q, i);
    var e := ScanEnd(q, i);
    WindowReportIsReport(q, i, e);
  }

  lemma {:induction false} WindowReportIsReport(q: Query, i: nat, e: nat)
    requires q.Valid() && q.from <= i < e <= q.to + 1
    ensures IsReport(q, WindowReport(q, i, e), i, e)
  {
    hide Quotient, Rate, Txs, Size, SumOf;
    var j := if e > q.to then q.to else e;
    var gap, txs, size, blocks := Gap(q.c, i, j), Txs(q.c, i, e), Size(q.c, q.from, e), j - i + 1;
    SumsAreSums(q.c, i, e);
    SumsAreSums(q.c, q.from, e);
    RateIsRate(txs, gap);
    RateIsRate(size, gap);
    QuotientIsFloor(txs, blocks);
    QuotientIsFloor(size, blocks);
    QuotientIsFloor(gap, blocks);
  }

  /** The run reports such a window, unless all its rates are 0. */
  lemma {:induction false} ReportedIsReport(q: Query) returns (i: nat)
    requires q.Valid() && q.period > 0 && Reported(q) != NO_REPORT
    ensures q.from <= i <= q.to && ScanEnd(q, i) > i && IsReport(q, Reported(q), i, ScanEnd(q, i))
  {
    hide Best, IsReport, LastStart, ReportAt, ScanEnd;
    BestIsBest(q, LastStart(q, q.from) + 1);
    i :| q.from <= i <= q.to && Reported(q) == ReportAt(q, i);
    ReportIsReport(q, i);
  }

  /** The number of inputs and outputs is that of the first block with a transaction 1 that has any. */
  lemma {:induction false} InoutIsFirst(c: Blocks, i: nat, e: nat, n: nat)
    requires i <= n < e <= |c| && c[n].txs > 1 && c[n].outs != 0
    requires forall m :: i <= m < n ==> c[m].txs <= 1 || c[m].outs == 0
    ensures Inout(c, i, e) == c[n].outs
    decreases e
  {
    if n == e - 1 {
      NoInout(c, i, n);
    } else {
      InoutIsFirst(c, i, e - 1, n);
    }
  }

  lemma {:induction false} NoInout(c: Blocks, i: nat, e: nat)
    requires e <= |c| && forall m :: i <= m < e ==> c[m].txs <= 1 || c[m].outs == 0
    ensures Inout(c, i, e) == 0
    decreases e
  {
    if i < e {
      NoInout(c, i, e - 1);
    }
  }
}
