/**
 The spendable cells of a user (ckb-testkit/src/user/single_secp256k1.rs), and their way through batches into
 collecting transactions (ckb-bench/src/prepare.rs, collect and collect_inputs).
 */
module CollectBatches {
  import opened Wrappers
  import opened Collect
  import opened Sequences

  const FEE_PER_INPUT := 1000
  const INPUTS_SOFT_LIMIT := 1000

  // ---------------------------------------------------------------- spendable cells

  datatype Meta = Meta(cell: Cell, isCellbase: bool, blockNumber: nat, dataBytes: nat)

  /** What the indexer answers: live out-points by lock, and details of those still live when asked for. */
  datatype Indexer = Indexer(live: map<Lock, seq<OutPoint>>, metas: map<OutPoint, Meta>) {
    function LiveCells(l: Lock): seq<OutPoint> {
      if l in live then live[l] else []
    }

    /** Details agree with the list an out-point came from. */
    ghost predicate Coherent() {
      forall l, p :: l in live && p in live[l] && p in metas ==> metas[p].cell.lock == l && metas[p].cell.outPoint == p
    }
  }

  datatype Chain = Chain(tip: nat, maturityEpochs: nat)

  predicate IsSpendable(m: Meta, c: Chain) {
    !(m.isCellbase && m.blockNumber + c.maturityEpochs * 1800 > c.tip) && m.dataBytes == 0
  }

  function FilterCells(ix: Indexer, ps: seq<OutPoint>, c: Chain): seq<Cell> {
    if ps == [] then []
    else if ps[0] in ix.metas && IsSpendable(ix.metas[ps[0]], c) then
      [ix.metas[ps[0]].cell] + FilterCells(ix, ps[1..], c)
    else FilterCells(ix, ps[1..], c)
  }

  function CellsByLock(ix: Indexer, l: Lock, c: Chain): seq<Cell> {
    FilterCells(ix, ix.LiveCells(l), c)
  }

  /** The user's cells, by script in this order. */
  function SpendableCells(ix: Indexer, args: nat, c: Chain): seq<Cell> {
    CellsByLock(ix, Lock(ByType, args), c) + CellsByLock(ix, Lock(ByData, args), c) +
    CellsByLock(ix, Lock(ByData1, args), c)
  }

  method GetSpendableCells(ix: Indexer, args: nat, c: Chain) returns (cells: seq<Cell>)
    ensures cells == SpendableCells(ix, args, c)
  {
    var liveOutPoints := [];
    liveOutPoints := liveOutPoints + ix.LiveCells(Lock(ByType, args));
    assert liveOutPoints == ix.LiveCells(Lock(ByType, args));
    liveOutPoints := liveOutPoints + ix.LiveCells(Lock(ByData, args));
    FilterConcat(ix, ix.LiveCells(Lock(ByType, args)), ix.LiveCells(Lock(ByData, args)), c);
    FilterConcat(ix, liveOutPoints, ix.LiveCells(Lock(ByData1, args)), c);
    liveOutPoints := liveOutPoints + ix.LiveCells(Lock(ByData1, args));
    cells := FilterCells(ix, liveOutPoints, c);
  }

  lemma {:induction false} FilterConcat(ix: Indexer, a: seq<OutPoint>, b: seq<OutPoint>, c: Chain)
    ensures FilterCells(ix, a + b, c) == FilterCells(ix, a, c) + FilterCells(ix, b, c)
  {
    if a == [] {
      assert a + b == b;
    } else {
      assert (a + b)[1..] == a[1..] + b;
      FilterConcat(ix, a[1..], b, c);
    }
  }

  /** Exactly the out-points that are live, mature and without data pass. */
  lemma {:induction false} FilterPasses(ix: Indexer, ps: seq<OutPoint>, c: Chain, cell: Cell)
    ensures cell in FilterCells(ix, ps, c) <==>
              exists p :: p in ps && p in ix.metas && IsSpendable(ix.metas[p], c) && ix.metas[p].cell == cell
  {
    if ps != [] {
      FilterPasses(ix, ps[1..], c, cell);
      assert forall p :: p in ps <==> p == ps[0] || p in ps[1..];
    }
  }

  /**
   Filtering keeps the order: the cells are those at the positions `at`, and every other position is of an out-point
   that is gone, immature, or with data.
   */
  lemma {:induction false} FilterIsSubsequence(ix: Indexer, ps: seq<OutPoint>, c: Chain) returns (at: seq<nat>)
    ensures |at| == |FilterCells(ix, ps, c)|
    ensures forall k :: 0 <= k < |at| ==>
              at[k] < |ps| && ps[at[k]] in ix.metas && FilterCells(ix, ps, c)[k] == ix.metas[ps[at[k]]].cell
    ensures forall i, j :: 0 <= i < j < |at| ==> at[i] < at[j]
    ensures forall n :: 0 <= n < |ps| ==> (n in at <==> IsMatureAndEmpty(ix, ps[n], c))
    decreases |ps|
  {
    assert ps == [] ==> FilterCells(ix, ps, c) == [];
    hide FilterCells;
    at := [];
    if ps != [] {
      var init, last := ps[..|ps| - 1], ps[|ps| - 1];
      at := FilterIsSubsequence(ix, init, c);
      assert ps == init + [last];
      FilterConcat(ix, init, [last], c);
      FilterOne(ix, last, c);
      if IsMatureAndEmpty(ix, last, c) {
        at := at + [|init|];
      }
    }
  }

  lemma {:induction false} FilterOne(ix: Indexer, p: OutPoint, c: Chain)
    ensures FilterCells(ix, [p], c) == if IsMatureAndEmpty(ix, p, c) then [ix.metas[p].cell] else []
  {
    assert [p][1..] == [];
  }

  ghost predicate IsMatureAndEmpty(ix: Indexer, p: OutPoint, c: Chain) {
    && p in ix.metas && ix.metas[p].dataBytes == 0
    && (ix.metas[p].isCellbase ==> ix.metas[p].blockNumber + 1800 * c.maturityEpochs <= c.tip)
  }

  /** Out-point p is one of the user's, by one of its scripts, and is of this spendable cell. */
  ghost predicate IsOfUser(ix: Indexer, args: nat, c: Chain, cell: Cell, h: HashType, p: OutPoint) {
    && Lock(h, args) in ix.live && p in ix.live[Lock(h, args)]
    && IsMatureAndEmpty(ix, p, c) && ix.metas[p].cell == cell
  }

  /** The spendable cells of a user are those of all three scripts that are live, mature and without data. */
  lemma {:induction false} SpendableExactly(ix: Indexer, args: nat, c: Chain, cell: Cell)
    ensures cell in SpendableCells(ix, args, c) <==> exists h, p :: IsOfUser(ix, args, c, cell, h, p)
  {
    hide FilterCells;
    LockExactly(ix, args, c, cell, ByType);
    LockExactly(ix, args, c, cell, ByData);
    LockExactly(ix, args, c, cell, ByData1);
    if h, p :| IsOfUser(ix, args, c, cell, h, p) {
      match h
      case ByType => assert cell in CellsByLock(ix, Lock(ByType, args), c);
      case ByData => assert cell in CellsByLock(ix, Lock(ByData, args), c);
      case ByData1 => assert cell in CellsByLock(ix, Lock(ByData1, args), c);
    }
  }

  lemma {:induction false} LockExactly(ix: Indexer, args: nat, c: Chain, cell: Cell, h: HashType)
    ensures cell in CellsByLock(ix, Lock(h, args), c) <==> exists p :: IsOfUser(ix, args, c, cell, h, p)
  {
    FilterPasses(ix, ix.LiveCells(Lock(h, args)), c, cell);
    if p :| p in ix.LiveCells(Lock(h, args)) && p in ix.metas && IsSpendable(ix.metas[p], c) && ix.metas[p].cell == cell {
      assert IsOfUser(ix, args, c, cell, h, p);
    }
  }

  function Rank(h: HashType): nat {
    match h case ByType => 0 case ByData => 1 case ByData1 => 2
  }

  /** Those by type script come first, then those by data, then those by data1. */
  lemma {:induction false} SpendableInOrder(ix: Indexer, args: nat, c: Chain)
    requires ix.Coherent()
    ensures var cells := SpendableCells(ix, args, c);
            forall i, j :: 0 <= i <= j < |cells| ==> Rank(cells[i].lock.hashType) <= Rank(cells[j].lock.hashType)
  {
    hide FilterCells;
    OneLock(ix, Lock(ByType, args), c);
    OneLock(ix, Lock(ByData, args), c);
    OneLock(ix, Lock(ByData1, args), c);
    var a, b := CellsByLock(ix, Lock(ByType, args), c), CellsByLock(ix, Lock(ByData, args), c);
    var d := CellsByLock(ix, Lock(ByData1, args), c);
    assert forall k :: 0 <= k < |a| ==> Locks(a)[k] == a[k].lock;
    assert forall k :: 0 <= k < |b| ==> Locks(b)[k] == b[k].lock;
    assert forall k :: 0 <= k < |d| ==> Locks(d)[k] == d[k].lock;
  }

  lemma {:induction false} OneLock(ix: Indexer, l: Lock, c: Chain)
    requires ix.Coherent()
    ensures forall k :: 0 <= k < |Locks(CellsByLock(ix, l, c))| ==> Locks(CellsByLock(ix, l, c))[k] == l
  {
    var cells := CellsByLock(ix, l, c);
    forall k | 0 <= k < |cells|
      ensures cells[k].lock == l
    {
      FilterPasses(ix, ix.LiveCells(l), c, cells[k]);
    }
  }

  // ---------------------------------------------------------------- contiguity

  lemma {:induction false} LocksConcat(a: seq<Cell>, b: seq<Cell>)
    ensures Locks(a + b) == Locks(a) + Locks(b)
  {
  }

  lemma {:induction false} ContiguousConcat(a: seq<Lock>, b: seq<Lock>)
    requires Contiguous(a) && Contiguous(b) && forall l :: l in a ==> l !in b
    ensures Contiguous(a + b)
  {
    var all, n := a + b, |a|;
    assert forall m :: 0 <= m < n ==> all[m] == a[m] && all[m] in a;
    assert forall m :: n <= m < |all| ==> all[m] == b[m - n] && all[m] in b;
    forall i, j, k | 0 <= i <= j <= k < |all| && all[i] == all[k]
      ensures all[j] == all[i]
    {
      if i >= n {
        assert b[i - n] == b[k - n];
        assert b[j - n] == b[i - n];
      } else {
        assert k < n;
        assert a[i] == a[k];
      }
    }
  }

  /** One user's cells: equal locks together, and only that user's locks. */
  lemma {:induction false} UserIsContiguous(ix: Indexer, args: nat, c: Chain)
    requires ix.Coherent()
    ensures Contiguous(Locks(SpendableCells(ix, args, c)))
    ensures forall l :: l in Locks(SpendableCells(ix, args, c)) ==> l.args == args
  {
    var x, y, z := Lock(ByType, args), Lock(ByData, args), Lock(ByData1, args);
    OneLock(ix, x, c);
    OneLock(ix, y, c);
    OneLock(ix, z, c);
    var a, b, d := CellsByLock(ix, x, c), CellsByLock(ix, y, c), CellsByLock(ix, z, c);
    LocksConcat(a, b);
    LocksConcat(a + b, d);
    ContiguousConcat(Locks(a), Locks(b));
    ContiguousConcat(Locks(a) + Locks(b), Locks(d));
  }

  /** A user with the index and the chain as they are when its turn comes. */
  datatype Turn = Turn(args: nat, indexer: Indexer, chain: Chain) {
    function Cells(): seq<Cell> {
      SpendableCells(indexer, args, chain)
    }
  }

  function AllCells(ts: seq<Turn>): seq<Cell> {
    if ts == [] then [] else AllCells(ts[..|ts| - 1]) + ts[|ts| - 1].Cells()
  }

  ghost predicate DistinctUsers(ts: seq<Turn>) {
    && (forall i :: 0 <= i < |ts| ==> ts[i].indexer.Coherent())
    && (forall i, j :: 0 <= i < j < |ts| ==> ts[i].args != ts[j].args)
  }

  lemma {:induction false} AllIsContiguous(ts: seq<Turn>)
    requires DistinctUsers(ts)
    ensures Contiguous(Locks(AllCells(ts)))
    ensures forall l :: l in Locks(AllCells(ts)) ==> exists i :: 0 <= i < |ts| && ts[i].args == l.args
    decreases |ts|
  {
    if ts != [] {
      var before, last := ts[..|ts| - 1], ts[|ts| - 1];
      AllIsContiguous(before);
      UserIsContiguous(last.indexer, last.args, last.chain);
      LocksConcat(AllCells(before), last.Cells());
      forall l | l in Locks(AllCells(before))
        ensures l !in Locks(last.Cells()) && exists i :: 0 <= i < |ts| && ts[i].args == l.args
      {
        var i :| 0 <= i < |before| && before[i].args == l.args;
        assert ts[i].args == l.args;
      }
      ContiguousConcat(Locks(AllCells(before)), Locks(last.Cells()));
    }
  }

  // ---------------------------------------------------------------- transactions

  datatype Tx = Tx(inputs: seq<OutPoint>, output: nat, witnesses: seq<Witness>)

  function CapacityOf(c: Cell): nat {
    c.capacity
  }

  function Sum(cs: seq<Cell>): nat {
    SumOf(cs, CapacityOf)
  }

  function Points(cs: seq<Cell>): seq<OutPoint> {
    seq(|cs|, i requires 0 <= i < |cs| => cs[i].outPoint)
  }

  function CollectTx(cs: seq<Cell>): Tx
    requires CoversFee(cs)
  {
    GroupsArePositive(Locks(cs));
    Tx(Points(cs), Sum(cs) - |cs| * FEE_PER_INPUT, Witnesses(Groups(Locks(cs))))
  }

  /** None stands for the underflow of the output's capacity. */
  method CollectInputs(inputs: seq<Cell>) returns (tx: Option<Tx>)
    ensures tx.Some? <==> CoversFee(inputs)
    ensures tx.Some? ==> tx.value == CollectTx(inputs)
    ensures tx.None? <==> Sum(inputs) < 1000 * |inputs|
    ensures tx.Some? ==> tx.value.output == Sum(inputs) - 1000 * |inputs|
    ensures tx.Some? ==>
              |tx.value.inputs| == |inputs| && forall k :: 0 <= k < |inputs| ==> tx.value.inputs[k] == inputs[k].outPoint
  {
    var capacity := 0;
    var k := 0;
    while k < |inputs|
      invariant k <= |inputs| && capacity == Sum(inputs[..k])
    {
      assert inputs[..k + 1][..k] == inputs[..k];
      capacity := capacity + inputs[k].capacity;
      k := k + 1;
    }
    assert inputs[..k] == inputs;
    var fee := |inputs| * FEE_PER_INPUT;
    if capacity < fee {
      return None;
    }
    var groups := GroupScripts(Locks(inputs));
    GroupsArePositive(Locks(inputs));
    var witnesses := BuildWitnesses(groups);
    return Some(Tx(Points(inputs), capacity - fee, witnesses));
  }

  // ---------------------------------------------------------------- batches

  /** The batches are the cells in order, none larger than 1999, all but the last at least 1000. */
  ghost predicate IsBatching(bs: seq<seq<Cell>>, cells: seq<Cell>) {
    && Flatten(bs) == cells
    && (forall k :: 0 <= k < |bs| ==> 0 < |bs[k]| <= 1999)
    && (forall k :: 0 <= k < |bs| - 1 ==> |bs[k]| >= 1000)
  }

  ghost predicate FullBatches(bs: seq<seq<Cell>>) {
    forall k :: 0 <= k < |bs| ==> INPUTS_SOFT_LIMIT <= |bs[k]| < 2 * INPUTS_SOFT_LIMIT
  }

  /** One user's cells, chunk by chunk; what is pending goes out as a batch as soon as it reaches the limit. */
  function Split(cells: seq<Cell>, pending: seq<Cell>, bs: seq<seq<Cell>>): (seq<seq<Cell>>, seq<Cell>)
    decreases |cells|
  {
    if cells == [] then (bs, pending)
    else
      var n := if INPUTS_SOFT_LIMIT < |cells| then INPUTS_SOFT_LIMIT else |cells|;
      var more := pending + cells[..n];
      if |more| >= INPUTS_SOFT_LIMIT then Split(cells[n..], [], bs + [more])
      else Split(cells[n..], more, bs)
  }

  /** The first batch of a turn takes up to 1000 of the user's cells besides the pending ones, the others just 1000. */
  lemma {:induction false} SplitSizes(cells: seq<Cell>, pending: seq<Cell>, bs: seq<seq<Cell>>)
    requires |pending| < 1000
    ensures var (cs, rest) := Split(cells, pending, bs);
            && |bs| <= |cs| && |rest| < 1000
            && (|cs| > |bs| <==> |pending| + (if |cells| < 1000 then |cells| else 1000) >= 1000)
            && (|cs| > |bs| ==> |cs[|bs|]| == |pending| + (if |cells| < 1000 then |cells| else 1000))
            && (forall k :: |bs| < k < |cs| ==> |cs[k]| == 1000)
    decreases |cells|
  {
    SplitExtends(cells, pending, bs);
    if cells != [] {
      var n := if 1000 < |cells| then 1000 else |cells|;
      var more := pending + cells[..n];
      if |more| >= 1000 {
        SplitSizes(cells[n..], [], bs + [more]);
        SplitExtends(cells[n..], [], bs + [more]);
      } else {
        assert cells[n..] == [];
      }
    }
  }

  /** The batches sent and the cells pending after these users. */
  function AfterTurns(ts: seq<Turn>): (seq<seq<Cell>>, seq<Cell>) {
    if ts == [] then ([], [])
    else
      var (bs, pending) := AfterTurns(ts[..|ts| - 1]);
      Split(ts[|ts| - 1].Cells(), pending, bs)
  }

  function BatchesOf(ts: seq<Turn>): seq<seq<Cell>> {
    var (bs, pending) := AfterTurns(ts);
    if pending == [] then bs else bs + [pending]
  }

  /** Every batch covers its fee. */
  ghost predicate Payable(bs: seq<seq<Cell>>) {
    forall k :: 0 <= k < |bs| ==> CoversFee(bs[k])
  }

  predicate CoversFee(cs: seq<Cell>) {
    Sum(cs) >= |cs| * FEE_PER_INPUT
  }

  ghost predicate Built(txs: seq<Tx>, bs: seq<seq<Cell>>) {
    |txs| == |bs| && Payable(bs) && forall k :: 0 <= k < |txs| ==> txs[k] == CollectTx(bs[k])
  }

  lemma {:induction false} SplitExtends(cells: seq<Cell>, pending: seq<Cell>, bs: seq<seq<Cell>>)
    ensures bs <= Split(cells, pending, bs).0
    decreases |cells|
  {
    if cells != [] {
      var n := if INPUTS_SOFT_LIMIT < |cells| then INPUTS_SOFT_LIMIT else |cells|;
      var more := pending + cells[..n];
      if |more| >= INPUTS_SOFT_LIMIT {
        SplitExtends(cells[n..], [], bs + [more]);
      } else {
        SplitExtends(cells[n..], more, bs);
      }
    }
  }

  lemma {:induction false} PrefixPayable(part: seq<seq<Cell>>, whole: seq<seq<Cell>>)
    requires part <= whole && Payable(whole)
    ensures Payable(part)
  {
    assert forall k :: 0 <= k < |part| ==> part[k] == whole[k];
  }

  method CollectUser(cells: seq<Cell>, pending0: seq<Cell>, txs0: seq<Tx>, bs0: seq<seq<Cell>>)
    returns (ok: bool, pending: seq<Cell>, txs: seq<Tx>, bs: seq<seq<Cell>>)
    requires Built(txs0, bs0)
    ensures ok <==> Payable(Split(cells, pending0, bs0).0)
    ensures ok ==> (bs, pending) == Split(cells, pending0, bs0) && Built(txs, bs)
  {
    pending, txs, bs := pending0, txs0, bs0;
    var k := 0;
    assert cells[0..] == cells;
    while k < |cells|
      invariant k <= |cells| && Built(txs, bs)
      invariant Split(cells[k..], pending, bs) == Split(cells, pending0, bs0)
    {
      var end := if k + INPUTS_SOFT_LIMIT < |cells| then k + INPUTS_SOFT_LIMIT else |cells|;
      assert cells[k..][..end - k] == cells[k..end] && cells[k..][end - k..] == cells[end..];
      pending := pending + cells[k..end];
      k := end;
      if |pending| >= INPUTS_SOFT_LIMIT {
        SplitExtends(cells[k..], [], bs + [pending]);
        var tx := CollectInputs(pending);
        if tx == None {
          assert !CoversFee((bs + [pending])[|bs|]);
          ok := false;
          return;
        }
        txs, bs, pending := txs + [tx.value], bs + [pending], [];
      }
    }
    ok := true;
  }

  method CollectAll(ts: seq<Turn>) returns (ok: bool, txs: seq<Tx>, bs: seq<seq<Cell>>)
    ensures ok <==> Payable(BatchesOf(ts))
    ensures ok ==> bs == BatchesOf(ts) && Built(txs, bs)
  {
    hide CollectTx, CoversFee, Split, Sum;
    var pending: seq<Cell> := [];
    txs, bs := [], [];
    var i := 0;
    while i < |ts|
      invariant i <= |ts| && (bs, pending) == AfterTurns(ts[..i]) && Built(txs, bs)
    {
      var liveCells := GetSpendableCells(ts[i].indexer, ts[i].args, ts[i].chain);
      assert ts[..i + 1][..i] == ts[..i];
      ok, pending, txs, bs := CollectUser(liveCells, pending, txs, bs);
      i := i + 1;
      if !ok {
        TurnsExtend(ts, i);
        return;
      }
    }
    assert ts[..i] == ts;
    if pending != [] {
      var tx := CollectInputs(pending);
      if tx == None {
        assert !CoversFee((bs + [pending])[|bs|]);
        ok := false;
        return;
      }
      txs, bs := txs + [tx.value], bs + [pending];
    }
    ok := true;
  }

  lemma {:induction false} TurnsExtend(ts: seq<Turn>, i: nat)
    requires i <= |ts|
    ensures AfterTurns(ts[..i]).0 <= AfterTurns(ts).0
    ensures Payable(BatchesOf(ts)) ==> Payable(AfterTurns(ts[..i]).0)
    decreases |ts|
  {
    hide CoversFee, Split;
    if i < |ts| {
      var init := ts[..|ts| - 1];
      assert init[..i] == ts[..i];
      TurnsExtend(init, i);
      var (bs, pending) := AfterTurns(init);
      SplitExtends(ts[|ts| - 1].Cells(), pending, bs);
    } else {
      assert ts[..i] == ts;
    }
    if Payable(BatchesOf(ts)) {
      PrefixPayable(AfterTurns(ts[..i]).0, BatchesOf(ts));
    }
  }

  lemma {:induction false} SplitKeeps(cells: seq<Cell>, pending: seq<Cell>, bs: seq<seq<Cell>>)
    requires |pending| < INPUTS_SOFT_LIMIT && FullBatches(bs)
    ensures var (cs, rest) := Split(cells, pending, bs);
            |rest| < INPUTS_SOFT_LIMIT && FullBatches(cs) && Flatten(cs) + rest == Flatten(bs) + pending + cells
    decreases |cells|
  {
    if cells == [] {
      assert Flatten(bs) + pending + cells == Flatten(bs) + pending;
    } else {
      var n := if INPUTS_SOFT_LIMIT < |cells| then INPUTS_SOFT_LIMIT else |cells|;
      var more := pending + cells[..n];
      assert Flatten(bs) + more + cells[n..] == Flatten(bs) + pending + cells;
      if |more| >= INPUTS_SOFT_LIMIT {
        FlattenMore(bs, more);
        SplitKeeps(cells[n..], [], bs + [more]);
        assert Flatten(bs + [more]) + [] == Flatten(bs) + more;
      } else {
        SplitKeeps(cells[n..], more, bs);
      }
    }
  }

  lemma {:induction false} TurnsKeep(ts: seq<Turn>)
    ensures var (bs, pending) := AfterTurns(ts);
            |pending| < INPUTS_SOFT_LIMIT && FullBatches(bs) && Flatten(bs) + pending == AllCells(ts)
    decreases |ts|
  {
    if ts != [] {
      TurnsKeep(ts[..|ts| - 1]);
      var (bs, pending) := AfterTurns(ts[..|ts| - 1]);
      SplitKeeps(ts[|ts| - 1].Cells(), pending, bs);
    }
  }

  lemma {:induction false} LastBatch(bs: seq<seq<Cell>>, pending: seq<Cell>, cells: seq<Cell>)
    requires |pending| < INPUTS_SOFT_LIMIT && FullBatches(bs) && Flatten(bs) + pending == cells
    ensures IsBatching(if pending == [] then bs else bs + [pending], cells)
  {
    FlattenMore(bs, pending);
    hide Flatten;
    if pending == [] {
      assert Flatten(bs) + pending == Flatten(bs);
    }
  }

  lemma {:induction false} BatchesAreBatching(ts: seq<Turn>)
    ensures IsBatching(BatchesOf(ts), AllCells(ts))
  {
    hide AfterTurns, AllCells, Flatten, FullBatches, IsBatching, Split;
    TurnsKeep(ts);
    var (bs, pending) := AfterTurns(ts);
    LastBatch(bs, pending, AllCells(ts));
  }

  // ---------------------------------------------------------------- end to end

  lemma {:induction false} BatchIsSlice(bs: seq<seq<Cell>>, k: nat) returns (before: seq<Cell>, after: seq<Cell>)
    requires k < |bs|
    ensures Flatten(bs) == before + bs[k] + after
    decreases |bs|
  {
    var last := |bs| - 1;
    assert bs == bs[..last] + [bs[last]];
    FlattenMore(bs[..last], bs[last]);
    if k == last {
      before, after := Flatten(bs[..last]), [];
      assert before + bs[k] + [] == before + bs[k];
    } else {
      before, after := BatchIsSlice(bs[..last], k);
      assert before + bs[k] + after + bs[last] == before + bs[k] + (after + bs[last]);
      after := after + bs[last];
    }
  }

  lemma {:induction false} SliceIsContiguous(a: seq<Lock>, b: seq<Lock>, c: seq<Lock>)
    requires Contiguous(a + b + c)
    ensures Contiguous(b)
  {
    var all, n := a + b + c, |a|;
    forall i, j, k | 0 <= i <= j <= k < |b| && b[i] == b[k]
      ensures b[j] == b[i]
    {
      assert all[n + i] == b[i] && all[n + j] == b[j] && all[n + k] == b[k];
    }
  }

  /** How many cells have the lock. */
  function SameLock(cs: seq<Cell>, l: Lock): nat {
    |set i | 0 <= i < |cs| && cs[i].lock == l|
  }

  lemma {:induction false} SameLockMore(cs: seq<Cell>, last: Cell, l: Lock)
    ensures SameLock(cs + [last], l) == SameLock(cs, l) + (if last.lock == l then 1 else 0)
  {
    var all := cs + [last];
    var before := set i | 0 <= i < |cs| && cs[i].lock == l;
    assert (set i | 0 <= i < |all| && all[i].lock == l) == if last.lock == l then before + {|cs|} else before;
  }

  lemma {:induction false} CountOne(x: Lock, l: Lock)
    ensures Count([x], l) == if x == l then 1 else 0
  {
    assert [x][1..] == [];
  }

  lemma {:induction false} CountIsSameLock(cs: seq<Cell>, l: Lock)
    ensures Count(Locks(cs), l) == SameLock(cs, l)
    decreases |cs|
  {
    if cs != [] {
      hide Count, SameLock;
      var init, last := cs[..|cs| - 1], cs[|cs| - 1];
      assert cs == init + [last];
      CountIsSameLock(init, l);
      LocksConcat(init, [last]);
      assert Locks([last]) == [last.lock];
      CountConcat(Locks(init), [last.lock], l);
      CountOne(last.lock, l);
      SameLockMore(init, last, l);
    }
  }

  /** The witness that input j needs: a signature over its whole group if it is the first of it. */
  ghost predicate IsWitnessOf(batch: seq<Cell>, j: nat, w: Witness)
    requires j < |batch|
  {
    var l := batch[j].lock;
    if forall i :: 0 <= i < j ==> batch[i].lock != l then w == Signature(l, SameLock(batch, l)) else w == Placeholder
  }

  lemma {:induction false} AlignedWitnesses(batch: seq<Cell>, ws: seq<Witness>, j: nat)
    requires Aligned(Locks(batch), ws) && j < |batch|
    ensures |ws| == |batch| && IsWitnessOf(batch, j, ws[j])
  {
    var ls := Locks(batch);
    CountIsSameLock(batch, ls[j]);
    assert forall i :: 0 <= i < |batch| ==> ls[i] == batch[i].lock;
    assert ls[j] in ls[..j] <==> exists i :: 0 <= i < j && ls[i] == ls[j];
  }

  lemma {:induction false} BatchIsContiguous(ts: seq<Turn>, k: nat)
    requires DistinctUsers(ts) && k < |BatchesOf(ts)|
    ensures Contiguous(Locks(BatchesOf(ts)[k]))
  {
    var bs := BatchesOf(ts);
    AllIsContiguous(ts);
    BatchesAreBatching(ts);
    var before, after := BatchIsSlice(bs, k);
    LocksConcat(before, bs[k]);
    LocksConcat(before + bs[k], after);
    SliceIsContiguous(Locks(before), Locks(bs[k]), Locks(after));
  }

  /**
   End to end: when the users' addresses are distinct, every transaction spends the cells of its batch in order, and
   each input has the witness that its script group looks for there, although users and scripts share batches.
   */
  lemma {:induction false} EveryBatchIsAligned(ts: seq<Turn>, k: nat)
    requires DistinctUsers(ts) && Payable(BatchesOf(ts)) && k < |BatchesOf(ts)|
    ensures var batch := BatchesOf(ts)[k];
            var tx := CollectTx(batch);
            && Contiguous(Locks(batch))
            && |tx.inputs| == |tx.witnesses| == |batch|
            && forall j :: 0 <= j < |batch| ==>
                 tx.inputs[j] == batch[j].outPoint && IsWitnessOf(batch, j, tx.witnesses[j])
  {
    hide AfterTurns, BatchesOf, DistinctUsers, IsWitnessOf, Witnesses;
    var batch := BatchesOf(ts)[k];
    BatchIsContiguous(ts, k);
    ContiguousIsAligned(Locks(batch));
    var tx := CollectTx(batch);
    forall j | 0 <= j < |batch|
      ensures IsWitnessOf(batch, j, tx.witnesses[j])
    {
      AlignedWitnesses(batch, tx.witnesses, j);
    }
  }

  /** The out-points that the transactions spend, in order. */
  function AllInputs(txs: seq<Tx>): seq<OutPoint> {
    if txs == [] then [] else AllInputs(txs[..|txs| - 1]) + txs[|txs| - 1].inputs
  }

  lemma {:induction false} InputsOfBatches(txs: seq<Tx>, bs: seq<seq<Cell>>)
    requires Built(txs, bs)
    ensures |AllInputs(txs)| == |Flatten(bs)|
    ensures forall k :: 0 <= k < |AllInputs(txs)| ==> AllInputs(txs)[k] == Flatten(bs)[k].outPoint
    decreases |bs|
  {
    if bs != [] {
      var init, last := bs[..|bs| - 1], bs[|bs| - 1];
      InputsOfBatches(txs[..|txs| - 1], init);
      assert bs == init + [last];
      FlattenMore(init, last);
      assert txs[|txs| - 1] == CollectTx(last);
    }
  }

  /** Together the transactions spend exactly the spendable cells of all users, once each and in order. */
  lemma {:induction false} AllCellsAreSpent(ts: seq<Turn>, txs: seq<Tx>)
    requires Built(txs, BatchesOf(ts))
    ensures |AllInputs(txs)| == |AllCells(ts)|
    ensures forall k :: 0 <= k < |AllCells(ts)| ==> AllInputs(txs)[k] == AllCells(ts)[k].outPoint
  {
    hide AfterTurns, AllCells, AllInputs, BatchesOf, Built;
    BatchesAreBatching(ts);
    InputsOfBatches(txs, BatchesOf(ts));
  }

  function OutputOf(tx: Tx): nat {
    tx.output
  }

  function Outputs(txs: seq<Tx>): nat {
    SumOf(txs, OutputOf)
  }

  /** What comes back to the owner is everything less a fixed fee for each cell. */
  lemma {:induction false} CollectConserves(txs: seq<Tx>, bs: seq<seq<Cell>>)
    requires Built(txs, bs)
    ensures Outputs(txs) + 1000 * |Flatten(bs)| == Sum(Flatten(bs))
    decreases |bs|
  {
    if bs != [] {
      CollectConserves(txs[..|txs| - 1], bs[..|bs| - 1]);
      var init, last := bs[..|bs| - 1], bs[|bs| - 1];
      assert bs == init + [last];
      FlattenMore(init, last);
      SumOfConcat(Flatten(init), last, CapacityOf);
    }
  }
}
