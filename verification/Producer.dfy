/** From live cells to benchmark transactions (ckb-bench/src/bench.rs). */
module Producer {
  import opened Sequences
  import opened Wrappers

  type Lock = nat
  type User = nat

  datatype OutPoint = OutPoint(txHash: nat, index: nat)

  datatype Cell = Cell(outPoint: OutPoint, lock: Lock, capacity: nat, txIndex: nat, blockNumber: nat)

  datatype Variant = ViaData | ViaType | ViaData1

  datatype Output = Output(capacity: nat, user: User, via: Variant)

  /** A signed transaction: witness k is a signature of signers[k]. */
  datatype Tx = Tx(inputs: seq<OutPoint>, since: nat, outputs: seq<Output>, signers: seq<User>)

  const FEE := 1000

  // ---------------------------------------------------------------- the two maps

  /** The cells held back, and those that were let go. */
  datatype State = State(live: map<Lock, Cell>, backlogs: map<OutPoint, Cell>, dropped: multiset<Cell>)

  const START := State(map[], map[], multiset{})

  function Insert(s: State, c: Cell): State {
    if c.lock !in s.live then s.(live := s.live[c.lock := c])
    else if s.live[c.lock].outPoint == c.outPoint then
      s.(backlogs := s.backlogs[c.outPoint := c],
         dropped := if c.outPoint in s.backlogs then s.dropped + multiset{s.backlogs[c.outPoint]} else s.dropped)
    else s.(dropped := s.dropped + multiset{c})
  }

  /** How many inputs a transaction has. */
  function BatchSize(n: nat): nat {
    if n == 0 then 1 else n
  }

  predicate IsFull(s: State, n: nat) {
    |s.live| >= n
  }

  /** Each cell is under its own lock; each backlogged one has the out-point of the live cell with its lock. */
  ghost predicate Keyed(s: State) {
    && (forall l :: l in s.live ==> s.live[l].lock == l)
    && (forall p :: p in s.backlogs ==>
          s.backlogs[p].outPoint == p && s.backlogs[p].lock in s.live && s.live[s.backlogs[p].lock].outPoint == p)
  }

  ghost predicate Inv(s: State, n: nat) {
    Keyed(s) && |s.live| < BatchSize(n)
  }

  /** Does the backlog hold a second cell for lock l? */
  predicate IsBacklogged(s: State, l: Lock) {
    l in s.live && s.live[l].outPoint in s.backlogs && s.backlogs[s.live[l].outPoint].lock == l
  }

  /** After a flush the backlogged cells are the live ones. */
  function Flushed(s: State): State {
    State(map l | l in s.live && IsBacklogged(s, l) :: s.backlogs[s.live[l].outPoint], map[], s.dropped)
  }

  function Next(s: State, c: Cell, n: nat): State {
    var s1 := Insert(s, c);
    if IsFull(s1, n) then Flushed(s1) else s1
  }

  /** The batch that receiving c completes, if any. */
  function Batch(s: State, c: Cell, n: nat): Option<map<Lock, Cell>> {
    var s1 := Insert(s, c);
    if IsFull(s1, n) then Some(s1.live) else None
  }

  function After(cs: seq<Cell>, n: nat): State {
    if cs == [] then START else Next(After(cs[..|cs| - 1], n), cs[|cs| - 1], n)
  }

  /** The batches of a run, in order. */
  function Batches(cs: seq<Cell>, n: nat): seq<map<Lock, Cell>> {
    if cs == [] then []
    else
      var before, last := cs[..|cs| - 1], cs[|cs| - 1];
      match Batch(After(before, n), last, n)
      case None => Batches(before, n)
      case Some(b) => Batches(before, n) + [b]
  }

  lemma {:induction false} FlushedIsSmaller(s: State, l: Lock)
    requires l in s.live && !IsBacklogged(s, l)
    ensures |Flushed(s).live| < |s.live|
  {
    SubsetSize(Flushed(s).live.Keys, s.live.Keys - {l});
  }

  lemma {:induction false} SubsetSize<T>(a: set<T>, b: set<T>)
    requires a <= b
    ensures |a| <= |b|
  {
    assert b == a + (b - a);
  }

  lemma {:induction false} InsertKeyed(s: State, c: Cell)
    requires Keyed(s)
    ensures Keyed(Insert(s, c))
  {
  }

  lemma {:induction false} FlushedKeyed(s: State)
    requires Keyed(s)
    ensures Keyed(Flushed(s))
  {
  }

  /** Only a cell with a new lock completes a batch, and then to exactly the asked size. */
  lemma {:induction false} FullMeansNew(s: State, c: Cell, n: nat)
    requires |s.live| < BatchSize(n) && IsFull(Insert(s, c), n)
    ensures c.lock !in s.live && |Insert(s, c).live| == BatchSize(n)
  {
    assert s.live.Keys == {} || |s.live.Keys| > 0;
    if c.lock !in s.live {
      assert Insert(s, c).live.Keys == s.live.Keys + {c.lock};
    }
  }

  /** Receiving a cell keeps the invariant, and a batch has exactly the asked number of inputs. */
  lemma {:induction false} NextInv(s: State, c: Cell, n: nat)
    requires Inv(s, n)
    ensures Inv(Next(s, c, n), n)
    ensures Batch(s, c, n).Some? ==> |Batch(s, c, n).value| == BatchSize(n) && Next(s, c, n).backlogs == map[]
  {
    var s1 := Insert(s, c);
    InsertKeyed(s, c);
    if IsFull(s1, n) {
      FullMeansNew(s, c, n);
      FlushedKeyed(s1);
      assert !IsBacklogged(s1, c.lock);
      FlushedIsSmaller(s1, c.lock);
    }
  }

  ghost predicate AllFrom(s: State, cs: seq<Cell>) {
    && (forall l :: l in s.live ==> s.live[l] in cs)
    && (forall p :: p in s.backlogs ==> s.backlogs[p] in cs)
  }

  ghost predicate BatchOk(b: map<Lock, Cell>, cs: seq<Cell>, n: nat) {
    |b| == BatchSize(n) && forall l :: l in b ==> b[l].lock == l && b[l] in cs
  }

  lemma {:induction false} NextFrom(s: State, cs: seq<Cell>, c: Cell, n: nat)
    requires AllFrom(s, cs)
    ensures AllFrom(Insert(s, c), cs + [c]) && AllFrom(Next(s, c, n), cs + [c])
  {
    assert forall d :: d in cs + [c] <==> d in cs || d == c;
  }

  /** Over all runs the invariant holds, and what is held was received. */
  lemma {:induction false} RunInv(cs: seq<Cell>, n: nat)
    ensures Inv(After(cs, n), n) && AllFrom(After(cs, n), cs)
    decreases |cs|
  {
    if cs != [] {
      var before, last := cs[..|cs| - 1], cs[|cs| - 1];
      assert cs == before + [last];
      RunInv(before, n);
      NextInv(After(before, n), last, n);
      NextFrom(After(before, n), before, last, n);
    }
  }

  lemma {:induction false} BatchIsOk(s: State, cs: seq<Cell>, c: Cell, n: nat)
    requires Inv(s, n) && AllFrom(s, cs)
    ensures var b := Batch(s, c, n); b.Some? ==> BatchOk(b.value, cs + [c], n)
  {
    NextInv(s, c, n);
    InsertKeyed(s, c);
    NextFrom(s, cs, c, n);
  }

  /** Over all runs, every batch has exactly the asked size, and one cell a lock. */
  lemma {:induction false} BatchesOk(cs: seq<Cell>, n: nat)
    ensures forall i :: 0 <= i < |Batches(cs, n)| ==> BatchOk(Batches(cs, n)[i], cs, n)
    decreases |cs|
  {
    if cs != [] {
      var before, last := cs[..|cs| - 1], cs[|cs| - 1];
      assert cs == before + [last];
      BatchesOk(before, n);
      RunInv(before, n);
      BatchIsOk(After(before, n), before, last, n);
      forall i | 0 <= i < |Batches(before, n)|
        ensures BatchOk(Batches(before, n)[i], cs, n)
      {
        assert BatchOk(Batches(before, n)[i], before, n);
      }
    }
  }

  // ---------------------------------------------------------------- conservation

  function Held(s: State): multiset<Cell> {
    multiset(s.live.Values) + multiset(s.backlogs.Values)
  }

  function Spent(bs: seq<map<Lock, Cell>>): multiset<Cell> {
    if bs == [] then multiset{} else Spent(bs[..|bs| - 1]) + multiset(bs[|bs| - 1].Values)
  }

  lemma {:induction false} ValuesGrow<K>(m: map<K, Cell>, k: K, c: Cell)
    requires c !in m.Values && k !in m
    ensures multiset(m[k := c].Values) == multiset(m.Values) + multiset{c}
  {
    assert m[k := c].Values == m.Values + {c} by {
      assert forall v :: v in m[k := c].Values ==> v in m.Values + {c};
      assert m[k := c][k] == c;
      assert forall j :: j in m ==> m[k := c][j] == m[j];
    }
  }

  lemma {:induction false} ValuesReplaced<K>(m: map<K, Cell>, k: K, c: Cell)
    requires k in m && (forall j :: j in m && j != k ==> m[j] != c && m[j] != m[k])
    ensures multiset(m[k := c].Values) + multiset{m[k]} == multiset(m.Values) + multiset{c}
  {
    var rest := m - {k};
    assert m == rest[k := m[k]] && m[k := c] == rest[k := c];
    ValuesGrow(rest, k, m[k]);
    ValuesGrow(rest, k, c);
  }

  lemma {:induction false} InsertConserves(s: State, c: Cell)
    requires Keyed(s)
    ensures Held(Insert(s, c)) + Insert(s, c).dropped == Held(s) + s.dropped + multiset{c}
  {
    if c.lock !in s.live {
      ValuesGrow(s.live, c.lock, c);
    } else if s.live[c.lock].outPoint == c.outPoint {
      if c.outPoint in s.backlogs {
        ValuesReplaced(s.backlogs, c.outPoint, c);
      } else {
        ValuesGrow(s.backlogs, c.outPoint, c);
      }
    }
  }

  lemma {:induction false} FlushedHolds(s: State)
    requires Keyed(s)
    ensures Held(s) == multiset(s.live.Values) + Held(Flushed(s)) && Flushed(s).dropped == s.dropped
  {
    var f := Flushed(s);
    assert f.live.Values == s.backlogs.Values by {
      forall c | c in s.backlogs.Values
        ensures c in f.live.Values
      {
        assert c.lock in f.live && f.live[c.lock] == c;
      }
    }
    assert multiset(f.backlogs.Values) == multiset{};
  }

  /** Every cell received is spent, held or dropped, and counted once. */
  lemma {:induction false} RunConserves(cs: seq<Cell>, n: nat)
    ensures multiset(cs) == Spent(Batches(cs, n)) + Held(After(cs, n)) + After(cs, n).dropped
  {
    if cs == [] {
      assert multiset(START.live.Values) == multiset{} && multiset(START.backlogs.Values) == multiset{};
    } else {
      var before, last := cs[..|cs| - 1], cs[|cs| - 1];
      assert multiset(cs) == multiset(before) + multiset{last} by {
        assert cs == before + [last];
      }
      RunConserves(before, n);
      RunInv(before, n);
      NextConserves(After(before, n), last, n);
      SpentMore(cs, n);
      var s, t := After(before, n), After(cs, n);
      Rearranged(Spent(Batches(before, n)), Held(s), s.dropped, multiset{last},
                 Held(t), t.dropped, CellsOf(Batch(s, last, n)));
    }
  }

  lemma {:induction false} Rearranged(a: multiset<Cell>, h: multiset<Cell>, d: multiset<Cell>, c: multiset<Cell>,
                   k: multiset<Cell>, e: multiset<Cell>, m: multiset<Cell>)
    requires h + d + c == k + e + m
    ensures a + h + d + c == a + m + k + e
  {
    forall x
      ensures (a + h + d + c)[x] == (a + m + k + e)[x]
    {
      assert (h + d + c)[x] == (k + e + m)[x];
    }
  }

  function CellsOf(b: Option<map<Lock, Cell>>): multiset<Cell> {
    match b case None => multiset{} case Some(m) => multiset(m.Values)
  }

  lemma {:induction false} SpentMore(cs: seq<Cell>, n: nat)
    requires cs != []
    ensures var before, last := cs[..|cs| - 1], cs[|cs| - 1];
            Spent(Batches(cs, n)) == Spent(Batches(before, n)) + CellsOf(Batch(After(before, n), last, n))
  {
    var before, last := cs[..|cs| - 1], cs[|cs| - 1];
    var bs := Batches(before, n);
    match Batch(After(before, n), last, n)
    case None => assert Batches(cs, n) == bs;
    case Some(b) => assert (bs + [b])[..|bs|] == bs;
  }

  lemma {:induction false} NextConserves(s: State, c: Cell, n: nat)
    requires Keyed(s)
    ensures var t := Next(s, c, n);
            Held(s) + s.dropped + multiset{c} == Held(t) + t.dropped + CellsOf(Batch(s, c, n))
  {
    InsertConserves(s, c);
    InsertKeyed(s, c);
    FlushedHolds(Insert(s, c));
  }

  // ---------------------------------------------------------------- what is let go, and what comes back

  /** Receiving a cell lets go of it exactly when another cell holds its lock, and of an earlier copy in the backlog. */
  lemma {:induction false} DroppedExactly(s: State, c: Cell, n: nat)
    requires Keyed(s)
    ensures Next(s, c, n).dropped == s.dropped +
              (if c.lock in s.live && s.live[c.lock].outPoint != c.outPoint then multiset{c}
               else if c.lock in s.live && c.outPoint in s.backlogs then multiset{s.backlogs[c.outPoint]}
               else multiset{})
  {
    assert s.dropped + multiset{} == s.dropped;
  }

  /** Until a batch is full every cell let in is in it or behind it: the first of its lock, then its repetition. */
  lemma {:induction false} HeldExactly(s: State, c: Cell, n: nat)
    requires Keyed(s) && Batch(s, c, n) == None
    ensures var t := Next(s, c, n);
            && (c.lock !in s.live ==> t.live == s.live[c.lock := c] && t.backlogs == s.backlogs)
            && (c.lock in s.live ==> t.live == s.live)
            && (c.lock in s.live && s.live[c.lock].outPoint == c.outPoint ==> t.backlogs == s.backlogs[c.outPoint := c])
            && (c.lock in s.live && s.live[c.lock].outPoint != c.outPoint ==> t.backlogs == s.backlogs)
  {
  }

  /** After a batch exactly the repetitions are live again. */
  lemma {:induction false} RepetitionsComeBack(s: State, c: Cell, n: nat, p: OutPoint)
    requires Inv(s, n) && Batch(s, c, n).Some?
    ensures Batch(s, c, n) == Some(s.live[c.lock := c]) && c.lock !in s.live
    ensures var t := Next(s, c, n);
            && t.backlogs == map[]
            && (p in s.backlogs ==> s.backlogs[p].lock in t.live && t.live[s.backlogs[p].lock] == s.backlogs[p])
            && (forall l :: l in t.live ==>
                  t.live[l].outPoint in s.backlogs && s.backlogs[t.live[l].outPoint] == t.live[l])
  {
    FullMeansNew(s, c, n);
    var s1 := Insert(s, c);
    if p in s.backlogs {
      assert IsBacklogged(s1, s.backlogs[p].lock);
    }
  }

  // ---------------------------------------------------------------- distinct out-points

  ghost predicate Distinct(cs: seq<Cell>) {
    forall i, j :: 0 <= i < j < |cs| ==> cs[i].outPoint != cs[j].outPoint
  }

  /** An out-point belongs to one cell. */
  ghost predicate Coherent(cs: seq<Cell>) {
    forall i, j :: 0 <= i < |cs| && 0 <= j < |cs| && cs[i].outPoint == cs[j].outPoint ==> cs[i] == cs[j]
  }

  /** The backlog then is part of the live cells. */
  lemma {:induction false} BacklogIsSubmap(cs: seq<Cell>, n: nat)
    requires Coherent(cs)
    ensures var s := After(cs, n);
            forall p :: p in s.backlogs ==> s.backlogs[p].lock in s.live && s.live[s.backlogs[p].lock] == s.backlogs[p]
  {
    RunInv(cs, n);
    var s := After(cs, n);
    forall p | p in s.backlogs
      ensures s.live[s.backlogs[p].lock] == s.backlogs[p]
    {
      assert s.backlogs[p] in cs && s.live[s.backlogs[p].lock] in cs;
    }
  }

  /** When no out-point is received twice, nothing is ever backlogged ... */
  lemma {:induction false} NoBacklog(cs: seq<Cell>, n: nat)
    requires Distinct(cs)
    ensures After(cs, n).backlogs == map[]
  {
    if cs != [] {
      var before, last := cs[..|cs| - 1], cs[|cs| - 1];
      NoBacklog(before, n);
      RunInv(before, n);
      var s := After(before, n);
      if last.lock in s.live {
        assert s.live[last.lock] in before;
      }
    }
  }

  /** ... and nothing is spent twice, neither by two transactions nor by one. */
  lemma {:induction false} NoDoubleSpend(cs: seq<Cell>, n: nat, c: Cell, d: Cell)
    requires Distinct(cs) && c.outPoint == d.outPoint
    ensures var spent := Spent(Batches(cs, n)); c in spent && d in spent ==> c == d && spent[c] == 1
  {
    RunConserves(cs, n);
    var spent := Spent(Batches(cs, n));
    if c in spent && d in spent {
      assert c in multiset(cs) && d in multiset(cs);
      var i :| 0 <= i < |cs| && cs[i] == c;
      var j :| 0 <= j < |cs| && cs[j] == d;
      OnceEach(cs, i);
    }
  }

  lemma {:induction false} OnceEach(cs: seq<Cell>, i: nat)
    requires Distinct(cs) && i < |cs|
    ensures multiset(cs)[cs[i]] == 1
  {
    assert cs == cs[..i] + [cs[i]] + cs[i + 1..];
    assert cs[i] !in cs[..i] && cs[i] !in cs[i + 1..];
  }

  // ---------------------------------------------------------------- transactions

  /** vs lists the cells of m, each once, in the order of some iteration. */
  ghost predicate Lists(vs: seq<Cell>, m: map<Lock, Cell>) {
    && |vs| == |m|
    && (forall i :: 0 <= i < |vs| ==> vs[i].lock in m && m[vs[i].lock] == vs[i])
    && (forall i, j :: 0 <= i < j < |vs| ==> vs[i].lock != vs[j].lock)
  }

  function CapacityOf(c: Cell): nat {
    c.capacity
  }

  function PaidBy(o: Output): nat {
    o.capacity
  }

  function VariantOf(txIndex: nat, data1: bool): Variant {
    match txIndex % 3
    case 0 => ViaData
    case 1 => ViaType
    case _ => if data1 then ViaData1 else ViaData
  }

  /** tx spends the cells vs in their order; every output pays the user `payee`, whoever owned its input. */
  ghost predicate Spends(tx: Tx, vs: seq<Cell>, users: map<Lock, User>, payee: User, data1: bool, since: nat) {
    && tx.since == since && |tx.inputs| == |tx.outputs| == |tx.signers| == |vs|
    && forall k :: 0 <= k < |vs| ==>
         && tx.inputs[k] == vs[k].outPoint
         && vs[k].capacity >= FEE && vs[k].lock in users && tx.signers[k] == users[vs[k].lock]
         && tx.outputs[k] == Output(vs[k].capacity - FEE, payee, VariantOf(vs[k].txIndex, data1))
  }

  lemma {:induction false} FeesAreFixed(tx: Tx, vs: seq<Cell>, users: map<Lock, User>, payee: User, data1: bool,
                                        since: nat)
    requires Spends(tx, vs, users, payee, data1, since)
    ensures SumOf(vs, CapacityOf) == SumOf(tx.outputs, PaidBy) + 1000 * |vs|
    decreases |vs|
  {
    if vs != [] {
      var n := |vs| - 1;
      FeesAreFixed(Tx(tx.inputs[..n], since, tx.outputs[..n], tx.signers[..n]), vs[..n], users, payee, data1, since);
    }
  }

  /** Which lock script of the payee an output gets is the remainder of the spent cell's transaction index by 3. */
  ghost predicate ViaOf(via: Variant, txIndex: nat, data1: bool) {
    && (txIndex % 3 == 0 ==> via == ViaData)
    && (txIndex % 3 == 1 ==> via == ViaType)
    && (txIndex % 3 == 2 ==> via == if data1 then ViaData1 else ViaData)
  }

  /** Input, output and signature k are all of cell k. */
  lemma {:induction false} OutputsFollowInputs(tx: Tx, vs: seq<Cell>, users: map<Lock, User>, payee: User, data1: bool,
                                               since: nat, k: nat)
    requires Spends(tx, vs, users, payee, data1, since) && k < |vs|
    ensures |tx.inputs| == |tx.outputs| == |tx.signers| == |vs| && tx.inputs[k] == vs[k].outPoint
    ensures tx.outputs[k].capacity + 1000 == vs[k].capacity && tx.outputs[k].user == payee
    ensures ViaOf(tx.outputs[k].via, vs[k].txIndex, data1)
    ensures vs[k].lock in users && tx.signers[k] == users[vs[k].lock]
  {
  }

  /** A cell can be spent: its lock is a user's, and it covers the fee. */
  ghost predicate Spendable(c: Cell, users: map<Lock, User>) {
    c.lock in users && c.capacity >= FEE
  }

  lemma {:induction false} RequeueIsFlush(s: State, cells: seq<Cell>, live: map<Lock, Cell>)
    requires Keyed(s) && forall c :: c in cells <==> c in s.backlogs.Values
    requires live.Keys == set i | 0 <= i < |cells| :: cells[i].lock
    requires forall i :: 0 <= i < |cells| ==> cells[i].lock in live && live[cells[i].lock] == cells[i]
    ensures live == Flushed(s).live
  {
    forall l
      ensures l in live <==> l in Flushed(s).live
      ensures l in live ==> live[l] == Flushed(s).live[l]
    {
      if IsBacklogged(s, l) {
        assert s.backlogs[s.live[l].outPoint] in cells;
      }
      if l in live {
        var i :| 0 <= i < |cells| && cells[i].lock == l;
        assert cells[i] in s.backlogs.Values;
      }
    }
  }

  class TransactionProducer {
    const users: map<Lock, User>
    const nInout: nat
    const data1: bool
    const since: nat
    var liveCells: map<Lock, Cell>
    var backlogs: map<OutPoint, Cell>
    ghost var dropped: multiset<Cell>

    ghost function Now(): State
      reads this
    {
      State(liveCells, backlogs, dropped)
    }

    constructor (users: map<Lock, User>, nInout: nat, data1: bool, since: nat)
      ensures this.users == users && this.nInout == nInout && this.data1 == data1 && this.since == since
      ensures Now() == START
    {
      this.users, this.nInout, this.data1, this.since := users, nInout, data1, since;
      liveCells, backlogs, dropped := map[], map[], multiset{};
    }

    method Hold(c: Cell)
      modifies this
      ensures Now() == Insert(old(Now()), c)
    {
      if c.lock in liveCells {
        if liveCells[c.lock].outPoint == c.outPoint {
          dropped := if c.outPoint in backlogs then dropped + multiset{backlogs[c.outPoint]} else dropped;
          backlogs := backlogs[c.outPoint := c];
        } else {
          dropped := dropped + multiset{c};
        }
      } else {
        liveCells := liveCells[c.lock := c];
      }
    }

    /** Builds and signs the transaction of a batch that the cell `received` completed; `vs` are the cells it spends. */
    method Build(batch: map<Lock, Cell>, received: Cell) returns (tx: Tx, vs: seq<Cell>)
      requires received.lock in users
      requires forall l :: l in batch ==> batch[l].lock == l && Spendable(batch[l], users)
      ensures Lists(vs, batch) && Spends(tx, vs, users, users[received.lock], data1, since)
    {
      var cells := ValuesOf(batch);
      var inputs, outputs, signers := [], [], [];
      var k := 0;
      while k < |cells|
        invariant k <= |cells|
        invariant Spends(Tx(inputs, since, outputs, signers), cells[..k], users, users[received.lock], data1, since)
      {
        var cell := cells[k];
        inputs := inputs + [cell.outPoint];
        outputs := outputs + [Output(cell.capacity - FEE, users[received.lock], VariantOf(cell.txIndex, data1))];
        signers := signers + [users[cell.lock]];
        k := k + 1;
      }
      assert cells[..k] == cells;
      return Tx(inputs, since, outputs, signers), cells;
    }

    /** Puts the backlogged cells back after a flush. */
    method Requeue(ghost live: map<Lock, Cell>)
      requires Keyed(State(live, backlogs, dropped)) && liveCells == map[]
      modifies this
      ensures Now() == Flushed(State(live, old(backlogs), old(dropped)))
    {
      ghost var s := State(live, backlogs, dropped);
      var cells := BacklogsOf(backlogs);
      backlogs := map[];
      var k := 0;
      while k < |cells|
        invariant k <= |cells| && backlogs == map[] && dropped == s.dropped
        invariant liveCells.Keys == set i | 0 <= i < k :: cells[i].lock
        invariant forall i :: 0 <= i < k ==> liveCells[cells[i].lock] == cells[i]
      {
        Hold(cells[k]);
        k := k + 1;
      }
      RequeueIsFlush(s, cells, liveCells);
    }

    /** One round of the loop: the transaction of the batch that the cell completes, if it does. */
    method Receive(ghost before: seq<Cell>, cell: Cell) returns (tx: Option<Tx>, ghost vs: seq<Cell>)
      requires Inv(Now(), nInout) && AllFrom(Now(), before) && Spendable(cell, users)
      requires forall c :: c in before ==> Spendable(c, users)
      modifies this
      ensures Now() == Next(old(Now()), cell, nInout)
      ensures var batch := Batch(old(Now()), cell, nInout);
              if batch.None? then tx == None
              else tx.Some? && Lists(vs, batch.value) && Spends(tx.value, vs, users, users[cell.lock], data1, since)
    {
      InsertKeyed(Now(), cell);
      BatchIsOk(Now(), before, cell, nInout);
      Hold(cell);
      vs := [];
      if |liveCells| < nInout {
        return None, vs;
      }
      var batch := liveCells;
      liveCells := map[];
      var built;
      built, vs := Build(batch, cell);
      tx := Some(built);
      Requeue(batch);
    }

    /** Transaction i spends the batch that received cell number `closer` completes, to the profit of that cell's user. */
    ghost predicate Sent(cells: seq<Cell>, i: nat, tx: Tx, vs: seq<Cell>, closer: nat)
    {
      && closer < |cells| && cells[closer].lock in users
      && |Batches(cells[..closer], nInout)| == i
      && Batch(After(cells[..closer], nInout), cells[closer], nInout).Some?
      && Lists(vs, Batch(After(cells[..closer], nInout), cells[closer], nInout).value)
      && Spends(tx, vs, users, users[cells[closer].lock], data1, since)
    }

    /**
     The receive loop, over everything the channel yields, until the channel of transactions is closed behind
     the first `accepts` of them. The inputs of transaction i are lists[i], completed by cell number closers[i].
     */
    method Run(cells: seq<Cell>, accepts: nat)
      returns (txs: seq<Tx>, ghost lists: seq<seq<Cell>>, ghost closers: seq<nat>)
      requires Now() == START
      requires forall i :: 0 <= i < |cells| ==> Spendable(cells[i], users)
      modifies this
      ensures |lists| == |closers| == |txs|
      ensures forall i :: 0 <= i < |txs| ==> Sent(cells, i, txs[i], lists[i], closers[i])
      ensures if |Batches(cells, nInout)| <= accepts
              then |txs| == |Batches(cells, nInout)| && Now() == After(cells, nInout)
              else |txs| == accepts
    {
      hide Spends, Lists, Next, Batch, Insert, IsFull, Inv, AllFrom;
      txs, lists, closers := [], [], [];
      var taken := 0;
      assert cells[..0] == [];
      while taken < |cells|
        invariant taken <= |cells| && |lists| == |closers| == |txs| <= accepts
        invariant Now() == After(cells[..taken], nInout)
        invariant |txs| == |Batches(cells[..taken], nInout)|
        invariant forall i :: 0 <= i < |txs| ==> Sent(cells, i, txs[i], lists[i], closers[i])
      {
        ghost var before := cells[..taken];
        assert cells[..taken + 1][..taken] == before;
        RunInv(before, nInout);
        var tx, vs := Receive(before, cells[taken]);
        if tx.Some? {
          if |txs| == accepts {
            BatchesGrow(cells, taken + 1, nInout);
            return;
          }
          assert Sent(cells, |txs|, tx.value, vs, taken);
          txs, lists, closers := txs + [tx.value], lists + [vs], closers + [taken];
        }
        taken := taken + 1;
      }
      assert cells[..taken] == cells;
    }
  }

  // ---------------------------------------------------------------- who is paid

  /** Every output pays the owner of the input with its index. */
  ghost predicate PaysOwners(tx: Tx, vs: seq<Cell>, users: map<Lock, User>) {
    |tx.outputs| == |vs| && forall k :: 0 <= k < |vs| ==> vs[k].lock in users && tx.outputs[k].user == users[vs[k].lock]
  }

  /** All cells belong to one user. */
  ghost predicate OneUser(b: map<Lock, Cell>, users: map<Lock, User>) {
    forall l, m :: l in b && m in b ==> l in users && m in users && users[l] == users[m]
  }

  lemma {:induction false} LockIsListed(vs: seq<Cell>, m: map<Lock, Cell>, l: Lock) returns (k: nat)
    requires Lists(vs, m) && l in m
    ensures k < |vs| && vs[k].lock == l
  {
    var locks := set i | 0 <= i < |vs| :: vs[i].lock;
    LocksCount(vs);
    assert locks <= m.Keys;
    if l !in locks {
      SubsetSize(locks, m.Keys - {l});
    }
    k :| k < |vs| && vs[k].lock == l;
  }

  lemma {:induction false} LocksCount(vs: seq<Cell>)
    requires forall i, j :: 0 <= i < j < |vs| ==> vs[i].lock != vs[j].lock
    ensures |set i | 0 <= i < |vs| :: vs[i].lock| == |vs|
    decreases |vs|
  {
    if vs != [] {
      var last := |vs| - 1;
      LocksCount(vs[..last]);
      assert (set i | 0 <= i < |vs| :: vs[i].lock) == (set i | 0 <= i < last :: vs[..last][i].lock) + {vs[last].lock};
    }
  }

  ghost predicate AllSpendable(cs: seq<Cell>, users: map<Lock, User>) {
    forall i :: 0 <= i < |cs| ==> Spendable(cs[i], users)
  }

  /** In every batch of the run all cells belong to one user. */
  ghost predicate RunPaysOwners(cs: seq<Cell>, users: map<Lock, User>, n: nat) {
    forall i :: 0 <= i < |Batches(cs, n)| ==> OneUser(Batches(cs, n)[i], users)
  }

  /** The cell that completes a batch is in it. */
  lemma {:induction false} CloserIsInBatch(s: State, c: Cell, n: nat)
    requires Inv(s, n)
    ensures var b := Batch(s, c, n); b.Some? ==> c.lock in b.value && b.value[c.lock] == c
  {
    if Batch(s, c, n).Some? {
      FullMeansNew(s, c, n);
    }
  }

  /** Outputs that all pay the owner of one cell of a batch pay everyone exactly when all cells are that user's. */
  lemma {:induction false} BatchIsPaid(tx: Tx, vs: seq<Cell>, b: map<Lock, Cell>, l: Lock, users: map<Lock, User>)
    requires Lists(vs, b) && l in b && l in users && |tx.outputs| == |vs|
    requires forall k :: 0 <= k < |vs| ==> tx.outputs[k].user == users[l]
    requires forall m :: m in b ==> m in users
    ensures PaysOwners(tx, vs, users) <==> OneUser(b, users)
  {
    if PaysOwners(tx, vs, users) {
      forall m | m in b
        ensures users[m] == users[l]
      {
        var k := LockIsListed(vs, b, m);
        assert tx.outputs[k].user == users[vs[k].lock];
      }
    }
    if OneUser(b, users) {
      forall k | 0 <= k < |vs|
        ensures tx.outputs[k].user == users[vs[k].lock]
      {
        assert vs[k].lock in b;
      }
    }
  }

  /** A transaction of a run pays the owners of its inputs exactly when they are one and the same user. */
  lemma {:induction false} PaysOwnersExactly(p: TransactionProducer, cells: seq<Cell>, i: nat, tx: Tx, vs: seq<Cell>,
                                             closer: nat)
    ensures p.Sent(cells, i, tx, vs, closer) ==>
              (PaysOwners(tx, vs, p.users) <==>
               OneUser(Batch(After(cells[..closer], p.nInout), cells[closer], p.nInout).value, p.users))
  {
    if p.Sent(cells, i, tx, vs, closer) {
      var s, c := After(cells[..closer], p.nInout), cells[closer];
      RunInv(cells[..closer], p.nInout);
      CloserIsInBatch(s, c, p.nInout);
      var b := Batch(s, c, p.nInout).value;
      forall m | m in b
        ensures m in p.users
      {
        var k := LockIsListed(vs, b, m);
      }
      BatchIsPaid(tx, vs, b, c.lock, p.users);
    }
  }

  /** The batch that a transaction spends is the run's batch of its number. */
  lemma {:induction false} SentSpendsBatch(p: TransactionProducer, cells: seq<Cell>, i: nat, tx: Tx, vs: seq<Cell>,
                                           closer: nat)
    ensures p.Sent(cells, i, tx, vs, closer) ==>
              i < |Batches(cells, p.nInout)| &&
              Batches(cells, p.nInout)[i] == Batch(After(cells[..closer], p.nInout), cells[closer], p.nInout).value
  {
    hide After, Batch, Insert, IsFull, Lists, Next, Spends;
    if p.Sent(cells, i, tx, vs, closer) {
      var upTo := cells[..closer + 1];
      assert upTo[..closer] == cells[..closer] && upTo[closer] == cells[closer];
      assert Batches(upTo, p.nInout)[i] == Batch(After(cells[..closer], p.nInout), cells[closer], p.nInout).value;
      BatchesGrow(cells, closer + 1, p.nInout);
    }
  }

  /** A whole run pays all owners exactly when each of its batches is of one user's cells. */
  lemma {:induction false} RunPaysOwnersExactly(p: TransactionProducer, cells: seq<Cell>, txs: seq<Tx>,
                                                lists: seq<seq<Cell>>, closers: seq<nat>)
    requires |txs| == |lists| == |closers|
    ensures |txs| == |Batches(cells, p.nInout)| &&
            (forall i :: 0 <= i < |txs| ==> p.Sent(cells, i, txs[i], lists[i], closers[i])) ==>
              ((forall i :: 0 <= i < |txs| ==> PaysOwners(txs[i], lists[i], p.users)) <==>
               RunPaysOwners(cells, p.users, p.nInout))
  {
    hide PaysOwners, OneUser, Batches;
    forall i | 0 <= i < |txs| && p.Sent(cells, i, txs[i], lists[i], closers[i]) && |txs| == |Batches(cells, p.nInout)|
      ensures PaysOwners(txs[i], lists[i], p.users) <==> OneUser(Batches(cells, p.nInout)[i], p.users)
    {
      PaysOwnersExactly(p, cells, i, txs[i], lists[i], closers[i]);
      SentSpendsBatch(p, cells, i, txs[i], lists[i], closers[i]);
    }
  }

  /** Two users, two inputs: one of them loses a cell to the other. */
  lemma {:induction false} PaysTheOtherUser(p: TransactionProducer, c: Cell, d: Cell, tx: Tx, vs: seq<Cell>)
    requires p.nInout == 2 && c.lock in p.users && d.lock in p.users && p.users[c.lock] != p.users[d.lock]
    ensures Batch(After([c], 2), d, 2) == Some(map[c.lock := c, d.lock := d])
    ensures !RunPaysOwners([c, d], p.users, 2)
    ensures p.Sent([c, d], 0, tx, vs, 1) ==> !PaysOwners(tx, vs, p.users)
  {
    assert [c, d][..1] == [c] && [c][..0] == [];
    assert After([], 2) == START;
    assert Insert(START, c).live == map[c.lock := c];
    assert After([c], 2) == Insert(START, c);
    assert Insert(After([c], 2), d).live == map[c.lock := c, d.lock := d];
    assert [c, d][..|[c, d]| - 1] == [c] && [c][..|[c]| - 1] == [];
    assert Batches([c], 2) == [];
    assert Batches([c, d], 2) == [map[c.lock := c, d.lock := d]];
    assert !OneUser(Batches([c, d], 2)[0], p.users);
    if p.Sent([c, d], 0, tx, vs, 1) {
      PaysOwnersExactly(p, [c, d], 0, tx, vs, 1);
    }
  }

  function ByLock(vs: seq<Cell>): map<Lock, Cell> {
    if vs == [] then map[] else ByLock(vs[..|vs| - 1])[vs[|vs| - 1].lock := vs[|vs| - 1]]
  }

  ghost predicate DistinctLocks(vs: seq<Cell>) {
    forall i, j :: 0 <= i < j < |vs| ==> vs[i].lock != vs[j].lock
  }

  lemma {:induction false} ByLockHas(vs: seq<Cell>, i: nat)
    requires i < |vs|
    ensures vs[i].lock in ByLock(vs)
    decreases |vs|
  {
    if i < |vs| - 1 {
      ByLockHas(vs[..|vs| - 1], i);
    }
  }

  lemma {:induction false} ByLockLacks(vs: seq<Cell>, l: Lock)
    requires forall i :: 0 <= i < |vs| ==> vs[i].lock != l
    ensures l !in ByLock(vs)
    decreases |vs|
  {
    if vs != [] {
      ByLockLacks(vs[..|vs| - 1], l);
    }
  }

  lemma {:induction false} ByLockSize(vs: seq<Cell>)
    requires DistinctLocks(vs)
    ensures |ByLock(vs)| == |vs|
    decreases |vs|
  {
    if vs != [] {
      var before, last := vs[..|vs| - 1], vs[|vs| - 1];
      ByLockSize(before);
      ByLockLacks(vs[..|vs| - 1], vs[|vs| - 1].lock);
      assert ByLock(vs).Keys == ByLock(before).Keys + {last.lock};
    }
  }

  lemma {:induction false} InsertNew(vs: seq<Cell>)
    requires vs != [] && DistinctLocks(vs)
    ensures var before := vs[..|vs| - 1];
            Insert(State(ByLock(before), map[], multiset{}), vs[|vs| - 1]) == State(ByLock(vs), map[], multiset{})
  {
    ByLockLacks(vs[..|vs| - 1], vs[|vs| - 1].lock);
  }

  /** Fewer cells than a batch, of different locks, are just held. */
  lemma {:induction false} HoldFew(vs: seq<Cell>, n: nat)
    requires |vs| < n && DistinctLocks(vs)
    ensures Batches(vs, n) == [] && After(vs, n) == State(ByLock(vs), map[], multiset{})
    decreases |vs|
  {
    if vs != [] {
      HoldFew(vs[..|vs| - 1], n);
      InsertNew(vs);
      ByLockSize(vs);
    }
  }

  /** One batch of them is sent. */
  lemma {:induction false} FillBatch(vs: seq<Cell>)
    requires vs != [] && DistinctLocks(vs)
    ensures Batches(vs, |vs|) == [ByLock(vs)]
  {
    HoldFew(vs[..|vs| - 1], |vs|);
    InsertNew(vs);
    ByLockSize(vs);
  }

  /** Cells of n locks, two of them given. */
  lemma {:induction false} SomeCells(users: map<Lock, User>, n: nat, l: Lock, m: Lock) returns (vs: seq<Cell>)
    requires 2 <= n <= |users| && l in users && m in users && l != m
    ensures |vs| == n && DistinctLocks(vs) && AllSpendable(vs, users) && vs[0].lock == l && vs[1].lock == m
  {
    if n == 2 {
      vs := [Cell(OutPoint(l, 0), l, FEE, 0, 0), Cell(OutPoint(m, 0), m, FEE, 0, 0)];
    } else {
      vs := SomeCells(users, n - 1, l, m);
      ByLockSize(vs);
      if users.Keys <= ByLock(vs).Keys {
        SubsetSize(users.Keys, ByLock(vs).Keys);
      }
      var k :| k in users && k !in ByLock(vs);
      forall i | 0 <= i < |vs|
        ensures vs[i].lock != k
      {
        ByLockHas(vs, i);
      }
      vs := vs + [Cell(OutPoint(k, 0), k, FEE, 0, 0)];
    }
  }

  /** No run can pay anyone but the owners: batches are of one cell, or never full, or there is one user only. */
  predicate IsHarmless(users: map<Lock, User>, n: nat) {
    n <= 1 || |users| < n || forall l, m :: l in users && m in users ==> users[l] == users[m]
  }

  lemma {:induction false} HarmlessPaysOwners(cs: seq<Cell>, users: map<Lock, User>, n: nat)
    requires IsHarmless(users, n) && AllSpendable(cs, users)
    ensures RunPaysOwners(cs, users, n)
  {
    BatchesOk(cs, n);
    forall i | 0 <= i < |Batches(cs, n)|
      ensures OneUser(Batches(cs, n)[i], users)
    {
      var b := Batches(cs, n)[i];
      assert BatchOk(b, cs, n);
      assert b.Keys <= users.Keys;
      SubsetSize(b.Keys, users.Keys);
      if n <= 1 {
        forall l, m | l in b && m in b
          ensures l == m
        {
          SubsetSize({l, m}, b.Keys);
        }
      }
    }
  }

  /** All runs pay the owners of the inputs exactly when that is so. */
  lemma {:induction false} OwnersPaidExactly(users: map<Lock, User>, n: nat)
    ensures (forall cs :: AllSpendable(cs, users) ==> RunPaysOwners(cs, users, n)) <==> IsHarmless(users, n)
  {
    if IsHarmless(users, n) {
      forall cs | AllSpendable(cs, users)
        ensures RunPaysOwners(cs, users, n)
      {
        HarmlessPaysOwners(cs, users, n);
      }
    } else {
      var l, m :| l in users && m in users && users[l] != users[m];
      var cs := SomeCells(users, n, l, m);
      FillBatch(cs);
      ByLockHas(cs, 0);
      ByLockHas(cs, 1);
      assert !OneUser(Batches(cs, n)[0], users);
    }
  }

  lemma {:induction false} BatchesGrow(cs: seq<Cell>, k: nat, n: nat)
    requires k <= |cs|
    ensures Batches(cs[..k], n) <= Batches(cs, n)
    decreases |cs|
  {
    if k < |cs| {
      assert cs[..|cs| - 1][..k] == cs[..k];
      BatchesGrow(cs[..|cs| - 1], k, n);
    } else {
      assert cs[..k] == cs;
    }
  }

  method ValuesOf(m: map<Lock, Cell>) returns (vs: seq<Cell>)
    requires forall l :: l in m ==> m[l].lock == l
    ensures Lists(vs, m)
  {
    vs := [];
    var rest := m.Keys;
    while rest != {}
      invariant rest <= m.Keys && |vs| + |rest| == |m|
      invariant forall i :: 0 <= i < |vs| ==> vs[i].lock in m.Keys - rest && m[vs[i].lock] == vs[i]
      invariant forall i, j :: 0 <= i < j < |vs| ==> vs[i].lock != vs[j].lock
      decreases |rest|
    {
      var l :| l in rest;
      vs, rest := vs + [m[l]], rest - {l};
    }
  }

  method BacklogsOf(m: map<OutPoint, Cell>) returns (vs: seq<Cell>)
    requires forall p, q :: p in m && q in m && p != q ==> m[p].lock != m[q].lock
    ensures forall c :: c in vs <==> c in m.Values
    ensures forall i, j :: 0 <= i < j < |vs| ==> vs[i].lock != vs[j].lock
  {
    vs := [];
    var rest := m.Keys;
    while rest != {}
      invariant rest <= m.Keys
      invariant forall i :: 0 <= i < |vs| ==> exists p :: p in m.Keys - rest && m[p] == vs[i]
      invariant forall p :: p in m.Keys - rest ==> m[p] in vs
      invariant forall i, j :: 0 <= i < j < |vs| ==> vs[i].lock != vs[j].lock
      decreases |rest|
    {
      var p :| p in rest;
      vs, rest := vs + [m[p]], rest - {p};
    }
  }

  // ---------------------------------------------------------------- the live cells sent on

  /** No out-point is repeated within n steps. */
  ghost predicate Spaced(cs: seq<Cell>, n: nat) {
    forall i, j :: 0 <= i < j < |cs| && cs[i].outPoint == cs[j].outPoint ==> j - i > n
  }

  /** Sends live cells on unless a cache of the out-points used last holds them. */
  class LiveCellProducer {
    const capacity: nat
    var seen: seq<OutPoint>
    ghost var sent: seq<Cell>

    /** The cache is what was sent last, the latest first. */
    ghost predicate Valid()
      reads this
    {
      && |seen| == (if |sent| < capacity then |sent| else capacity)
      && (forall k :: 0 <= k < |seen| ==> seen[k] == sent[|sent| - 1 - k].outPoint)
      && Spaced(sent, capacity)
    }

    constructor (nUsers: nat)
      ensures Valid() && sent == [] && capacity == nUsers + 10
    {
      capacity, seen, sent := nUsers + 10, [], [];
    }

    /** LruCache::put. */
    method Put(p: OutPoint)
      requires capacity > 0 && |seen| <= capacity
      modifies this`seen
      ensures p !in old(seen) ==>
                seen == [p] + (if |old(seen)| == capacity then old(seen)[..capacity - 1] else old(seen))
      ensures p in old(seen) ==>
                exists k :: 0 <= k < |old(seen)| && old(seen)[k] == p && p !in old(seen)[..k] &&
                            seen == [p] + old(seen)[..k] + old(seen)[k + 1..]
    {
      var k := 0;
      while k < |seen| && seen[k] != p
        invariant k <= |seen| && p !in seen[..k]
      {
        k := k + 1;
      }
      if k < |seen| {
        seen := [p] + seen[..k] + seen[k + 1..];
      } else if |seen| == capacity {
        seen := [p] + seen[..capacity - 1];
      } else {
        seen := [p] + seen;
      }
    }

    method Send(c: Cell)
      requires Valid() && capacity > 0 && c.outPoint !in seen
      modifies this
      ensures Valid() && sent == old(sent) + [c]
    {
      SpacedMore(sent, seen, c, capacity);
      Put(c.outPoint);
      sent := sent + [c];
    }

    /** One user's live cells: those filtered through are sent in order. */
    method SendCells(liveCells: seq<Cell>, minTip: nat)
      requires Valid() && capacity > 0 && Distinct(liveCells)
      modifies this
      ensures Valid()
      ensures sent == old(sent) + FreshOnes(liveCells, old(seen), minTip)
    {
      var news := FreshOnes(liveCells, seen, minTip);
      FreshAreDistinct(liveCells, seen, minTip);
      forall i | 0 <= i < |news|
        ensures news[i].outPoint !in seen
      {
        FreshAreAmong(liveCells, seen, minTip, news[i]);
      }
      var k := 0;
      assert old(sent) + news[..0] == old(sent);
      while k < |news|
        invariant k <= |news| && Valid() && sent == old(sent) + news[..k]
      {
        NotSeen(old(sent), old(seen), news, k, seen, capacity);
        Send(news[k]);
        assert sent == old(sent) + news[..k + 1];
        k := k + 1;
      }
      assert news[..k] == news;
    }
  }

  lemma {:induction false} SpacedMore(cs: seq<Cell>, seen: seq<OutPoint>, c: Cell, n: nat)
    requires Spaced(cs, n) && c.outPoint !in seen
    requires |seen| == if |cs| < n then |cs| else n
    requires forall k :: 0 <= k < |seen| ==> seen[k] == cs[|cs| - 1 - k].outPoint
    ensures Spaced(cs + [c], n)
  {
    assert forall i :: |cs| - |seen| <= i < |cs| ==> cs[i].outPoint == seen[|cs| - 1 - i];
  }

  function FreshOnes(cs: seq<Cell>, seen: seq<OutPoint>, minTip: nat): seq<Cell> {
    if cs == [] then []
    else if cs[0].outPoint !in seen && cs[0].blockNumber <= minTip then [cs[0]] + FreshOnes(cs[1..], seen, minTip)
    else FreshOnes(cs[1..], seen, minTip)
  }

  lemma {:induction false} FreshAreAmong(cs: seq<Cell>, seen: seq<OutPoint>, minTip: nat, c: Cell)
    requires c in FreshOnes(cs, seen, minTip)
    ensures c in cs && c.outPoint !in seen && c.blockNumber <= minTip
  {
    if c in FreshOnes(cs[1..], seen, minTip) {
      FreshAreAmong(cs[1..], seen, minTip, c);
    }
  }

  /** Live, not sent lately, and in a block that all nodes have. */
  ghost predicate IsFresh(c: Cell, seen: seq<OutPoint>, minTip: nat) {
    (forall i :: 0 <= i < |seen| ==> seen[i] != c.outPoint) && c.blockNumber <= minTip
  }

  lemma {:induction false} FreshSnoc(cs: seq<Cell>, c: Cell, seen: seq<OutPoint>, minTip: nat)
    ensures FreshOnes(cs + [c], seen, minTip) ==
              FreshOnes(cs, seen, minTip) + (if IsFresh(c, seen, minTip) then [c] else [])
  {
    if cs == [] {
      assert cs + [c] == [c] && [c][1..] == [];
    } else {
      assert (cs + [c])[1..] == cs[1..] + [c];
      FreshSnoc(cs[1..], c, seen, minTip);
    }
  }

  /** What is sent is exactly the fresh cells, in the order of the live ones: those at the positions `at`. */
  lemma {:induction false} FreshIsSubsequence(cs: seq<Cell>, seen: seq<OutPoint>, minTip: nat) returns (at: seq<nat>)
    ensures |at| == |FreshOnes(cs, seen, minTip)|
    ensures forall k :: 0 <= k < |at| ==> at[k] < |cs| && FreshOnes(cs, seen, minTip)[k] == cs[at[k]]
    ensures forall i, j :: 0 <= i < j < |at| ==> at[i] < at[j]
    ensures forall n :: 0 <= n < |cs| ==> (n in at <==> IsFresh(cs[n], seen, minTip))
    decreases |cs|
  {
    assert cs == [] ==> FreshOnes(cs, seen, minTip) == [];
    hide FreshOnes, IsFresh;
    at := [];
    if cs != [] {
      var init, last := cs[..|cs| - 1], cs[|cs| - 1];
      at := FreshIsSubsequence(init, seen, minTip);
      assert cs == init + [last];
      FreshSnoc(init, last, seen, minTip);
      if IsFresh(last, seen, minTip) {
        at := at + [|init|];
      }
    }
  }

  lemma {:induction false} FreshAreDistinct(cs: seq<Cell>, seen: seq<OutPoint>, minTip: nat)
    requires Distinct(cs)
    ensures Distinct(FreshOnes(cs, seen, minTip))
  {
    if cs != [] {
      var rest := FreshOnes(cs[1..], seen, minTip);
      FreshAreDistinct(cs[1..], seen, minTip);
      forall i | 0 <= i < |rest|
        ensures rest[i].outPoint != cs[0].outPoint
      {
        FreshAreAmong(cs[1..], seen, minTip, rest[i]);
      }
    }
  }

  lemma {:induction false} NotSeen(sent0: seq<Cell>, seen0: seq<OutPoint>, news: seq<Cell>, k: nat,
                                   seen: seq<OutPoint>, n: nat)
    requires k < |news| && Distinct(news) && (forall i :: 0 <= i < |news| ==> news[i].outPoint !in seen0)
    requires |seen0| == if |sent0| < n then |sent0| else n
    requires forall i :: 0 <= i < |seen0| ==> seen0[i] == sent0[|sent0| - 1 - i].outPoint
    requires |seen| == if |sent0| + k < n then |sent0| + k else n
    requires forall i :: 0 <= i < |seen| ==> seen[i] == (sent0 + news[..k])[|sent0| + k - 1 - i].outPoint
    ensures news[k].outPoint !in seen
  {
    forall i | 0 <= i < |seen|
      ensures seen[i] != news[k].outPoint
    {
      if i < k {
        assert seen[i] == news[k - 1 - i].outPoint;
      } else {
        assert seen[i] == seen0[i - k];
      }
    }
  }

  /** As long as not many more cells than the cache holds were sent, no out-point was sent twice. */
  lemma {:induction false} SpacedIsDistinct(cs: seq<Cell>, n: nat)
    requires Spaced(cs, n) && |cs| <= n + 1
    ensures Distinct(cs)
  {
  }
}
