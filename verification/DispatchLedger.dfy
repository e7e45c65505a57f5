/** What every dispatching transaction pays out, read off its outputs, over all runs. */
module DispatchLedger {
  import opened Wrappers
  import opened Arithmetic
  import opened Sequences
  import opened Dispatch
  import opened DispatchTheorems

  function PaidBy(o: Output): nat {
    o.capacity
  }

  function ToUser(o: Output): nat {
    if o.lock.UserLock? then o.capacity else 0
  }

  predicate PaysOwner(tx: Tx) {
    tx.outputs != [] && tx.outputs[0].lock == OwnerLock
  }

  /** What goes back to the owner. */
  function Back(tx: Tx): nat {
    if PaysOwner(tx) then tx.outputs[0].capacity else 0
  }

  function Held(t: Sent): nat {
    SumOf(t.spent, CapacityOf)
  }

  /** What the cells spent hold beyond what the outputs pay. */
  function Burnt(t: Sent): nat {
    var paid := SumOf(t.tx.outputs, PaidBy);
    if Held(t) >= paid then Held(t) - paid else 0
  }

  function UserShare(t: Sent): nat {
    SumOf(t.tx.outputs, ToUser)
  }

  /**
   A transaction spends exactly its cells. At most output 0 is the owner's, and then of at least 67 bytes; there are at
   most 1000 others. The outputs and the fee of 1000 * 1000 are what the cells hold, unless the owner gets none: then
   less than 67 bytes are dropped.
   */
  ghost predicate Pays(t: Sent) {
    var os, paid := t.tx.outputs, SumOf(t.tx.outputs, PaidBy);
    && |t.tx.inputs| == |t.spent| && (forall k :: 0 <= k < |t.spent| ==> t.tx.inputs[k] == t.spent[k].outPoint)
    && (forall k :: 0 < k < |os| ==> os[k].lock.UserLock?)
    && |os| <= (if PaysOwner(t.tx) then 1001 else 1000)
    && if PaysOwner(t.tx) then paid + 1_000_000 == Held(t) && os[0].capacity >= 67 * 100_000_000
       else paid + 1_000_000 <= Held(t) < paid + 1_000_000 + 67 * 100_000_000
  }

  /** A cell is one of the owner's, or output 0 of a transaction sent. */
  ghost predicate IsKnown(c: Cell, cells: seq<Cell>, txs: seq<Sent>) {
    match c.outPoint
    case Minted(_) => c in cells
    case Change(tx) => PaysOwner(tx) && tx.outputs[0].capacity == c.capacity && WasSent(tx, txs)
  }

  ghost predicate WasSent(tx: Tx, txs: seq<Sent>) {
    exists i :: 0 <= i < |txs| && txs[i].tx == tx
  }

  ghost predicate AllKnown(cs: seq<Cell>, cells: seq<Cell>, txs: seq<Sent>) {
    forall k :: 0 <= k < |cs| ==> IsKnown(cs[k], cells, txs)
  }

  /** Every transaction pays out what it spends, and spends what is the owner's or change of an earlier one. */
  ghost predicate Sound(cells: seq<Cell>, txs: seq<Sent>) {
    forall i :: 0 <= i < |txs| ==> Pays(txs[i]) && AllKnown(txs[i].spent, cells, txs[..i])
  }

  /** The owner's capacity is what is left, what the users got, and what was burnt; `back` is change on the chain only. */
  ghost predicate Settled(cells: seq<Cell>, s: State, back: nat) {
    SumOf(cells, CapacityOf) == SumOf(s.liveCells, CapacityOf) + SumOf(s.inputs, CapacityOf) + SumOf(s.txs, UserShare) +
                                SumOf(s.txs, Burnt) + back
  }

  function SpentCells(txs: seq<Sent>): seq<Cell> {
    if txs == [] then [] else SpentCells(txs[..|txs| - 1]) + txs[|txs| - 1].spent
  }

  /** The cells in the order in which they are taken from the queue. */
  function Taken(s: State): seq<Cell> {
    SpentCells(s.txs) + s.inputs + s.liveCells
  }

  /** The owner's cells are taken first and in their order, change behind them. */
  ghost predicate Ledger(cells: seq<Cell>, s: State, back: nat) {
    && cells <= Taken(s)
    && Sound(cells, s.txs) && Settled(cells, s, back)
    && AllKnown(s.inputs, cells, s.txs) && AllKnown(s.liveCells, cells, s.txs)
  }

  // ---------------------------------------------------------------- one transaction

  lemma {:induction false} UserOutsPay(p: Params, a: nat, b: nat)
    requires a <= b <= p.TotalOuts()
    ensures SumOf(UserOuts(p, a, b), PaidBy) == SumOf(UserOuts(p, a, b), ToUser) == Product(b - a, p.capacityPerCell)
    ensures forall k :: 0 <= k < b - a ==> UserOuts(p, a, b)[k].lock.UserLock?
    decreases b
  {
    if a < b {
      UserOutsPay(p, a, b - 1);
    }
  }

  lemma {:induction false} BalancedPays(p: Params, inputs: seq<Cell>, iOut: nat, t: Sent)
    requires iOut <= p.TotalOuts() && Balanced(p, inputs, iOut, t)
    ensures Pays(t) && t.spent == inputs
    ensures Held(t) == UserShare(t) + Back(t.tx) + Burnt(t)
    ensures PaysOwner(t.tx) <==> t.change >= CHANGE_MIN
    ensures PaysOwner(t.tx) ==> Back(t.tx) == t.change
  {
    hide UserOuts;
    var change, users := ChangeOuts(t.change), UserOuts(p, iOut, iOut + t.nOuts);
    UserOutsPay(p, iOut, iOut + t.nOuts);
    SumOfConcat(change, users, PaidBy);
    SumOfConcat(change, users, ToUser);
    if t.change >= CHANGE_MIN {
      SumOfOne(Output(t.change, OwnerLock), PaidBy);
      SumOfOne(Output(t.change, OwnerLock), ToUser);
    } else {
      assert change + users == users;
    }
  }

  // ---------------------------------------------------------------- one round

  lemma {:induction false} KnownMore(cs: seq<Cell>, cells: seq<Cell>, txs: seq<Sent>, t: Sent)
    requires AllKnown(cs, cells, txs)
    ensures AllKnown(cs, cells, txs + [t])
  {
    forall k | 0 <= k < |cs|
      ensures IsKnown(cs[k], cells, txs + [t])
    {
      assert IsKnown(cs[k], cells, txs);
      if cs[k].outPoint.Change? {
        var i :| 0 <= i < |txs| && txs[i].tx == cs[k].outPoint.tx;
        assert (txs + [t])[i].tx == cs[k].outPoint.tx;
      }
    }
  }

  lemma {:induction false} SoundMore(cells: seq<Cell>, txs: seq<Sent>, t: Sent)
    requires Sound(cells, txs) && Pays(t) && AllKnown(t.spent, cells, txs)
    ensures Sound(cells, txs + [t])
  {
    hide Pays, AllKnown;
    var all := txs + [t];
    forall i | 0 <= i < |all|
      ensures Pays(all[i]) && AllKnown(all[i].spent, cells, all[..i])
    {
      assert all[..i] == txs[..i];
      if i == |txs| {
        assert txs[..i] == txs;
      }
    }
  }

  lemma {:induction false} TakeKnown(s: State, cells: seq<Cell>)
    requires s.liveCells != [] && AllKnown(s.inputs, cells, s.txs) && AllKnown(s.liveCells, cells, s.txs)
    ensures AllKnown(s.inputs + [s.liveCells[0]], cells, s.txs) && AllKnown(s.liveCells[1..], cells, s.txs)
  {
  }

  lemma {:induction false} WaitingLedger(cells: seq<Cell>, s: State)
    requires Ledger(cells, s, 0) && s.liveCells != []
    ensures Ledger(cells, Waiting(s), 0)
  {
    hide AllKnown, Sound;
    SumMoves(s.inputs, s.liveCells);
    TakeKnown(s, cells);
    assert Taken(Waiting(s)) == Taken(s);
  }

  lemma {:induction false} SendingLedger(p: Params, cells: seq<Cell>, s: State, t: Sent)
    requires Ledger(cells, s, 0) && s.liveCells != [] && s.iOut <= p.TotalOuts()
    requires Balanced(p, s.inputs + [s.liveCells[0]], s.iOut, t)
    ensures Ledger(cells, Sending(s, t), Back(t.tx))
  {
    assert SumOf([], CapacityOf) == 0;
    hide AllKnown, Balanced, Burnt, Pays, Sound, SpentCells, SumOf, UserShare;
    var inputs := s.inputs + [s.liveCells[0]];
    TakeKnown(s, cells);
    BalancedPays(p, inputs, s.iOut, t);
    SoundMore(cells, s.txs, t);
    KnownMore(s.liveCells[1..], cells, s.txs, t);
    SumMoves(s.inputs, s.liveCells);
    SumOfConcat(s.txs, [t], UserShare);
    SumOfConcat(s.txs, [t], Burnt);
    SumOfOne(t, UserShare);
    SumOfOne(t, Burnt);
    NoneKnown(cells, s.txs + [t]);
    SendingTakes(s, t);
  }

  lemma {:induction false} SendingTakes(s: State, t: Sent)
    requires s.liveCells != [] && t.spent == s.inputs + [s.liveCells[0]]
    ensures Taken(Sending(s, t)) == Taken(s)
  {
    assert (s.txs + [t])[..|s.txs|] == s.txs;
    assert s.liveCells == [s.liveCells[0]] + s.liveCells[1..];
  }

  lemma {:induction false} KnownConcat(a: seq<Cell>, b: seq<Cell>, cells: seq<Cell>, txs: seq<Sent>)
    requires AllKnown(a, cells, txs) && AllKnown(b, cells, txs)
    ensures AllKnown(a + b, cells, txs)
  {
  }

  lemma {:induction false} ChangeIsKnown(cells: seq<Cell>, txs: seq<Sent>, t: Sent)
    requires txs != [] && txs[|txs| - 1] == t && PaysOwner(t.tx) && Back(t.tx) == t.change
    ensures AllKnown([Cell(Change(t.tx), t.change)], cells, txs)
  {
    assert WasSent(t.tx, txs);
  }

  lemma {:induction false} NoneKnown(cells: seq<Cell>, txs: seq<Sent>)
    ensures AllKnown([], cells, txs)
  {
  }

  /** Change that is put back is output 0 of the transaction. */
  lemma {:induction false} PuttingBackLedger(cells: seq<Cell>, s: State, t: Sent)
    requires s.txs != [] && s.txs[|s.txs| - 1] == t && PaysOwner(t.tx) && Back(t.tx) == t.change
    requires Ledger(cells, s, t.change)
    ensures Ledger(cells, s.(liveCells := s.liveCells + [Cell(Change(t.tx), t.change)]), 0)
  {
    hide AllKnown, Back, PaysOwner, Sound, SpentCells, SumOf;
    var c := Cell(Change(t.tx), t.change);
    ChangeIsKnown(cells, s.txs, t);
    KnownConcat(s.liveCells, [c], cells, s.txs);
    SumOfConcat(s.liveCells, [c], CapacityOf);
    SumOfOne(c, CapacityOf);
    assert SpentCells(s.txs) + s.inputs + (s.liveCells + [c]) == SpentCells(s.txs) + s.inputs + s.liveCells + [c];
  }

  lemma {:induction false} NextLedger(p: Params, cells: seq<Cell>, s: State, accepts: Tx -> bool)
    requires Ledger(cells, s, 0) && s.liveCells != [] && s.iOut <= p.TotalOuts()
    ensures match Next(p, s, accepts)
            case More(t) => Ledger(cells, t, 0)
            case Done(t) => t.txs != [] && Ledger(cells, t, Back(t.txs[|t.txs| - 1].tx))
            case _ => true
  {
    hide Ledger, Balanced, Next, Spend;
    var sent := NextShape(p, s, accepts);
    if sent.None? {
      WaitingLedger(cells, s);
    } else {
      var t := sent.value;
      SendingLedger(p, cells, s, t);
      BalancedPays(p, s.inputs + [s.liveCells[0]], s.iOut, t);
      if PaysOwner(t.tx) {
        PuttingBackLedger(cells, Sending(s, t), t);
      }
    }
  }

  // ---------------------------------------------------------------- all runs

  lemma {:induction false} InitialLedger(cells: seq<Cell>)
    requires FreshCells(cells)
    ensures Ledger(cells, Initial(cells), 0)
  {
    assert forall k :: 0 <= k < |cells| ==> cells[k].outPoint.Minted? && cells[k] in cells;
    assert Taken(Initial(cells)) == cells;
  }

  lemma {:induction false} EveryStateLedger(p: Params, cells: seq<Cell>, s: State, accepts: Tx -> bool, n: nat)
    requires Ledger(cells, s, 0) && s.iOut <= p.TotalOuts()
    ensures match After(p, s, accepts, n) case Some(t) => Ledger(cells, t, 0) case None => true
    decreases n
  {
    hide Ledger, Next;
    if n > 0 && s.liveCells != [] {
      NextAdvances(p, s, accepts);
      NextLedger(p, cells, s, accepts);
      match Next(p, s, accepts)
      case More(t) => EveryStateLedger(p, cells, t, accepts, n - 1);
      case _ =>
    }
  }

  lemma {:induction false} RunLedger(p: Params, cells: seq<Cell>, s: State, accepts: Tx -> bool)
    requires Ledger(cells, s, 0) && s.iOut <= p.TotalOuts()
    ensures match Run(p, s, accepts)
            case Finished(t) => Ledger(cells, t, 0) || (t.txs != [] && Ledger(cells, t, Back(t.txs[|t.txs| - 1].tx)))
            case Short(t) => Ledger(cells, t, 0)
            case _ => true
    decreases p.TotalOuts() - s.iOut, |s.liveCells|
  {
    hide Ledger, Next;
    if s.liveCells != [] {
      NextAdvances(p, s, accepts);
      NextLedger(p, cells, s, accepts);
      match Next(p, s, accepts)
      case More(t) => RunLedger(p, cells, t, accepts);
      case _ =>
    }
  }

  /** In every reachable state the transactions' own outputs account for the owner's capacity. */
  lemma {:induction false} ReachableLedger(p: Params, cells: seq<Cell>, accepts: Tx -> bool, n: nat)
    requires FreshCells(cells)
    ensures match After(p, Initial(cells), accepts, n) case Some(t) => Ledger(cells, t, 0) case None => true
  {
    InitialLedger(cells);
    EveryStateLedger(p, cells, Initial(cells), accepts, n);
  }

  /** And in every final one, whether dispatching finished or fell short. */
  lemma {:induction false} FinalLedger(p: Params, cells: seq<Cell>, accepts: Tx -> bool)
    requires FreshCells(cells)
    ensures match DispatchSpec(p, cells, accepts)
            case Finished(t) => Ledger(cells, t, 0) || (t.txs != [] && Ledger(cells, t, Back(t.txs[|t.txs| - 1].tx)))
            case Short(t) => Ledger(cells, t, 0)
            case _ => true
  {
    InitialLedger(cells);
    RunLedger(p, cells, Initial(cells), accepts);
  }
}
