/** What dispatching keeps, pays out and needs, over all runs. */
module DispatchTheorems {
  import opened Wrappers
  import opened Arithmetic
  import opened Sequences
  import opened Dispatch

  // ---------------------------------------------------------------- sums

  lemma {:induction false} SumOne(c: Cell)
    ensures Sum([c]) == c.capacity
  {
    SumOfOne(c, CapacityOf);
  }

  /** Taking the first live cell over to the inputs moves its capacity. */
  lemma {:induction false} SumMoves(inputs: seq<Cell>, live: seq<Cell>)
    requires live != []
    ensures Sum(inputs + [live[0]]) + Sum(live[1..]) == Sum(inputs) + Sum(live)
    ensures Sum(inputs + [live[0]]) == Sum(inputs) + live[0].capacity
  {
    assert live == [live[0]] + live[1..];
    SumOfConcat([live[0]], live[1..], CapacityOf);
    SumOfConcat(inputs, [live[0]], CapacityOf);
    SumOne(live[0]);
  }

  // ---------------------------------------------------------------- conservation

  function Dropped(change: nat): nat {
    if change < CHANGE_MIN then change else 0
  }

  function Kept(change: nat): nat {
    if change < CHANGE_MIN then 0 else change
  }

  /** Fees, and change too small to be an output. */
  function Lost(txs: seq<Sent>): nat {
    if txs == [] then 0 else Lost(txs[..|txs| - 1]) + FEE + Dropped(txs[|txs| - 1].change)
  }

  ghost predicate Conserved(p: Params, cells: seq<Cell>, s: State) {
    Sum(cells) == Sum(s.liveCells) + Sum(s.inputs) + Product(s.iOut, p.capacityPerCell) + Lost(s.txs)
  }

  // ---------------------------------------------------------------- allocation

  /** The outputs that do not go back to the owner. */
  function Paid(os: seq<Output>): seq<Output> {
    if os == [] then []
    else Paid(os[..|os| - 1]) + (if os[|os| - 1].lock == OwnerLock then [] else [os[|os| - 1]])
  }

  function AllPaid(txs: seq<Sent>): seq<Output> {
    if txs == [] then [] else AllPaid(txs[..|txs| - 1]) + Paid(txs[|txs| - 1].tx.outputs)
  }

  lemma {:induction false} PaidIsUserOuts(p: Params, change: nat, a: nat, b: nat)
    requires a <= b <= p.TotalOuts()
    ensures Paid(ChangeOuts(change) + UserOuts(p, a, b)) == UserOuts(p, a, b)
    decreases b
  {
    var os := ChangeOuts(change) + UserOuts(p, a, b);
    if a == b {
      assert os == ChangeOuts(change);
      assert ChangeOuts(change) != [] ==> ChangeOuts(change)[..0] == [];
    } else {
      assert os[..|os| - 1] == ChangeOuts(change) + UserOuts(p, a, b - 1);
      PaidIsUserOuts(p, change, a, b - 1);
    }
  }

  lemma {:induction false} UserOutsConcat(p: Params, a: nat, b: nat, c: nat)
    requires a <= b <= c <= p.TotalOuts()
    ensures UserOuts(p, a, b) + UserOuts(p, b, c) == UserOuts(p, a, c)
    decreases c
  {
    if b < c {
      UserOutsConcat(p, a, b, c - 1);
    }
  }

  // ---------------------------------------------------------------- no double spend

  function SpentPoints(txs: seq<Sent>): seq<OutPoint> {
    if txs == [] then [] else SpentPoints(txs[..|txs| - 1]) + txs[|txs| - 1].tx.inputs
  }

  /** All out-points spent, about to be, and still live. */
  function Ever(s: State): seq<OutPoint> {
    SpentPoints(s.txs) + Points(s.inputs) + Points(s.liveCells)
  }

  /** Change comes from transactions that were sent. */
  ghost predicate Sourced(ps: seq<OutPoint>, txs: seq<Sent>) {
    forall q :: q in ps && q.Change? ==> exists i :: 0 <= i < |txs| && txs[i].tx == q.tx
  }

  ghost predicate SpendSomething(txs: seq<Sent>) {
    forall i :: 0 <= i < |txs| ==> txs[i].tx.inputs != []
  }

  ghost predicate SpentOnce(s: State) {
    NoRepeat(Ever(s)) && Sourced(Ever(s), s.txs) && SpendSomething(s.txs)
  }

  lemma {:induction false} InputsAreSpent(txs: seq<Sent>, i: nat)
    requires i < |txs|
    ensures forall q :: q in txs[i].tx.inputs ==> q in SpentPoints(txs)
    decreases |txs|
  {
    if i < |txs| - 1 {
      InputsAreSpent(txs[..|txs| - 1], i);
    }
  }

  lemma {:induction false} EverMoves(s: State, inputs: seq<Cell>, rest: seq<Cell>)
    requires s.liveCells != [] && inputs == s.inputs + [s.liveCells[0]] && rest == s.liveCells[1..]
    ensures SpentPoints(s.txs) + Points(inputs) + Points(rest) == Ever(s)
  {
    assert Points(inputs) + Points(rest) == Points(s.inputs) + Points(s.liveCells);
    assert SpentPoints(s.txs) + Points(inputs) + Points(rest) == SpentPoints(s.txs) + (Points(inputs) + Points(rest));
  }

  /** A transaction that spends unspent out-points is a new one. */
  lemma {:induction false} TransactionIsNew(s: State, tx: Tx, rest: seq<OutPoint>)
    requires SpentOnce(s) && tx.inputs != [] && SpentPoints(s.txs) + tx.inputs + rest == Ever(s)
    ensures forall i :: 0 <= i < |s.txs| ==> s.txs[i].tx != tx
    ensures Change(tx) !in Ever(s)
  {
    var spent := SpentPoints(s.txs);
    forall i | 0 <= i < |s.txs|
      ensures s.txs[i].tx != tx
    {
      InputsAreSpent(s.txs, i);
      assert Ever(s)[|spent|] == tx.inputs[0];
      assert forall k :: 0 <= k < |spent| ==> Ever(s)[k] == spent[k];
      assert tx.inputs[0] !in spent;
    }
  }

  // ---------------------------------------------------------------- the invariant

  ghost predicate Inv(p: Params, cells: seq<Cell>, s: State) {
    && s.iOut <= p.TotalOuts()
    && Conserved(p, cells, s)
    && AllPaid(s.txs) == UserOuts(p, 0, s.iOut)
    && s.iOut <= MAX_OUT_COUNT * |s.txs|
    && (forall i :: 0 <= i < |s.txs| ==> s.txs[i].tx.inputs == Points(s.txs[i].spent))
    && SpentOnce(s)
  }

  /** The owner's cells before dispatching. */
  ghost predicate FreshCells(cells: seq<Cell>) {
    NoRepeat(Points(cells)) && forall i :: 0 <= i < |cells| ==> cells[i].outPoint.Minted?
  }

  lemma {:induction false} StartInv(p: Params, cells: seq<Cell>)
    requires FreshCells(cells)
    ensures Inv(p, cells, Initial(cells))
  {
    assert Ever(Initial(cells)) == Points(cells);
  }

  /** What a round that sends does, apart from putting change back. */
  function Sending(s: State, sent: Sent): State
    requires s.liveCells != []
  {
    State(s.liveCells[1..], [], s.iOut + sent.nOuts, s.txs + [sent])
  }

  /** Transaction `sent` spends `inputs`: what goes in comes out, to the users and as change, less the fee. */
  ghost predicate Balanced(p: Params, inputs: seq<Cell>, iOut: nat, sent: Sent) {
    && Sum(inputs) == FEE + Product(sent.nOuts, p.capacityPerCell) + sent.change
    && sent.nOuts <= MAX_OUT_COUNT && iOut + sent.nOuts <= p.TotalOuts()
    && (sent.nOuts > 0 || iOut == p.TotalOuts())
    && sent.spent == inputs && sent.tx.inputs == Points(inputs)
    && sent.tx.outputs == ChangeOuts(sent.change) + UserOuts(p, iOut, iOut + sent.nOuts)
  }

  lemma {:induction false} SpendBalances(p: Params, inputs: seq<Cell>, iOut: nat)
    requires iOut <= p.TotalOuts() && p.capacityPerCell > 0 && Sum(inputs) >= FEE
    ensures match Spend(p, inputs, iOut)
            case Some(sent) => Balanced(p, inputs, iOut, sent)
            case None => Sum(inputs) < FEE + p.capacityPerCell
  {
    QuotientFits(Sum(inputs) - FEE, p.capacityPerCell);
  }

  lemma {:induction false} SendingConserves(p: Params, cells: seq<Cell>, s: State, sent: Sent)
    requires Conserved(p, cells, s) && s.liveCells != []
    requires Balanced(p, s.inputs + [s.liveCells[0]], s.iOut, sent)
    ensures var t := Sending(s, sent);
            && Sum(cells) == Sum(t.liveCells) + Product(t.iOut, p.capacityPerCell) + Lost(t.txs) + Kept(sent.change)
            && Sum(t.liveCells + [Cell(Change(sent.tx), sent.change)]) == Sum(t.liveCells) + sent.change
  {
    var t := Sending(s, sent);
    SumMoves(s.inputs, s.liveCells);
    assert t.txs[..|s.txs|] == s.txs;
    ProductAdds(s.iOut, sent.nOuts, p.capacityPerCell);
    SumOfConcat(t.liveCells, [Cell(Change(sent.tx), sent.change)], CapacityOf);
    SumOne(Cell(Change(sent.tx), sent.change));
  }

  lemma {:induction false} SendingPays(p: Params, s: State, sent: Sent, inputs: seq<Cell>)
    requires s.liveCells != [] && Balanced(p, inputs, s.iOut, sent)
    requires AllPaid(s.txs) == UserOuts(p, 0, s.iOut) && s.iOut <= MAX_OUT_COUNT * |s.txs|
    ensures var t := Sending(s, sent);
            AllPaid(t.txs) == UserOuts(p, 0, t.iOut) && t.iOut <= MAX_OUT_COUNT * |t.txs|
  {
    hide Sum, Paid, UserOuts;
    var t := Sending(s, sent);
    assert t.txs[..|s.txs|] == s.txs;
    PaidIsUserOuts(p, sent.change, s.iOut, t.iOut);
    UserOutsConcat(p, 0, s.iOut, t.iOut);
  }

  lemma {:induction false} SendingSpendsOnce(s: State, sent: Sent)
    requires SpentOnce(s) && s.liveCells != [] && sent.tx.inputs == Points(s.inputs + [s.liveCells[0]])
    ensures SpentOnce(Sending(s, sent))
    ensures SpentOnce(Sending(s, sent).(liveCells := s.liveCells[1..] + [Cell(Change(sent.tx), sent.change)]))
  {
    var t := Sending(s, sent);
    var rest := Points(s.liveCells[1..]);
    EverMoves(s, s.inputs + [s.liveCells[0]], s.liveCells[1..]);
    assert t.txs[..|s.txs|] == s.txs;
    assert Ever(t) == Ever(s);
    TransactionIsNew(s, sent.tx, rest);
    forall q | q in Ever(s) && q.Change?
      ensures exists i :: 0 <= i < |t.txs| && t.txs[i].tx == q.tx
    {
      var i :| 0 <= i < |s.txs| && s.txs[i].tx == q.tx;
      assert t.txs[i] == s.txs[i];
    }
    var c := Cell(Change(sent.tx), sent.change);
    var u := t.(liveCells := s.liveCells[1..] + [c]);
    assert Points(u.liveCells) == rest + [c.outPoint];
    assert Ever(u) == Ever(s) + [c.outPoint];
    assert t.txs[|s.txs|].tx == sent.tx;
  }

  lemma {:induction false} SendingInv(p: Params, cells: seq<Cell>, s: State, sent: Sent)
    requires Inv(p, cells, s) && s.liveCells != [] && Balanced(p, s.inputs + [s.liveCells[0]], s.iOut, sent)
    ensures FinalInv(p, cells, Sending(s, sent)) && Inv(p, cells, SentOn(s, sent))
  {
    hide Lost, AllPaid, UserOuts, SpentOnce;
    SendingConserves(p, cells, s, sent);
    SendingPays(p, s, sent, s.inputs + [s.liveCells[0]]);
    SendingSpendsOnce(s, sent);
  }

  lemma {:induction false} WaitingInv(p: Params, cells: seq<Cell>, s: State)
    requires Inv(p, cells, s) && s.liveCells != []
    ensures Inv(p, cells, Waiting(s))
  {
    var inputs, rest := s.inputs + [s.liveCells[0]], s.liveCells[1..];
    SumMoves(s.inputs, s.liveCells);
    EverMoves(s, inputs, rest);
    assert Ever(Waiting(s)) == Ever(s);
  }

  /** The state after waiting for another input. */
  function Waiting(s: State): State
    requires s.liveCells != []
  {
    State(s.liveCells[1..], s.inputs + [s.liveCells[0]], s.iOut, s.txs)
  }

  /** The state after sending, with the change put back if it is large enough. */
  function SentOn(s: State, sent: Sent): State
    requires s.liveCells != []
  {
    var t := Sending(s, sent);
    if sent.change >= CHANGE_MIN then t.(liveCells := t.liveCells + [Cell(Change(sent.tx), sent.change)]) else t
  }

  /** What a round can do, by what it sends. */
  lemma {:induction false} NextShape(p: Params, s: State, accepts: Tx -> bool) returns (sent: Option<Sent>)
    requires s.liveCells != [] && s.iOut <= p.TotalOuts()
    ensures var inputs := s.inputs + [s.liveCells[0]];
            match sent
            case None => if Sum(inputs) >= FEE && p.capacityPerCell > 0
                         then Sum(inputs) < FEE + p.capacityPerCell && Next(p, s, accepts) == More(Waiting(s))
                         else Next(p, s, accepts) in {Underflow, DivideByZero}
            case Some(x) =>
              && Sum(inputs) >= FEE && p.capacityPerCell > 0 && Spend(p, inputs, s.iOut) == sent
              && Balanced(p, inputs, s.iOut, x)
              && Next(p, s, accepts) ==
                   if !accepts(x.tx) then Rejected
                   else if s.iOut + x.nOuts == p.TotalOuts() then Done(Sending(s, x))
                   else More(SentOn(s, x))
  {
    var inputs := s.inputs + [s.liveCells[0]];
    sent := None;
    if Sum(inputs) >= FEE && p.capacityPerCell > 0 {
      SpendBalances(p, inputs, s.iOut);
      sent := Spend(p, inputs, s.iOut);
    }
  }

  /** Every round keeps the invariant. */
  lemma {:induction false} NextInv(p: Params, cells: seq<Cell>, s: State, accepts: Tx -> bool)
    requires Inv(p, cells, s) && s.liveCells != []
    ensures match Next(p, s, accepts)
            case More(t) => Inv(p, cells, t)
            case Done(t) => t.iOut == p.TotalOuts() && FinalInv(p, cells, t)
            case _ => true
  {
    var sent := NextShape(p, s, accepts);
    if sent.None? {
      WaitingInv(p, cells, s);
    } else {
      SendingInv(p, cells, s, sent.value);
    }
  }

  /** As Inv, except that the last change may be on the chain only, not back in the queue. */
  ghost predicate FinalInv(p: Params, cells: seq<Cell>, s: State) {
    && s.txs != []
    && s.iOut <= p.TotalOuts()
    && Sum(cells) == Sum(s.liveCells) + Sum(s.inputs) + Product(s.iOut, p.capacityPerCell) + Lost(s.txs) +
                     Kept(s.txs[|s.txs| - 1].change)
    && AllPaid(s.txs) == UserOuts(p, 0, s.iOut)
    && s.iOut <= MAX_OUT_COUNT * |s.txs|
    && (forall i :: 0 <= i < |s.txs| ==> s.txs[i].tx.inputs == Points(s.txs[i].spent))
    && SpentOnce(s)
  }

  /** The state after n rounds, if the loop gets that far. */
  function After(p: Params, s: State, accepts: Tx -> bool, n: nat): Option<State>
    requires s.iOut <= p.TotalOuts()
    decreases n
  {
    if n == 0 then Some(s)
    else if s.liveCells == [] then None
    else
      NextAdvances(p, s, accepts);
      match Next(p, s, accepts)
      case More(t) => After(p, t, accepts, n - 1)
      case _ => None
  }

  /** Conservation, exact allocation so far and no double spend in every state reached from one that has them. */
  lemma {:induction false} EveryStateInv(p: Params, cells: seq<Cell>, s: State, accepts: Tx -> bool, n: nat)
    requires Inv(p, cells, s)
    ensures match After(p, s, accepts, n) case Some(t) => Inv(p, cells, t) case None => true
    decreases n
  {
    assert s.iOut <= p.TotalOuts();
    hide Inv, Next;
    if n > 0 && s.liveCells != [] {
      NextAdvances(p, s, accepts);
      NextInv(p, cells, s, accepts);
      match Next(p, s, accepts)
      case More(t) => EveryStateInv(p, cells, t, accepts, n - 1);
      case _ =>
    }
  }

  /** From the owner's cells on. */
  lemma {:induction false} ReachableStateInv(p: Params, cells: seq<Cell>, accepts: Tx -> bool, n: nat)
    requires FreshCells(cells)
    ensures match After(p, Initial(cells), accepts, n) case Some(t) => Inv(p, cells, t) case None => true
  {
    StartInv(p, cells);
    EveryStateInv(p, cells, Initial(cells), accepts, n);
  }

  lemma {:induction false} RunInv(p: Params, cells: seq<Cell>, s: State, accepts: Tx -> bool)
    requires Inv(p, cells, s)
    ensures match Run(p, s, accepts)
            case Finished(t) => t.iOut == p.TotalOuts() && (Inv(p, cells, t) || FinalInv(p, cells, t))
            case Short(t) => t.iOut < p.TotalOuts() && t.liveCells == [] && Inv(p, cells, t)
            case _ => true
    decreases p.TotalOuts() - s.iOut, |s.liveCells|
  {
    if s.liveCells != [] {
      NextAdvances(p, s, accepts);
      NextInv(p, cells, s, accepts);
      match Next(p, s, accepts)
      case More(t) => RunInv(p, cells, t, accepts);
      case _ =>
    }
  }

  // ---------------------------------------------------------------- every user's share

  /** How many outputs go to user u. */
  function CountFor(os: seq<Output>, u: nat): nat {
    if os == [] then 0
    else CountFor(os[..|os| - 1], u) + (if os[|os| - 1].lock == UserLock(u) then 1 else 0)
  }

  lemma {:induction false} QuotientAt(a: nat, c: nat, u: nat)
    requires c > 0
    ensures Quotient(a, c) == u <==> Product(u, c) <= a < Product(u, c) + c
  {
    var q := Quotient(a, c);
    QuotientFits(a, c);
    if q < u {
      ProductGrows(q + 1, u, c);
    } else if q > u {
      ProductGrows(u + 1, q, c);
    }
  }

  lemma {:induction false} ShareAfter(p: Params, b: nat, u: nat)
    requires b <= p.TotalOuts() && p.cellsPerUser > 0
    ensures var c, first := p.cellsPerUser, Product(u, p.cellsPerUser);
            CountFor(UserOuts(p, 0, b), u) == if b <= first then 0 else if b >= first + c then c else b - first
    ensures forall k :: 0 <= k < b ==> UserOuts(p, 0, b)[k].capacity == p.capacityPerCell
    decreases b
  {
    if b > 0 {
      ShareAfter(p, b - 1, u);
      QuotientAt(b - 1, p.cellsPerUser, u);
    }
  }

  lemma {:induction false} ShareOfEach(p: Params, u: nat)
    requires u < p.nUsers
    ensures CountFor(UserOuts(p, 0, p.TotalOuts()), u) == p.cellsPerUser
    ensures forall k :: 0 <= k < p.TotalOuts() ==> UserOuts(p, 0, p.TotalOuts())[k].capacity == p.capacityPerCell
  {
    if p.cellsPerUser > 0 {
      ProductGrows(u + 1, p.nUsers, p.cellsPerUser);
      ShareAfter(p, p.TotalOuts(), u);
    } else {
      ProductIs(p.nUsers, 0);
    }
  }

  /** Output k is of the asked capacity and belongs to user k / cells_per_user. */
  ghost predicate IsDue(p: Params, o: Output, k: nat) {
    p.cellsPerUser > 0 && o == Output(p.capacityPerCell, UserLock(k / p.cellsPerUser))
  }

  lemma {:induction false} UserOutsAreDue(p: Params, b: nat)
    requires b <= p.TotalOuts()
    ensures forall k :: 0 <= k < b ==> IsDue(p, UserOuts(p, 0, b)[k], k)
    decreases b
  {
    if b > 0 {
      UserOutsAreDue(p, b - 1);
      PerUserIsPositive(p);
      QuotientIs(b - 1, p.cellsPerUser);
    }
  }

  /**
   When dispatching finishes, every user index has got exactly its number of cells of exactly the asked
   capacity, output k being that of user k / cells_per_user, no out-point was spent twice, and the owner had at
   least what the outputs and fees cost.
   */
  lemma {:induction false} FinishedPaysEveryone(p: Params, cells: seq<Cell>, accepts: Tx -> bool, u: nat)
    requires FreshCells(cells) && u < p.nUsers && DispatchSpec(p, cells, accepts).Finished?
    ensures var t := DispatchSpec(p, cells, accepts).state;
            && |AllPaid(t.txs)| == p.TotalOuts()
            && CountFor(AllPaid(t.txs), u) == p.cellsPerUser
            && p.TotalOuts() == p.nUsers * p.cellsPerUser <= 1000 * |t.txs|
            && (forall k :: 0 <= k < |AllPaid(t.txs)| ==> IsDue(p, AllPaid(t.txs)[k], k))
            && NoRepeat(SpentPoints(t.txs))
            && Sum(cells) >= Product(p.TotalOuts(), p.capacityPerCell) + Lost(t.txs)
  {
    ProductIs(p.nUsers, p.cellsPerUser);
    UserOutsAreDue(p, p.TotalOuts());
    StartInv(p, cells);
    RunInv(p, cells, Initial(cells), accepts);
    ShareOfEach(p, u);
    var t := DispatchSpec(p, cells, accepts).state;
    forall i, j | 0 <= i < j < |SpentPoints(t.txs)|
      ensures SpentPoints(t.txs)[i] != SpentPoints(t.txs)[j]
    {
      assert Ever(t)[i] == SpentPoints(t.txs)[i] && Ever(t)[j] == SpentPoints(t.txs)[j];
    }
  }

  // ---------------------------------------------------------------- funds that suffice

  /** One output, a whole fee, and a change just too small. */
  function Unit(p: Params): nat {
    p.capacityPerCell + FEE + CHANGE_MIN
  }

  ghost predicate Funded(p: Params, s: State) {
    && s.iOut <= p.TotalOuts()
    && Sum(s.liveCells) + Sum(s.inputs) >= Product(p.TotalOuts() - s.iOut, Unit(p))
    && Sum(s.inputs) < FEE + p.capacityPerCell
    && forall i :: 0 <= i < |s.liveCells| ==> s.liveCells[i].capacity >= FEE
  }

  lemma {:induction false} SomeUnits(p: Params, n: nat, rem: nat)
    requires 0 < n <= rem
    ensures Product(rem, Unit(p)) >= FEE + Product(n, p.capacityPerCell) + CHANGE_MIN + Product(rem - n, Unit(p))
  {
    ProductAdds(rem - n, n, Unit(p));
    ProductOfSum(n, p.capacityPerCell, FEE + CHANGE_MIN);
    ProductGrows(1, n, FEE + CHANGE_MIN);
  }

  lemma {:induction false} SendingFunded(p: Params, s: State, sent: Sent)
    requires Funded(p, s) && s.liveCells != [] && p.capacityPerCell > 0
    requires Balanced(p, s.inputs + [s.liveCells[0]], s.iOut, sent) && s.iOut + sent.nOuts < p.TotalOuts()
    ensures Funded(p, SentOn(s, sent))
  {
    hide Product;
    var t := Sending(s, sent);
    SumMoves(s.inputs, s.liveCells);
    SumOfConcat(t.liveCells, [Cell(Change(sent.tx), sent.change)], CapacityOf);
    SumOne(Cell(Change(sent.tx), sent.change));
    SomeUnits(p, sent.nOuts, p.TotalOuts() - s.iOut);
  }

  lemma {:induction false} NextFunded(p: Params, s: State, accepts: Tx -> bool)
    requires Funded(p, s) && s.liveCells != [] && p.capacityPerCell > 0 && forall tx :: accepts(tx)
    ensures match Next(p, s, accepts)
            case More(t) => Funded(p, t)
            case Done(t) => true
            case _ => false
  {
    SumMoves(s.inputs, s.liveCells);
    var sent := NextShape(p, s, accepts);
    if sent.None? {
      WaitingFunded(p, s);
    } else if s.iOut + sent.value.nOuts < p.TotalOuts() {
      SendingFunded(p, s, sent.value);
    }
  }

  lemma {:induction false} WaitingFunded(p: Params, s: State)
    requires Funded(p, s) && s.liveCells != []
    requires Sum(s.inputs + [s.liveCells[0]]) < FEE + p.capacityPerCell
    ensures Funded(p, Waiting(s))
  {
    SumMoves(s.inputs, s.liveCells);
  }

  lemma {:induction false} RunFunded(p: Params, s: State, accepts: Tx -> bool)
    requires Funded(p, s) && p.capacityPerCell > 0 && forall tx :: accepts(tx)
    ensures Run(p, s, accepts).Finished?
    decreases p.TotalOuts() - s.iOut, |s.liveCells|
  {
    UnitsOf(p, p.TotalOuts() - s.iOut);
    if s.liveCells != [] {
      NextAdvances(p, s, accepts);
      NextFunded(p, s, accepts);
      match Next(p, s, accepts)
      case More(t) => RunFunded(p, t, accepts);
      case Done(t) =>
    }
  }

  lemma {:induction false} UnitsOf(p: Params, rem: nat)
    ensures rem > 0 ==> Product(rem, Unit(p)) >= Unit(p)
  {
    if rem > 0 {
      ProductGrows(1, rem, Unit(p));
    }
  }

  /** Enough funds in cells that each cover the fee, and a node that accepts: dispatching finishes. */
  lemma {:induction false} FundsSuffice(p: Params, cells: seq<Cell>, accepts: Tx -> bool)
    requires p.capacityPerCell > 0 && forall tx :: accepts(tx)
    requires forall i :: 0 <= i < |cells| ==> cells[i].capacity >= FEE
    requires Sum(cells) >= Product(p.TotalOuts(), Unit(p)) && Sum(cells) > 0
    ensures DispatchSpec(p, cells, accepts).Finished?
  {
    if p.TotalOuts() > 0 {
      NeededIsLess(p);
    }
    RunFunded(p, Initial(cells), accepts);
  }

  lemma {:induction false} NeededIsLess(p: Params)
    requires p.TotalOuts() > 0
    ensures Product(p.TotalOuts(), Unit(p)) > Needed(p)
  {
    var n := p.TotalOuts();
    ProductOfSum(n, p.capacityPerCell, FEE + CHANGE_MIN);
    ProductIs(n, FEE + CHANGE_MIN);
  }

  lemma {:induction false} NeededIs(p: Params)
    ensures Needed(p) == p.nUsers * p.cellsPerUser * (p.capacityPerCell + 1000)
  {
    var outs := p.TotalOuts();
    ProductIs(p.nUsers, p.cellsPerUser);
    ProductIs(outs, p.capacityPerCell);
    assert outs * (p.capacityPerCell + 1000) == outs * p.capacityPerCell + outs * 1000;
  }

  /** The check in front asks for the outputs and 1000 for each of them. */
  lemma {:induction false} PreCheckExactly(p: Params, cells: seq<Cell>, accepts: Tx -> bool)
    ensures DispatchSpec(p, cells, accepts) ==
              if Sum(cells) <= p.nUsers * p.cellsPerUser * (p.capacityPerCell + 1000) then Insufficient
              else Run(p, Initial(cells), accepts)
  {
    hide Needed, Run;
    NeededIs(p);
  }

  // ---------------------------------------------------------------- one owner cell, exactly

  /** What `rem` outputs cost from one cell: a whole fee for each thousand or part of it, and change that is kept. */
  function Cost(each: nat, rem: nat): nat {
    if rem <= MAX_OUT_COUNT then Product(rem, each) + FEE
    else Product(MAX_OUT_COUNT, each) + FEE + Max(CHANGE_MIN, Cost(each, rem - MAX_OUT_COUNT))
  }

  function Max(a: nat, b: nat): nat {
    if a < b then b else a
  }

  lemma {:induction false} CostAtLeast(each: nat, rem: nat, n: nat)
    requires n <= rem && 0 < n <= MAX_OUT_COUNT
    ensures Cost(each, rem) >= Product(n, each) + FEE
  {
    ProductGrows(n, MAX_OUT_COUNT, each);
    if rem <= MAX_OUT_COUNT {
      ProductGrows(n, rem, each);
    }
  }

  lemma {:induction false} SpendIsMaximal(p: Params, inputs: seq<Cell>, iOut: nat)
    requires iOut <= p.TotalOuts() && p.capacityPerCell > 0 && Sum(inputs) >= FEE
    ensures match Spend(p, inputs, iOut)
            case None => true
            case Some(sent) => sent.nOuts == MAX_OUT_COUNT || sent.change < p.capacityPerCell ||
                               iOut + sent.nOuts == p.TotalOuts()
  {
    QuotientFits(Sum(inputs) - FEE, p.capacityPerCell);
  }

  /** The step of SingleCell in which output is left to pay after a transaction. */
  lemma {:induction false} CostAfter(p: Params, sent: Sent, have: nat, rem: nat)
    requires p.capacityPerCell > 0
    requires 0 < sent.nOuts < rem && sent.nOuts <= MAX_OUT_COUNT
    requires have == FEE + Product(sent.nOuts, p.capacityPerCell) + sent.change
    requires sent.nOuts == MAX_OUT_COUNT || sent.change < p.capacityPerCell
    ensures have >= Cost(p.capacityPerCell, rem) <==>
              sent.change >= CHANGE_MIN && sent.change >= Cost(p.capacityPerCell, rem - sent.nOuts)
  {
    var each, n := p.capacityPerCell, sent.nOuts;
    CostAtLeast(each, rem - n, 1);
    if n < MAX_OUT_COUNT {
      CostAtLeast(each, rem, n + 1);
    }
  }

  lemma {:induction false} SingleCell(p: Params, s: State, accepts: Tx -> bool)
    requires p.capacityPerCell > 0 && forall tx :: accepts(tx)
    requires s.iOut < p.TotalOuts() && s.inputs == [] && |s.liveCells| == 1
    ensures Run(p, s, accepts).Finished? <==>
              s.liveCells[0].capacity >= Cost(p.capacityPerCell, p.TotalOuts() - s.iOut)
    decreases p.TotalOuts() - s.iOut
  {
    hide Next, Spend;
    var inputs, rem, each := [s.liveCells[0]], p.TotalOuts() - s.iOut, p.capacityPerCell;
    assert s.inputs + inputs == inputs && s.liveCells[1..] == [];
    SumOne(s.liveCells[0]);
    CostAtLeast(each, rem, 1);
    var next := NextShape(p, s, accepts);
    if next.None? {
      SingleCellShort(p, s, accepts);
    } else {
      var sent := next.value;
      SpendIsMaximal(p, inputs, s.iOut);
      if sent.nOuts < rem {
        CostAfter(p, sent, Sum(inputs), rem);
        var t := SentOn(s, sent);
        NextAdvances(p, s, accepts);
        if sent.change >= CHANGE_MIN {
          assert t.liveCells == [Cell(Change(sent.tx), sent.change)];
          SingleCell(p, t, accepts);
        } else {
          assert Run(p, t, accepts) == Short(t);
        }
      }
    }
  }

  lemma {:induction false} SingleCellShort(p: Params, s: State, accepts: Tx -> bool)
    requires s.iOut < p.TotalOuts() && |s.liveCells| == 1
    requires Next(p, s, accepts) in {Underflow, DivideByZero, More(Waiting(s))}
    ensures !Run(p, s, accepts).Finished?
  {
    NextAdvances(p, s, accepts);
    if Next(p, s, accepts).More? {
      assert Run(p, Waiting(s), accepts) == Short(Waiting(s));
    }
  }

  /** With nothing to pay, the fee must be covered all the same. */
  lemma {:induction false} NothingToPay(p: Params, cell: Cell, accepts: Tx -> bool)
    requires p.capacityPerCell > 0 && p.TotalOuts() == 0 && forall tx :: accepts(tx)
    ensures Run(p, Initial([cell]), accepts).Finished? <==> cell.capacity >= FEE
  {
    hide Next, Spend;
    var s := Initial([cell]);
    assert s.inputs + [cell] == [cell] && s.liveCells[1..] == [];
    SumOne(cell);
    var next := NextShape(p, s, accepts);
    NextAdvances(p, s, accepts);
    if next.None? && Next(p, s, accepts).More? {
      assert Run(p, Waiting(s), accepts) == Finished(Waiting(s));
    }
  }

  lemma {:induction false} FreeCellsPanic(p: Params, cells: seq<Cell>, accepts: Tx -> bool)
    requires p.capacityPerCell == 0 && cells != []
    ensures !Run(p, Initial(cells), accepts).Finished?
  {
    assert Next(p, Initial(cells), accepts) in {Underflow, DivideByZero};
  }

  /**
   From one owner cell dispatching finishes exactly when the cell is more than the check in front asks for and
   covers the cost, and the capacity asked for each cell is not 0.
   */
  lemma {:induction false} SingleCellExact(p: Params, cell: Cell, accepts: Tx -> bool)
    requires forall tx :: accepts(tx)
    ensures DispatchSpec(p, [cell], accepts).Finished? <==>
              && p.capacityPerCell > 0 && cell.capacity > Needed(p)
              && cell.capacity >= Cost(p.capacityPerCell, p.TotalOuts())
  {
    SumOne(cell);
    if p.capacityPerCell == 0 {
      FreeCellsPanic(p, [cell], accepts);
    } else if p.TotalOuts() == 0 {
      NothingToPay(p, cell, accepts);
      assert Product(0, p.capacityPerCell) == 0;
    } else {
      SingleCell(p, Initial([cell]), accepts);
    }
  }

  /** The check in front does not ensure that dispatching finishes. */
  lemma {:induction false} CheckIsNotEnough(cell: Cell, accepts: Tx -> bool)
    requires cell.capacity == 10_000_001_001 && forall tx :: accepts(tx)
    ensures var p := Params(1, 1, 10_000_000_000);
            cell.capacity > Needed(p) && DispatchSpec(p, [cell], accepts).Short?
  {
    var p := Params(1, 1, 10_000_000_000);
    SumOne(cell);
    var s := Initial([cell]);
    assert s.inputs + [cell] == [cell] && s.liveCells[1..] == [];
    SpendBalances(p, [cell], 0);
    assert Spend(p, [cell], 0) == None;
    assert Next(p, s, accepts) == More(State([], [cell], 0, []));
    assert Run(p, State([], [cell], 0, []), accepts).Short?;
  }
}
