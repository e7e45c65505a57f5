/** Dispatching the owner's capacity to the users' cells (ckb-bench/src/prepare.rs, dispatch). */
module Dispatch {
  import opened Wrappers
  import opened Arithmetic
  import opened Sequences

  const MAX_OUT_COUNT := 1000
  const FEE_RATE_OF_OUTPUT := 1000
  const FEE := MAX_OUT_COUNT * FEE_RATE_OF_OUTPUT

  /** Capacity::bytes(67), in shannons. */
  const CHANGE_MIN := 6_700_000_000

  /** An out-point is a cell that was there before, or output 0 of a transaction; hashes do not collide. */
  datatype OutPoint = Minted(id: nat) | Change(tx: Tx)

  datatype Lock = OwnerLock | UserLock(user: nat)

  datatype Output = Output(capacity: nat, lock: Lock)

  datatype Tx = Tx(inputs: seq<OutPoint>, outputs: seq<Output>)

  datatype Cell = Cell(outPoint: OutPoint, capacity: nat)

  datatype Params = Params(nUsers: nat, cellsPerUser: nat, capacityPerCell: nat) {
    function TotalOuts(): nat {
      Product(nUsers, cellsPerUser)
    }
  }

  /** A transaction sent, with the cells it spends, its number of user outputs and its change. */
  datatype Sent = Sent(tx: Tx, spent: seq<Cell>, nOuts: nat, change: nat)

  datatype State = State(liveCells: seq<Cell>, inputs: seq<Cell>, iOut: nat, txs: seq<Sent>)

  datatype Round = Underflow | DivideByZero | Rejected | More(state: State) | Done(state: State)

  datatype Outcome = Insufficient | Panicked(round: Round) | Short(state: State) | Finished(state: State)

  function CapacityOf(c: Cell): nat {
    c.capacity
  }

  function Sum(cs: seq<Cell>): nat {
    SumOf(cs, CapacityOf)
  }

  function Points(cs: seq<Cell>): seq<OutPoint> {
    seq(|cs|, i requires 0 <= i < |cs| => cs[i].outPoint)
  }

  /** The user outputs number a up to but not including b. */
  function UserOuts(p: Params, a: nat, b: nat): (os: seq<Output>)
    requires b <= p.TotalOuts()
    ensures a <= b ==> |os| == b - a
    decreases b
  {
    if b <= a then []
    else
      PerUserIsPositive(p);
      UserOuts(p, a, b - 1) + [Output(p.capacityPerCell, UserLock(Quotient(b - 1, p.cellsPerUser)))]
  }

  lemma {:induction false} PerUserIsPositive(p: Params)
    requires p.TotalOuts() > 0
    ensures p.cellsPerUser > 0
  {
    ProductIs(p.nUsers, p.cellsPerUser);
  }

  function ChangeOuts(change: nat): seq<Output> {
    if change >= CHANGE_MIN then [Output(change, OwnerLock)] else []
  }

  function Min(a: nat, b: nat): nat {
    if a < b then a else b
  }

  /** The transaction that spends `inputs`, when they hold enough for one output. */
  function Spend(p: Params, inputs: seq<Cell>, iOut: nat): (r: Option<Sent>)
    requires iOut <= p.TotalOuts() && p.capacityPerCell > 0 && Sum(inputs) >= FEE
  {
    var room := Sum(inputs) - FEE;
    var n := Min(MAX_OUT_COUNT, Quotient(room, p.capacityPerCell));
    if n == 0 then None
    else
      var nOuts := if iOut + n >= p.TotalOuts() then p.TotalOuts() - iOut else n;
      OutsFit(room, p.capacityPerCell, n, nOuts);
      var change := room - Product(nOuts, p.capacityPerCell);
      Some(Sent(Tx(Points(inputs), ChangeOuts(change) + UserOuts(p, iOut, iOut + nOuts)), inputs, nOuts, change))
  }

  lemma {:induction false} OutsFit(room: nat, each: nat, n: nat, nOuts: nat)
    requires each > 0 && n <= Quotient(room, each) && nOuts <= n
    ensures Product(nOuts, each) <= room
  {
    QuotientFits(room, each);
    ProductGrows(nOuts, Quotient(room, each), each);
  }

  /** One round of the allocation loop. */
  function Next(p: Params, s: State, accepts: Tx -> bool): Round
    requires s.liveCells != [] && s.iOut <= p.TotalOuts()
  {
    var inputs, rest := s.inputs + [s.liveCells[0]], s.liveCells[1..];
    if Sum(inputs) < FEE then Underflow
    else if p.capacityPerCell == 0 then DivideByZero
    else match Spend(p, inputs, s.iOut)
      case None => More(State(rest, inputs, s.iOut, s.txs))
      case Some(sent) =>
        var s1 := State(rest, [], s.iOut + sent.nOuts, s.txs + [sent]);
        if !accepts(sent.tx) then Rejected
        else if s1.iOut == p.TotalOuts() then Done(s1)
        else if sent.change >= CHANGE_MIN then More(s1.(liveCells := rest + [Cell(Change(sent.tx), sent.change)]))
        else More(s1)
  }

  lemma {:induction false} NextAdvances(p: Params, s: State, accepts: Tx -> bool)
    requires s.liveCells != [] && s.iOut <= p.TotalOuts()
    ensures match Next(p, s, accepts)
            case More(t) => s.iOut <= t.iOut <= p.TotalOuts() && (s.iOut < t.iOut || |t.liveCells| < |s.liveCells|)
            case _ => true
  {
  }

  function Run(p: Params, s: State, accepts: Tx -> bool): Outcome
    requires s.iOut <= p.TotalOuts()
    decreases p.TotalOuts() - s.iOut, |s.liveCells|
  {
    if s.liveCells == [] then (if s.iOut >= p.TotalOuts() then Finished(s) else Short(s))
    else
      NextAdvances(p, s, accepts);
      match Next(p, s, accepts)
      case More(t) => Run(p, t, accepts)
      case Done(t) => Finished(t)
      case r => Panicked(r)
  }

  /** What the check in front of the loop asks for. */
  function Needed(p: Params): nat {
    Product(p.TotalOuts(), p.capacityPerCell) + p.TotalOuts() * FEE_RATE_OF_OUTPUT
  }

  function Initial(cells: seq<Cell>): State {
    State(cells, [], 0, [])
  }

  function DispatchSpec(p: Params, cells: seq<Cell>, accepts: Tx -> bool): Outcome {
    if Sum(cells) <= Needed(p) then Insufficient else Run(p, Initial(cells), accepts)
  }

  method TotalCapacity(cells: seq<Cell>) returns (total: nat)
    ensures total == Sum(cells)
  {
    total := 0;
    var k := 0;
    while k < |cells|
      invariant k <= |cells| && total == Sum(cells[..k])
    {
      assert cells[..k + 1][..k] == cells[..k];
      total := total + cells[k].capacity;
      k := k + 1;
    }
    assert cells[..k] == cells;
  }

  method Dispatch(p: Params, cells: seq<Cell>, accepts: Tx -> bool) returns (o: Outcome)
    ensures o == DispatchSpec(p, cells, accepts)
  {
    var totalCapacity := TotalCapacity(cells);
    var totalOuts := p.nUsers * p.cellsPerUser;
    ProductIs(p.nUsers, p.cellsPerUser);
    var outputsTotal := totalOuts * p.capacityPerCell;
    ProductIs(totalOuts, p.capacityPerCell);
    if totalCapacity <= outputsTotal + totalOuts * FEE_RATE_OF_OUTPUT {
      return Insufficient;
    }
    o := Allocate(p, cells, accepts, totalOuts);
  }

  /** The allocation loop. */
  method Allocate(p: Params, cells: seq<Cell>, accepts: Tx -> bool, totalOuts: nat) returns (o: Outcome)
    requires totalOuts == p.TotalOuts()
    ensures o == Run(p, Initial(cells), accepts)
  {
    var s := State(cells, [], 0, []);
    while s.liveCells != []
      invariant s.iOut <= totalOuts && Run(p, Initial(cells), accepts) == Run(p, s, accepts)
      decreases totalOuts - s.iOut, |s.liveCells|
    {
      NextAdvances(p, s, accepts);
      var round := AllocateOne(p, s, accepts, totalOuts);
      match round {
        case More(t) => s := t;
        case Done(t) => return Finished(t);
        case _ => return Panicked(round);
      }
    }
    return if s.iOut >= totalOuts then Finished(s) else Short(s);
  }

  /** One round of it: `continue` and going on are More, `break` is Done. */
  method AllocateOne(p: Params, s: State, accepts: Tx -> bool, totalOuts: nat) returns (r: Round)
    requires s.liveCells != [] && s.iOut <= totalOuts == p.TotalOuts()
    ensures r == Next(p, s, accepts)
  {
    var State(liveCells, inputs, iOut, txs) := s;
    inputs, liveCells := inputs + [liveCells[0]], liveCells[1..];
    var inputsCapacity := TotalCapacity(inputs);
    if inputsCapacity < FEE {
      return Underflow;
    }
    if p.capacityPerCell == 0 {
      return DivideByZero;
    }
    var spending := BuildTransaction(p, inputs, inputsCapacity - FEE, iOut, totalOuts);
    if spending == None {
      return More(State(liveCells, inputs, iOut, txs));
    }
    var Sent(tx, _, nOuts, change) := spending.value;
    if !accepts(tx) {
      return Rejected;
    }
    inputs, txs, iOut := [], txs + [spending.value], iOut + nOuts;
    if iOut == totalOuts {
      return Done(State(liveCells, inputs, iOut, txs));
    }
    if |tx.outputs| > nOuts {
      liveCells := liveCells + [Cell(Change(tx), tx.outputs[0].capacity)];
    }
    return More(State(liveCells, inputs, iOut, txs));
  }

  /** The middle of the loop: counts the outputs, and builds them unless there is room for none. */
  method BuildTransaction(p: Params, inputs: seq<Cell>, outputsCapacity: nat, iOut: nat, totalOuts: nat)
    returns (r: Option<Sent>)
    requires iOut <= totalOuts == p.TotalOuts() && p.capacityPerCell > 0 && Sum(inputs) == outputsCapacity + FEE
    ensures r == Spend(p, inputs, iOut)
  {
    var nOuts, change := CountOutputs(p, outputsCapacity, iOut, totalOuts);
    if nOuts == None {
      return None;
    }
    var outputs := ChangeOuts(change);
    var i := iOut;
    while i < iOut + nOuts.value
      invariant iOut <= i <= iOut + nOuts.value && outputs == ChangeOuts(change) + UserOuts(p, iOut, i)
    {
      PerUserIsPositive(p);
      var user := IndexUser(i, p.cellsPerUser);
      outputs := outputs + [Output(p.capacityPerCell, UserLock(user))];
      i := i + 1;
    }
    return Some(Sent(Tx(Points(inputs), outputs), inputs, nOuts.value, change));
  }

  method IndexUser(i: nat, cellsPerUser: nat) returns (user: nat)
    requires cellsPerUser > 0
    ensures user == Quotient(i, cellsPerUser)
  {
    QuotientIs(i, cellsPerUser);
    return i / cellsPerUser;
  }

  /** How many outputs the next transaction gets, None if there is room for none, and its change. */
  method CountOutputs(p: Params, outputsCapacity: nat, iOut: nat, totalOuts: nat) returns (r: Option<nat>, change: nat)
    requires iOut <= totalOuts && p.capacityPerCell > 0
    ensures var n := Min(MAX_OUT_COUNT, Quotient(outputsCapacity, p.capacityPerCell));
            if n == 0 then r == None
            else r == Some(if iOut + n >= totalOuts then totalOuts - iOut else n) &&
                 outputsCapacity == Product(r.value, p.capacityPerCell) + change
  {
    var each := p.capacityPerCell;
    QuotientIs(outputsCapacity, each);
    var nOuts := Min(MAX_OUT_COUNT, outputsCapacity / each);
    if nOuts == 0 {
      return None, 0;
    }
    ghost var n := nOuts;
    if iOut + nOuts >= totalOuts {
      nOuts := totalOuts - iOut;
    }
    OutsFit(outputsCapacity, each, n, nOuts);
    ProductIs(nOuts, each);
    return Some(nOuts), outputsCapacity - nOuts * each;
  }
}
