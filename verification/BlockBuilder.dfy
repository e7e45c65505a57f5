/** Building a chain from instructions (ckb-testkit/src/node/builder.rs, build_according_to_instructions). */
module BlockBuilder {
  import opened Sequences
  import opened Wrappers

  type TxHash = nat
  type ProposalId = nat

  datatype Instruction =
    | SendTransaction(templateNumber: nat, tx: TxHash)
    | Propose(templateNumber: nat, id: ProposalId)
    | Commit(templateNumber: nat, tx: TxHash)
    | ProcessWithoutVerify(templateNumber: nat)
    | HeaderTimestamp(templateNumber: nat, timestamp: nat)

  datatype Template = Template(
    number: nat,
    proposals: seq<ProposalId>,
    transactions: seq<TxHash>,
    currentTime: nat,
    dao: nat)

  /** What a node has been given, successfully. */
  datatype Event = Broadcast(tx: TxHash) | Submitted(block: Template) | Processed(block: Template)

  /** The client's version, and the node's answers, which may depend on all it has been given before. */
  datatype Node = Node(
    ckb2021: bool,
    accepts: (seq<Event>, TxHash) -> bool,
    daoField: (seq<Event>, Template) -> Option<nat>,
    submits: (seq<Event>, Template) -> bool,
    processes: (seq<Event>, Template) -> bool)

  datatype Verdict = HandedOver | Refused | Crashed

  // ---------------------------------------------------------------- buckets

  function Bucket(ins: seq<Instruction>, n: nat): seq<Instruction> {
    if ins == [] then []
    else if ins[|ins| - 1].templateNumber == n then Bucket(ins[..|ins| - 1], n) + [ins[|ins| - 1]]
    else Bucket(ins[..|ins| - 1], n)
  }

  function Numbers(ins: seq<Instruction>): set<nat> {
    set i | 0 <= i < |ins| :: ins[i].templateNumber
  }

  /** The instructions by height, each bucket in the given order. */
  function Buckets(ins: seq<Instruction>): map<nat, seq<Instruction>> {
    map n | n in Numbers(ins) :: Bucket(ins, n)
  }

  predicate InRange(i: Instruction, tip: nat, target: nat) {
    tip < i.templateNumber <= target
  }

  ghost predicate AllInRange(ins: seq<Instruction>, tip: nat, target: nat) {
    forall k :: 0 <= k < |ins| ==> InRange(ins[k], tip, target)
  }

  /** False if an instruction is not above the tip or is above the target. */
  method FillBuckets(ins: seq<Instruction>, tip: nat, target: nat) returns (ok: bool, m: map<nat, seq<Instruction>>)
    ensures ok <==> AllInRange(ins, tip, target)
    ensures ok ==> m == Buckets(ins)
  {
    m := map[];
    var k := 0;
    while k < |ins|
      invariant k <= |ins| && m == Buckets(ins[..k])
      invariant forall j :: 0 <= j < k ==> InRange(ins[j], tip, target)
    {
      var i := ins[k];
      if !InRange(i, tip, target) {
        return false, m;
      }
      BucketsGrow(ins[..k], i);
      assert ins[..k + 1] == ins[..k] + [i];
      m := m[i.templateNumber := (if i.templateNumber in m then m[i.templateNumber] else []) + [i]];
      k := k + 1;
    }
    assert ins[..k] == ins;
    ok := true;
  }

  lemma {:induction false} BucketsGrow(ins: seq<Instruction>, i: Instruction)
    ensures var m, n := Buckets(ins), i.templateNumber;
            Buckets(ins + [i]) == m[n := (if n in m then m[n] else []) + [i]]
  {
    var all, n := ins + [i], i.templateNumber;
    assert all[..|ins|] == ins;
    forall x
      ensures x in Numbers(all) <==> x in Numbers(ins) || x == n
    {
      assert all[|ins|] == i;
      if x in Numbers(ins) {
        var k :| 0 <= k < |ins| && ins[k].templateNumber == x;
        assert all[k].templateNumber == x;
      }
    }
    BucketEmpty(ins, n);
    forall x
      ensures Bucket(all, x) == if x == n then Bucket(ins, x) + [i] else Bucket(ins, x)
    {
    }
  }

  lemma {:induction false} BucketEmpty(ins: seq<Instruction>, n: nat)
    ensures n !in Numbers(ins) <==> Bucket(ins, n) == []
  {
    if ins != [] {
      var init := ins[..|ins| - 1];
      BucketEmpty(init, n);
      assert forall k :: 0 <= k < |init| ==> ins[k] == init[k];
      assert ins[|ins| - 1].templateNumber in Numbers(ins);
      assert n in Numbers(init) ==> n in Numbers(ins);
    }
  }

  // ---------------------------------------------------------------- one block

  /** A template being edited, the node's events so far, and the instructions executed so far. */
  datatype Draft = Draft(template: Template, events: seq<Event>, executed: seq<Instruction>, unverified: bool, ok: bool)

  function AddNew<T(==)>(s: seq<T>, x: T): seq<T> {
    if x in s then s else s + [x]
  }

  function ExecuteOne(node: Node, d: Draft, i: Instruction): Draft
    requires d.ok
  {
    if i.SendTransaction? && !node.accepts(d.events, i.tx) then d.(ok := false)
    else
      var d1 := d.(executed := d.executed + [i]);
      match i
      case SendTransaction(_, tx) => d1.(events := d.events + [Broadcast(tx)])
      case Propose(_, id) => d1.(template := d.template.(proposals := AddNew(d.template.proposals, id)))
      case Commit(_, tx) => d1.(template := d.template.(transactions := AddNew(d.template.transactions, tx)))
      case ProcessWithoutVerify(_) => d1.(unverified := true)
      case HeaderTimestamp(_, timestamp) => d1.(template := d.template.(currentTime := timestamp))
  }

  function Execute(node: Node, d: Draft, ins: seq<Instruction>): Draft
    requires d.ok
    decreases |ins|
  {
    if ins == [] then d
    else
      var d1 := ExecuteOne(node, d, ins[0]);
      if d1.ok then Execute(node, d1, ins[1..]) else d1
  }

  /** How far building has got. */
  datatype State = State(next: nat, buckets: map<nat, seq<Instruction>>, events: seq<Event>, executed: seq<Instruction>)

  /** Hands a finished block to the node. Only a 2021 client can ask for the DAO field. */
  function Finish(node: Node, d: Draft): (seq<Event>, Verdict)
    requires d.ok
  {
    if !node.ckb2021 then (d.events, Crashed)
    else match node.daoField(d.events, d.template)
      case None => (d.events, Refused)
      case Some(dao) =>
        var block := d.template.(dao := dao);
        if d.unverified then
          if node.processes(d.events, block) then (d.events + [Processed(block)], HandedOver) else (d.events, Crashed)
        else if node.submits(d.events, block) then (d.events + [Submitted(block)], HandedOver)
        else (d.events, Refused)
  }

  function BuildOne(node: Node, s: State, t: Template): (State, Verdict) {
    if t.number in s.buckets then
      var d := Execute(node, Draft(t, s.events, s.executed, false, true), s.buckets[t.number]);
      var s1 := s.(buckets := s.buckets - {t.number}, executed := d.executed, events := d.events);
      if !d.ok then (s1, Refused)
      else
        var (events, v) := Finish(node, d);
        (s1.(events := events), v)
    else if node.submits(s.events, t) then (s.(events := s.events + [Submitted(t)]), HandedOver)
    else (s, Refused)
  }

  method ExecuteBucket(node: Node, t: Template, events: seq<Event>, executed: seq<Instruction>, ins: seq<Instruction>)
    returns (d: Draft)
    ensures d == Execute(node, Draft(t, events, executed, false, true), ins)
  {
    var template := t;
    d := Draft(t, events, executed, false, true);
    var k := 0;
    assert ins[0..] == ins;
    while k < |ins|
      invariant k <= |ins| && d.ok && template == d.template
      invariant Execute(node, d, ins[k..]) == Execute(node, Draft(t, events, executed, false, true), ins)
    {
      assert ins[k..][0] == ins[k] && ins[k..][1..] == ins[k + 1..];
      match ins[k] {
        case SendTransaction(_, tx) =>
          if !node.accepts(d.events, tx) {
            return d.(ok := false);
          }
          d := d.(events := d.events + [Broadcast(tx)]);
        case Propose(_, id) =>
          if id !in template.proposals {
            template := template.(proposals := template.proposals + [id]);
          }
        case Commit(_, tx) =>
          if tx !in template.transactions {
            template := template.(transactions := template.transactions + [tx]);
          }
        case ProcessWithoutVerify(_) =>
          d := d.(unverified := true);
        case HeaderTimestamp(_, timestamp) =>
          template := template.(currentTime := timestamp);
      }
      d := d.(template := template, executed := d.executed + [ins[k]]);
      k := k + 1;
    }
  }

  // ---------------------------------------------------------------- the loop

  /** `Waiting`: the node has given no template yet that makes the loop go on or stop. */
  datatype Outcome = Panicked | Ok(state: State) | Err(state: State) | Waiting(state: State)

  function Loop(node: Node, target: nat, s: State, templates: seq<Template>): Outcome
    decreases |templates|
  {
    if templates == [] then Waiting(s)
    else
      var t := templates[0];
      if t.number > target then Ok(s)
      else if t.number != s.next then Loop(node, target, s, templates[1..])
      else
        var (s1, v) := BuildOne(node, s.(next := s.next + 1), t);
        match v
        case HandedOver => Loop(node, target, s1, templates[1..])
        case Refused => Err(s1)
        case Crashed => Panicked
  }

  function Initial(ins: seq<Instruction>, tip: nat): State {
    State(tip + 1, Buckets(ins), [], [])
  }

  method Build(node: Node, permanentDifficulty: bool, tip: nat, target: nat, ins: seq<Instruction>,
               templates: seq<Template>)
    returns (o: Outcome)
    ensures o == if permanentDifficulty && AllInRange(ins, tip, target)
                 then Loop(node, target, Initial(ins, tip), templates)
                 else Panicked
  {
    if !permanentDifficulty {
      return Panicked;
    }
    var inRange, buckets := FillBuckets(ins, tip, target);
    if !inRange {
      return Panicked;
    }
    var s := State(tip + 1, buckets, [], []);
    var k := 0;
    assert templates[0..] == templates;
    while k < |templates|
      invariant k <= |templates|
      invariant Loop(node, target, s, templates[k..]) == Loop(node, target, Initial(ins, tip), templates)
    {
      var t := templates[k];
      assert templates[k..][0] == t && templates[k..][1..] == templates[k + 1..];
      k := k + 1;
      if t.number > target {
        return Ok(s);
      }
      if t.number != s.next {
        continue;
      }
      s := s.(next := s.next + 1);
      if t.number in s.buckets {
        var d := ExecuteBucket(node, t, s.events, s.executed, s.buckets[t.number]);
        s := s.(buckets := s.buckets - {t.number}, executed := d.executed, events := d.events);
        if !d.ok {
          return Err(s);
        }
        var (events, v) := Finish(node, d);
        s := s.(events := events);
        match v {
          case HandedOver =>
          case Refused => return Err(s);
          case Crashed => return Panicked;
        }
      } else if node.submits(s.events, t) {
        s := s.(events := s.events + [Submitted(t)]);
      } else {
        return Err(s);
      }
    }
    return Waiting(s);
  }

  // ---------------------------------------------------------------- the invariant

  /** The instructions of the heights from a up to but not including b, by height. */
  function ByHeight(ins: seq<Instruction>, a: nat, b: nat): seq<Instruction> {
    if b <= a then [] else ByHeight(ins, a, b - 1) + Bucket(ins, b - 1)
  }

  /** The numbers of the blocks handed to the node, in order. */
  function BlockNumbers(es: seq<Event>): seq<nat> {
    if es == [] then []
    else if es[|es| - 1].Broadcast? then BlockNumbers(es[..|es| - 1])
    else BlockNumbers(es[..|es| - 1]) + [es[|es| - 1].block.number]
  }

  function Range(a: nat, b: nat): seq<nat> {
    if b <= a then [] else Range(a, b - 1) + [b - 1]
  }

  /** Blocks tip + 1 .. next - 1 were handed over once each in order, and their instructions executed in order. */
  ghost predicate Inv(ins: seq<Instruction>, tip: nat, target: nat, s: State) {
    && tip < s.next <= (if target <= tip then tip else target) + 1
    && BlockNumbers(s.events) == Range(tip + 1, s.next)
    && s.executed == ByHeight(ins, tip + 1, s.next)
    && s.buckets == map n | n in Numbers(ins) && n >= s.next :: Bucket(ins, n)
  }

  lemma {:induction false} BlockAdds(es: seq<Event>, e: Event)
    ensures BlockNumbers(es + [e]) == if e.Broadcast? then BlockNumbers(es) else BlockNumbers(es) + [e.block.number]
  {
    assert (es + [e])[..|es|] == es;
  }

  /** Executing edits the template but never its number, and hands no block over. */
  lemma {:induction false} ExecuteKeeps(node: Node, d: Draft, ins: seq<Instruction>)
    requires d.ok
    ensures var r := Execute(node, d, ins);
            && r.template.number == d.template.number
            && BlockNumbers(r.events) == BlockNumbers(d.events)
            && (r.ok ==> r.executed == d.executed + ins)
    decreases |ins|
  {
    if ins != [] {
      var d1 := ExecuteOne(node, d, ins[0]);
      ExecuteOneKeeps(node, d, ins[0]);
      if d1.ok {
        ExecuteKeeps(node, d1, ins[1..]);
        assert d.executed + [ins[0]] + ins[1..] == d.executed + ins;
      }
    }
  }

  lemma {:induction false} ExecuteOneKeeps(node: Node, d: Draft, i: Instruction)
    requires d.ok
    ensures var r := ExecuteOne(node, d, i);
            && r.template.number == d.template.number
            && BlockNumbers(r.events) == BlockNumbers(d.events)
            && (r.ok ==> r.executed == d.executed + [i])
  {
    if i.SendTransaction? {
      BlockAdds(d.events, Broadcast(i.tx));
    }
  }

  /** What BuildOne has done to the state when it succeeds. */
  ghost predicate Advanced(ins: seq<Instruction>, s: State, s1: State) {
    && s1.next == s.next + 1
    && BlockNumbers(s1.events) == BlockNumbers(s.events) + [s.next]
    && s1.executed == s.executed + Bucket(ins, s.next)
    && s1.buckets == s.buckets - {s.next}
  }

  lemma {:induction false} FinishAdds(node: Node, d: Draft)
    requires d.ok
    ensures var (events, v) := Finish(node, d);
            BlockNumbers(events) ==
              BlockNumbers(d.events) + (if v.HandedOver? then [d.template.number] else [])
  {
    if node.ckb2021 && node.daoField(d.events, d.template).Some? {
      var block := d.template.(dao := node.daoField(d.events, d.template).value);
      BlockAdds(d.events, Processed(block));
      BlockAdds(d.events, Submitted(block));
    }
  }

  lemma {:induction false} BuildOneAdvances(node: Node, ins: seq<Instruction>, s: State, t: Template)
    requires t.number == s.next
    requires if s.next in Numbers(ins) then s.next in s.buckets && s.buckets[s.next] == Bucket(ins, s.next)
             else s.next !in s.buckets
    ensures var (s1, v) := BuildOne(node, s.(next := s.next + 1), t); v.HandedOver? ==> Advanced(ins, s, s1)
  {
    BucketEmpty(ins, s.next);
    if s.next in s.buckets {
      var d0 := Draft(t, s.events, s.executed, false, true);
      ExecuteKeeps(node, d0, s.buckets[s.next]);
      var d := Execute(node, d0, s.buckets[s.next]);
      if d.ok {
        FinishAdds(node, d);
      }
    } else {
      BlockAdds(s.events, Submitted(t));
    }
  }

  lemma {:induction false} AdvancedInv(ins: seq<Instruction>, tip: nat, target: nat, s: State, s1: State)
    requires Inv(ins, tip, target, s) && s.next <= target && Advanced(ins, s, s1)
    ensures Inv(ins, tip, target, s1)
  {
    assert s1.buckets == map n | n in Numbers(ins) && n >= s1.next :: Bucket(ins, n);
  }

  lemma {:induction false} BuildOneInv(node: Node, ins: seq<Instruction>, tip: nat, target: nat, s: State, t: Template)
    requires Inv(ins, tip, target, s) && t.number == s.next <= target
    ensures var (s1, v) := BuildOne(node, s.(next := s.next + 1), t); v.HandedOver? ==> Inv(ins, tip, target, s1)
  {
    BuildOneAdvances(node, ins, s, t);
    var (s1, v) := BuildOne(node, s.(next := s.next + 1), t);
    if v.HandedOver? {
      AdvancedInv(ins, tip, target, s, s1);
    }
  }

  lemma {:induction false} LoopInv(node: Node, ins: seq<Instruction>, tip: nat, target: nat, s: State, ts: seq<Template>)
    requires Inv(ins, tip, target, s)
    ensures match Loop(node, target, s, ts)
            case Ok(t) => Inv(ins, tip, target, t)
            case Waiting(t) => Inv(ins, tip, target, t)
            case _ => true
    decreases |ts|
  {
    if ts != [] && ts[0].number <= target {
      if ts[0].number != s.next {
        LoopInv(node, ins, tip, target, s, ts[1..]);
      } else {
        BuildOneInv(node, ins, tip, target, s, ts[0]);
        var (s1, v) := BuildOne(node, s.(next := s.next + 1), ts[0]);
        if v.HandedOver? {
          LoopInv(node, ins, tip, target, s1, ts[1..]);
        }
      }
    }
  }

  /** Templates may be stale, but are never for a block above the next one. */
  ghost predicate NeverAhead(node: Node, target: nat, s: State, ts: seq<Template>)
    decreases |ts|
  {
    ts != [] ==>
      && ts[0].number <= s.next
      && (ts[0].number > target || ts[0].number != s.next ||
          var (s1, v) := BuildOne(node, s.(next := s.next + 1), ts[0]);
          v.HandedOver? ==> NeverAhead(node, target, s1, ts[1..]))
      && (ts[0].number <= target && ts[0].number != s.next ==> NeverAhead(node, target, s, ts[1..]))
  }

  lemma {:induction false} NeverAheadReachesTarget(node: Node, target: nat, s: State, ts: seq<Template>)
    requires NeverAhead(node, target, s, ts)
    ensures match Loop(node, target, s, ts) case Ok(t) => t.next > target case _ => true
    decreases |ts|
  {
    if ts != [] && ts[0].number <= target {
      if ts[0].number != s.next {
        NeverAheadReachesTarget(node, target, s, ts[1..]);
      } else {
        var (s1, v) := BuildOne(node, s.(next := s.next + 1), ts[0]);
        if v.HandedOver? {
          NeverAheadReachesTarget(node, target, s1, ts[1..]);
        }
      }
    }
  }

  lemma {:induction false} InitialInv(ins: seq<Instruction>, tip: nat, target: nat)
    requires AllInRange(ins, tip, target)
    ensures Inv(ins, tip, target, Initial(ins, tip))
  {
    assert Range(tip + 1, tip + 1) == [] && ByHeight(ins, tip + 1, tip + 1) == [];
    assert Buckets(ins) == map n | n in Numbers(ins) && n >= tip + 1 :: Bucket(ins, n);
  }

  lemma {:induction false} TargetIsAbove(ins: seq<Instruction>, tip: nat, target: nat)
    requires AllInRange(ins, tip, target) && ins != []
    ensures tip < target
  {
    assert InRange(ins[0], tip, target);
  }

  /**
   If the loop breaks: the blocks from the tip up to the target were handed over consecutively, once each, all
   instructions were executed in the order of a stable sort by height, and no bucket is left, if and only if it
   did not break before the target was reached. It never does with templates that do not run ahead.
   */
  lemma {:induction false} BuildIsFaithful(node: Node, tip: nat, target: nat, ins: seq<Instruction>, ts: seq<Template>)
    requires AllInRange(ins, tip, target)
    requires Loop(node, target, Initial(ins, tip), ts).Ok?
    ensures var t := Loop(node, target, Initial(ins, tip), ts).state;
            && (t.next > target <==> BlockNumbers(t.events) == Range(tip + 1, target + 1))
            && (t.next > target ==> t.executed == ByHeight(ins, tip + 1, target + 1) && t.buckets == map[])
    ensures NeverAhead(node, target, Initial(ins, tip), ts) ==>
              Loop(node, target, Initial(ins, tip), ts).state.next > target
  {
    InitialInv(ins, tip, target);
    LoopInv(node, ins, tip, target, Initial(ins, tip), ts);
    var t := Loop(node, target, Initial(ins, tip), ts).state;
    RangeLength(tip + 1, t.next);
    if tip <= target {
      RangeLength(tip + 1, target + 1);
    }
    if ins != [] {
      TargetIsAbove(ins, tip, target);
    }
    if NeverAhead(node, target, Initial(ins, tip), ts) {
      NeverAheadReachesTarget(node, target, Initial(ins, tip), ts);
    }
  }

  /** A 2021 client whose node processes every block never panics in the loop. */
  lemma {:induction false} LoopDoesNotPanic(node: Node, target: nat, s: State, ts: seq<Template>)
    requires node.ckb2021 && forall es, block :: node.processes(es, block)
    ensures !Loop(node, target, s, ts).Panicked?
    decreases |ts|
  {
    if ts != [] && ts[0].number <= target {
      if ts[0].number != s.next {
        LoopDoesNotPanic(node, target, s, ts[1..]);
      } else {
        var (s1, v) := BuildOne(node, s.(next := s.next + 1), ts[0]);
        if v.HandedOver? {
          LoopDoesNotPanic(node, target, s1, ts[1..]);
        }
      }
    }
  }

  ghost predicate NoneBelow(ins: seq<Instruction>, n: nat) {
    forall k :: 0 <= k < |ins| ==> ins[k].templateNumber >= n
  }

  lemma {:induction false} PlainIn2019(node: Node, s: State, t: Template)
    requires !node.ckb2021 && BuildOne(node, s, t).1.HandedOver?
    ensures t.number !in s.buckets && BuildOne(node, s, t).0.next == s.next
  {
  }

  lemma {:induction false} NoneBelowNext(ins: seq<Instruction>, tip: nat, target: nat, s: State)
    requires Inv(ins, tip, target, s) && NoneBelow(ins, s.next) && s.next !in s.buckets
    ensures NoneBelow(ins, s.next + 1)
  {
    assert s.next !in Numbers(ins);
    assert forall k :: 0 <= k < |ins| ==> ins[k].templateNumber in Numbers(ins);
  }

  /** A 2019 client never gets past a height with an instruction. */
  lemma {:induction false} Loop2019(node: Node, ins: seq<Instruction>, tip: nat, target: nat, s: State, ts: seq<Template>)
    requires !node.ckb2021 && Inv(ins, tip, target, s) && NoneBelow(ins, s.next)
    ensures match Loop(node, target, s, ts)
            case Ok(t) => NoneBelow(ins, t.next)
            case Waiting(t) => NoneBelow(ins, t.next)
            case _ => true
    decreases |ts|
  {
    hide BuildOne, Inv, NoneBelow;
    if ts != [] && ts[0].number <= target {
      if ts[0].number != s.next {
        Loop2019(node, ins, tip, target, s, ts[1..]);
      } else {
        BuildOneInv(node, ins, tip, target, s, ts[0]);
        var (s1, v) := BuildOne(node, s.(next := s.next + 1), ts[0]);
        if v.HandedOver? {
          PlainIn2019(node, s.(next := s.next + 1), ts[0]);
          NoneBelowNext(ins, tip, target, s);
          Loop2019(node, ins, tip, target, s1, ts[1..]);
        }
      }
    }
  }

  /** So with one, building up to the target succeeds only without instructions. */
  lemma {:induction false} Build2019(node: Node, tip: nat, target: nat, ins: seq<Instruction>, ts: seq<Template>)
    requires !node.ckb2021 && AllInRange(ins, tip, target)
    ensures match Loop(node, target, Initial(ins, tip), ts)
            case Ok(t) => t.next > target ==> ins == []
            case _ => true
  {
    InitialInv(ins, tip, target);
    Loop2019(node, ins, tip, target, Initial(ins, tip), ts);
    if ins != [] && Loop(node, target, Initial(ins, tip), ts).Ok? {
      assert InRange(ins[0], tip, target);
    }
  }

  lemma {:induction false} RangeLength(a: nat, b: nat)
    requires a <= b
    ensures |Range(a, b)| == b - a && forall k :: 0 <= k < b - a ==> Range(a, b)[k] == a + k
    decreases b
  {
    if a < b {
      RangeLength(a, b - 1);
    }
  }

  // ---------------------------------------------------------------- the stable sort

  ghost predicate SortedByHeight(ins: seq<Instruction>) {
    forall i, j :: 0 <= i < j < |ins| ==> ins[i].templateNumber <= ins[j].templateNumber
  }

  lemma {:induction false} BucketConcat(a: seq<Instruction>, b: seq<Instruction>, n: nat)
    ensures Bucket(a + b, n) == Bucket(a, n) + Bucket(b, n)
    decreases |b|
  {
    if b == [] {
      assert a + b == a;
    } else {
      assert (a + b)[..|a + b| - 1] == a + b[..|b| - 1];
      BucketConcat(a, b[..|b| - 1], n);
    }
  }

  lemma {:induction false} BucketOfBucket(ins: seq<Instruction>, n: nat, m: nat)
    ensures Bucket(Bucket(ins, n), m) == if n == m then Bucket(ins, n) else []
    ensures forall k :: 0 <= k < |Bucket(ins, n)| ==> Bucket(ins, n)[k].templateNumber == n
    decreases |ins|
  {
    if ins != [] {
      var init, last := ins[..|ins| - 1], ins[|ins| - 1];
      BucketOfBucket(init, n, m);
      if last.templateNumber == n {
        BucketConcat(Bucket(init, n), [last], m);
        assert [last][..0] == [];
        assert Bucket([last], m) == if n == m then [last] else [];
      }
    }
  }

  /** ByHeight sorts. */
  lemma {:induction false} ByHeightIsSorted(ins: seq<Instruction>, a: nat, b: nat)
    ensures SortedByHeight(ByHeight(ins, a, b))
    ensures forall k :: 0 <= k < |ByHeight(ins, a, b)| ==> a <= ByHeight(ins, a, b)[k].templateNumber < b
    decreases b
  {
    if b > a {
      ByHeightIsSorted(ins, a, b - 1);
      BucketOfBucket(ins, b - 1, 0);
    }
  }

  /** It keeps the given order among instructions of one height. */
  lemma {:induction false} ByHeightIsStable(ins: seq<Instruction>, a: nat, b: nat, n: nat)
    ensures Bucket(ByHeight(ins, a, b), n) == if a <= n < b then Bucket(ins, n) else []
    decreases b
  {
    if b > a {
      ByHeightIsStable(ins, a, b - 1, n);
      BucketOfBucket(ins, b - 1, n);
      BucketConcat(ByHeight(ins, a, b - 1), Bucket(ins, b - 1), n);
    }
  }

  /** It loses and invents nothing. */
  lemma {:induction false} ByHeightIsPermutation(ins: seq<Instruction>, a: nat, b: nat)
    requires forall k :: 0 <= k < |ins| ==> a <= ins[k].templateNumber < b
    ensures multiset(ByHeight(ins, a, b)) == multiset(ins)
  {
    forall i: Instruction
      ensures multiset(ByHeight(ins, a, b))[i] == multiset(ins)[i]
    {
      var n := i.templateNumber;
      BucketCounts(ins, i);
      BucketCounts(ByHeight(ins, a, b), i);
      ByHeightIsStable(ins, a, b, n);
      if i in multiset(ins) {
        assert i in ins;
      }
      if !(a <= n < b) {
        assert i !in ins;
      }
    }
  }

  lemma {:induction false} BucketCounts(ins: seq<Instruction>, i: Instruction)
    ensures multiset(Bucket(ins, i.templateNumber))[i] == multiset(ins)[i]
    decreases |ins|
  {
    if ins != [] {
      var init, last := ins[..|ins| - 1], ins[|ins| - 1];
      assert ins == init + [last];
      BucketCounts(init, i);
    }
  }

  /** There is only one such sequence. */
  lemma {:induction false} StableSortIsUnique(a: seq<Instruction>, b: seq<Instruction>)
    requires SortedByHeight(a) && SortedByHeight(b) && forall n :: Bucket(a, n) == Bucket(b, n)
    ensures a == b
    decreases |a|
  {
    if a == [] {
      assert b == [] || Bucket(a, b[|b| - 1].templateNumber) == Bucket(b, b[|b| - 1].templateNumber);
    } else {
      var i := a[|a| - 1];
      var m := i.templateNumber;
      assert Bucket(b, m) != [];
      LastIsHighest(a, b);
      LastIsHighest(b, a);
      var j := b[|b| - 1];
      var a1, b1 := a[..|a| - 1], b[..|b| - 1];
      forall n: nat
        ensures Bucket(a1, n) == Bucket(b1, n)
      {
        assert Bucket(a, n) == Bucket(b, n);
        assert n == m ==> Bucket(a, n)[..|Bucket(a, n)| - 1] == Bucket(a1, n);
        assert n == m ==> Bucket(b, n)[..|Bucket(b, n)| - 1] == Bucket(b1, n);
      }
      StableSortIsUnique(a1, b1);
      assert i == Bucket(a, m)[|Bucket(a, m)| - 1] == Bucket(b, m)[|Bucket(b, m)| - 1] == j;
      assert a == a1 + [i] && b == b1 + [j];
    }
  }

  lemma {:induction false} LastIsHighest(a: seq<Instruction>, b: seq<Instruction>)
    requires a != [] && b != [] && SortedByHeight(b) && forall n :: Bucket(a, n) == Bucket(b, n)
    ensures a[|a| - 1].templateNumber <= b[|b| - 1].templateNumber
  {
    var n := a[|a| - 1].templateNumber;
    assert Bucket(a, n) != [];
    BucketEmpty(b, n);
  }

  // ---------------------------------------------------------------- edits of a template

  /** The timestamp of the last instruction that sets one. */
  function LastTime(ins: seq<Instruction>, time: nat): nat {
    if ins == [] then time
    else LastTime(ins[1..], if ins[0].HeaderTimestamp? then ins[0].timestamp else time)
  }

  function ProposedIds(ins: seq<Instruction>): seq<ProposalId> {
    if ins == [] then []
    else if ins[0].Propose? then [ins[0].id] + ProposedIds(ins[1..])
    else ProposedIds(ins[1..])
  }

  function CommittedTxs(ins: seq<Instruction>): seq<TxHash> {
    if ins == [] then []
    else if ins[0].Commit? then [ins[0].tx] + CommittedTxs(ins[1..])
    else CommittedTxs(ins[1..])
  }

  /** Where x occurs first in xs. */
  function IndexIn<T(==)>(xs: seq<T>, x: T): nat
    requires x in xs
  {
    if xs[0] == x then 0 else IndexIn(xs[1..], x) + 1
  }

  /** `r` is `s`, then what `xs` has besides, each once and in the order of first occurrences. */
  ghost predicate Extends<T(!new)>(r: seq<T>, s: seq<T>, xs: seq<T>) {
    && s <= r
    && (forall x :: x in r <==> x in s || x in xs)
    && (forall i :: |s| <= i < |r| ==> r[i] in xs && r[i] !in s)
    && (forall i, j :: |s| <= i < j < |r| ==> r[i] != r[j] && IndexIn(xs, r[i]) < IndexIn(xs, r[j]))
  }

  lemma {:induction false} ExtendsNone<T(!new)>(s: seq<T>)
    ensures Extends(s, s, [])
  {
  }

  lemma {:induction false} ExtendsOne<T(!new)>(s: seq<T>, x: T, r: seq<T>, xs: seq<T>)
    requires Extends(r, AddNew(s, x), xs)
    ensures Extends(r, s, [x] + xs)
  {
    var all := [x] + xs;
    assert all[1..] == xs;
    assert forall y :: y in all <==> y == x || y in xs;
    assert forall y :: y in xs && y != x ==> IndexIn(all, y) == IndexIn(xs, y) + 1;
    assert IndexIn(all, x) == 0;
    var t := AddNew(s, x);
    assert forall i :: |t| <= i < |r| ==> r[i] !in t && r[i] != x;
    assert x !in s ==> r[|s|] == t[|s|] == x;
  }

  /** After a bucket the block has the template's proposals and transactions, and the instructed ones once each. */
  lemma {:induction false} ExecuteExtends(node: Node, d: Draft, ins: seq<Instruction>)
    requires d.ok
    ensures var r := Execute(node, d, ins);
            r.ok ==>
              && Extends(r.template.proposals, d.template.proposals, ProposedIds(ins))
              && Extends(r.template.transactions, d.template.transactions, CommittedTxs(ins))
              && r.template.currentTime == LastTime(ins, d.template.currentTime)
              && (r.unverified <==> d.unverified || exists k :: 0 <= k < |ins| && ins[k].ProcessWithoutVerify?)
    decreases |ins|
  {
    hide Extends;
    ExtendsNone(d.template.proposals);
    ExtendsNone(d.template.transactions);
    if ins != [] {
      var i, d1 := ins[0], ExecuteOne(node, d, ins[0]);
      if d1.ok {
        ExecuteExtends(node, d1, ins[1..]);
        var r := Execute(node, d1, ins[1..]);
        if r.ok {
          if i.Propose? {
            ExtendsOne(d.template.proposals, i.id, r.template.proposals, ProposedIds(ins[1..]));
          }
          if i.Commit? {
            ExtendsOne(d.template.transactions, i.tx, r.template.transactions, CommittedTxs(ins[1..]));
          }
          assert forall k :: 0 < k < |ins| ==> ins[k] == ins[1..][k - 1];
        }
      }
    }
  }
}
