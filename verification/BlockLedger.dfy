/** What the node is handed for each height, over whole runs of building a chain. */
module BlockLedger {
  import opened Sequences
  import opened Wrappers
  import opened BlockBuilder

  function SentTxs(ins: seq<Instruction>): seq<TxHash> {
    if ins == [] then []
    else if ins[0].SendTransaction? then [ins[0].tx] + SentTxs(ins[1..])
    else SentTxs(ins[1..])
  }

  function Broadcasts(txs: seq<TxHash>): seq<Event> {
    seq(|txs|, k requires 0 <= k < |txs| => Broadcast(txs[k]))
  }

  /** The node took each of the transactions, one after the other. */
  ghost predicate Took(node: Node, before: seq<Event>, txs: seq<TxHash>) {
    forall k :: 0 <= k < |txs| ==> node.accepts(before + Broadcasts(txs[..k]), txs[k])
  }

  /** Without instructions the block is the template; with them it is the edited one, with the node's DAO field. */
  ghost predicate IsEdit(node: Node, bucket: seq<Instruction>, es: seq<Event>, t: Template, block: Template) {
    if bucket == [] then block == t
    else
      && block.number == t.number
      && Extends(block.proposals, t.proposals, ProposedIds(bucket))
      && Extends(block.transactions, t.transactions, CommittedTxs(bucket))
      && block.currentTime == LastTime(bucket, t.currentTime)
      && node.daoField(es, block.(dao := t.dao)) == Some(block.dao)
  }

  ghost predicate ComesFrom(node: Node, bucket: seq<Instruction>, es: seq<Event>, ts: seq<Template>, block: Template) {
    exists t :: t in ts && IsEdit(node, bucket, es, t, block)
  }

  /**
   What height n adds to the events before: its transactions broadcast in order, and then one block, made from a
   template, which skips verification exactly when instructed.
   */
  ghost predicate IsHandOver(node: Node, ins: seq<Instruction>, ts: seq<Template>, before: seq<Event>,
                             added: seq<Event>, n: nat) {
    && added != []
    && var txs, last := SentTxs(Bucket(ins, n)), added[|added| - 1];
       var es := before + Broadcasts(txs);
       && added == Broadcasts(txs) + [last] && Took(node, before, txs)
       && !last.Broadcast? && last.block.number == n
       && (last.Processed? <==> ProcessWithoutVerify(n) in ins)
       && ComesFrom(node, Bucket(ins, n), es, ts, last.block)
       && (if last.Processed? then node.processes(es, last.block) else node.submits(es, last.block))
  }

  /** The events are those of the heights from a up to but not including b, one height after the other. */
  ghost predicate AllHandedOver(node: Node, ins: seq<Instruction>, ts: seq<Template>, es: seq<Event>, a: nat, b: nat)
    decreases b
  {
    if b <= a then es == []
    else exists m :: 0 <= m <= |es| && AllHandedOver(node, ins, ts, es[..m], a, b - 1) &&
                     IsHandOver(node, ins, ts, es[..m], es[m..], b - 1)
  }

  /** All heights before n, and of n only some of its transactions. */
  ghost predicate StoppedAt(node: Node, ins: seq<Instruction>, ts: seq<Template>, es: seq<Event>, a: nat, n: nat) {
    exists m :: 0 <= m <= |es| && AllHandedOver(node, ins, ts, es[..m], a, n) &&
                es[m..] <= Broadcasts(SentTxs(Bucket(ins, n)))
  }

  // ---------------------------------------------------------------- one height

  lemma {:induction false} BroadcastsFront(tx: TxHash, txs: seq<TxHash>)
    ensures Broadcasts([tx] + txs) == [Broadcast(tx)] + Broadcasts(txs)
  {
  }

  lemma {:induction false} TookFront(node: Node, before: seq<Event>, tx: TxHash, txs: seq<TxHash>)
    requires node.accepts(before, tx) && Took(node, before + [Broadcast(tx)], txs)
    ensures Took(node, before, [tx] + txs)
  {
    var all := [tx] + txs;
    forall k | 0 <= k < |all|
      ensures node.accepts(before + Broadcasts(all[..k]), all[k])
    {
      if k == 0 {
        assert before + Broadcasts(all[..0]) == before;
      } else {
        assert all[..k] == [tx] + txs[..k - 1];
        BroadcastsFront(tx, txs[..k - 1]);
        assert before + Broadcasts(all[..k]) == before + [Broadcast(tx)] + Broadcasts(txs[..k - 1]);
      }
    }
  }

  /** Executing a bucket broadcasts its transactions and nothing else, all of them unless one is refused. */
  lemma {:induction false} ExecuteSends(node: Node, d: Draft, ins: seq<Instruction>)
    requires d.ok
    ensures var r, txs := Execute(node, d, ins), SentTxs(ins);
            && d.events <= r.events <= d.events + Broadcasts(txs)
            && (r.ok ==> r.events == d.events + Broadcasts(txs) && Took(node, d.events, txs))
            && (r.ok ==> r.template.dao == d.template.dao && r.template.number == d.template.number)
    decreases |ins|
  {
    if ins != [] {
      var d1, rest := ExecuteOne(node, d, ins[0]), SentTxs(ins[1..]);
      if d1.ok {
        ExecuteSends(node, d1, ins[1..]);
        if ins[0].SendTransaction? {
          BroadcastsFront(ins[0].tx, rest);
          assert d.events + Broadcasts([ins[0].tx] + rest) == d1.events + Broadcasts(rest);
          if Execute(node, d1, ins[1..]).ok {
            TookFront(node, d.events, ins[0].tx, rest);
          }
        }
      }
    } else {
      assert d.events + Broadcasts([]) == d.events;
    }
  }

  lemma {:induction false} BucketHas(ins: seq<Instruction>, n: nat, i: Instruction)
    requires i.templateNumber == n
    ensures i in Bucket(ins, n) <==> i in ins
    decreases |ins|
  {
    if ins != [] {
      BucketHas(ins[..|ins| - 1], n, i);
      assert ins == ins[..|ins| - 1] + [ins[|ins| - 1]];
    }
  }

  /** The verification flag is set exactly when the height has an instruction to skip it. */
  lemma {:induction false} FlagIsInstructed(ins: seq<Instruction>, n: nat)
    ensures (exists k :: 0 <= k < |Bucket(ins, n)| && Bucket(ins, n)[k].ProcessWithoutVerify?) <==>
              ProcessWithoutVerify(n) in ins
  {
    var bucket := Bucket(ins, n);
    BucketHas(ins, n, ProcessWithoutVerify(n));
    BucketOfBucket(ins, n, n);
    if k: nat :| k < |bucket| && bucket[k].ProcessWithoutVerify? {
      assert bucket[k] == ProcessWithoutVerify(n);
      assert bucket[k] in bucket;
    }
  }

  lemma {:induction false} EditedHandOver(node: Node, ins: seq<Instruction>, ts: seq<Template>, t: Template, d0: Draft)
    requires t in ts && Bucket(ins, t.number) != [] && d0.ok && d0.template == t && !d0.unverified
    requires var d := Execute(node, d0, Bucket(ins, t.number)); d.ok && Finish(node, d).1.HandedOver?
    ensures var es := Finish(node, Execute(node, d0, Bucket(ins, t.number))).0;
            d0.events <= es && IsHandOver(node, ins, ts, d0.events, es[|d0.events|..], t.number)
  {
    hide Execute, Bucket, Extends, SentTxs, Took;
    var bucket := Bucket(ins, t.number);
    var d := Execute(node, d0, bucket);
    ExecuteSends(node, d0, bucket);
    ExecuteExtends(node, d0, bucket);
    FlagIsInstructed(ins, t.number);
    var es := d0.events + Broadcasts(SentTxs(bucket));
    var block := d.template.(dao := node.daoField(d.events, d.template).value);
    var last := if d.unverified then Processed(block) else Submitted(block);
    assert Finish(node, d).0 == es + [last];
    assert (es + [last])[|d0.events|..] == Broadcasts(SentTxs(bucket)) + [last];
    assert block.(dao := t.dao) == d.template;
    assert IsEdit(node, bucket, es, t, block);
  }

  lemma {:induction false} PlainHandOver(node: Node, ins: seq<Instruction>, ts: seq<Template>, t: Template,
                                         before: seq<Event>)
    requires t in ts && Bucket(ins, t.number) == [] && node.submits(before, t)
    ensures IsHandOver(node, ins, ts, before, [Submitted(t)], t.number)
  {
    var n := t.number;
    BucketHas(ins, n, ProcessWithoutVerify(n));
    assert SentTxs([]) == [] && Broadcasts([]) == [];
    assert before + Broadcasts([]) == before;
    assert Broadcasts([]) + [Submitted(t)] == [Submitted(t)];
    assert IsEdit(node, [], before, t, t);
    assert ComesFrom(node, Bucket(ins, n), before, ts, t);
  }

  // ---------------------------------------------------------------- the loop

  ghost predicate HasBucket(ins: seq<Instruction>, s: State) {
    if s.next in s.buckets then s.buckets[s.next] == Bucket(ins, s.next) && Bucket(ins, s.next) != []
    else Bucket(ins, s.next) == []
  }

  lemma {:induction false} InvHasBucket(ins: seq<Instruction>, tip: nat, target: nat, s: State)
    requires Inv(ins, tip, target, s)
    ensures HasBucket(ins, s)
  {
    BucketEmpty(ins, s.next);
  }

  /** One height: handed over as it should be, or only some of its transactions broadcast. */
  lemma {:induction false} BuildOneHandsOver(node: Node, ins: seq<Instruction>, ts: seq<Template>, s: State, t: Template)
    requires t in ts && t.number == s.next && HasBucket(ins, s)
    ensures var (s1, v) := BuildOne(node, s.(next := s.next + 1), t);
            && s.events <= s1.events && s1.next == s.next + 1
            && if v.HandedOver? then IsHandOver(node, ins, ts, s.events, s1.events[|s.events|..], s.next)
               else s1.events[|s.events|..] <= Broadcasts(SentTxs(Bucket(ins, s.next)))
  {
    hide Execute, Bucket, IsHandOver, SentTxs;
    var (s1, v) := BuildOne(node, s.(next := s.next + 1), t);
    if s.next in s.buckets {
      var d0 := Draft(t, s.events, s.executed, false, true);
      ExecuteSends(node, d0, s.buckets[s.next]);
      if v.HandedOver? {
        EditedHandOver(node, ins, ts, t, d0);
      }
    } else if v.HandedOver? {
      PlainHandOver(node, ins, ts, t, s.events);
      assert (s.events + [Submitted(t)])[|s.events|..] == [Submitted(t)];
    }
  }

  lemma {:induction false} HandOverMore(node: Node, ins: seq<Instruction>, ts: seq<Template>, before: seq<Event>,
                                        es: seq<Event>, a: nat, n: nat)
    requires a <= n && before <= es && AllHandedOver(node, ins, ts, before, a, n)
    requires IsHandOver(node, ins, ts, before, es[|before|..], n)
    ensures AllHandedOver(node, ins, ts, es, a, n + 1)
  {
    assert es[..|before|] == before;
  }

  lemma {:induction false} StopsThere(node: Node, ins: seq<Instruction>, ts: seq<Template>, before: seq<Event>,
                                      es: seq<Event>, a: nat, n: nat)
    requires before <= es && AllHandedOver(node, ins, ts, before, a, n)
    requires es[|before|..] <= Broadcasts(SentTxs(Bucket(ins, n)))
    ensures StoppedAt(node, ins, ts, es, a, n)
  {
    assert es[..|before|] == before;
  }

  /** At any time the node has been handed all heights so far, each as it should be. */
  lemma {:induction false} LoopHandsOver(node: Node, ins: seq<Instruction>, tip: nat, target: nat, s: State,
                                         all: seq<Template>, ts: seq<Template>)
    requires Inv(ins, tip, target, s) && AllHandedOver(node, ins, all, s.events, tip + 1, s.next)
    requires forall t :: t in ts ==> t in all
    ensures match Loop(node, target, s, ts)
            case Ok(t) => AllHandedOver(node, ins, all, t.events, tip + 1, t.next)
            case Waiting(t) => AllHandedOver(node, ins, all, t.events, tip + 1, t.next)
            case Err(t) => t.next > 0 && StoppedAt(node, ins, all, t.events, tip + 1, t.next - 1)
            case Panicked => true
    decreases |ts|
  {
    hide AllHandedOver, BuildOne, IsHandOver, Inv, StoppedAt;
    if ts != [] && ts[0].number <= target {
      if ts[0].number != s.next {
        LoopHandsOver(node, ins, tip, target, s, all, ts[1..]);
      } else {
        InvHasBucket(ins, tip, target, s);
        NextAboveTip(ins, tip, target, s);
        BuildOneHandsOver(node, ins, all, s, ts[0]);
        var (s1, v) := BuildOne(node, s.(next := s.next + 1), ts[0]);
        if v.HandedOver? {
          BuildOneInv(node, ins, tip, target, s, ts[0]);
          HandOverMore(node, ins, all, s.events, s1.events, tip + 1, s.next);
          LoopHandsOver(node, ins, tip, target, s1, all, ts[1..]);
        } else {
          StopsThere(node, ins, all, s.events, s1.events, tip + 1, s.next);
        }
      }
    }
  }

  lemma {:induction false} NextAboveTip(ins: seq<Instruction>, tip: nat, target: nat, s: State)
    requires Inv(ins, tip, target, s)
    ensures tip < s.next
  {
  }

  /**
   Over every run: each height handed over had exactly its transactions broadcast, in order, and then one block: the
   template itself without instructions, else the template extended as instructed with the node's DAO field, and
   without verification exactly when instructed.
   */
  lemma {:induction false} BuildHandsOver(node: Node, tip: nat, target: nat, ins: seq<Instruction>, ts: seq<Template>)
    requires AllInRange(ins, tip, target)
    ensures match Loop(node, target, Initial(ins, tip), ts)
            case Ok(t) => AllHandedOver(node, ins, ts, t.events, tip + 1, t.next)
            case Waiting(t) => AllHandedOver(node, ins, ts, t.events, tip + 1, t.next)
            case Err(t) => t.next > 0 && StoppedAt(node, ins, ts, t.events, tip + 1, t.next - 1)
            case Panicked => true
  {
    InitialInv(ins, tip, target);
    LoopHandsOver(node, ins, tip, target, Initial(ins, tip), ts, ts);
  }

  // ---------------------------------------------------------------- a node that takes everything

  ghost predicate IsWilling(node: Node) {
    && node.ckb2021
    && (forall es, tx :: node.accepts(es, tx))
    && (forall es, block :: node.daoField(es, block).Some? && node.submits(es, block) && node.processes(es, block))
  }

  lemma {:induction false} WillingExecutes(node: Node, d: Draft, ins: seq<Instruction>)
    requires IsWilling(node) && d.ok
    ensures Execute(node, d, ins).ok
    decreases |ins|
  {
    if ins != [] {
      WillingExecutes(node, ExecuteOne(node, d, ins[0]), ins[1..]);
    }
  }

  /** Only the node's refusals make building fail. */
  lemma {:induction false} WillingNodeSucceeds(node: Node, target: nat, s: State, ts: seq<Template>)
    requires IsWilling(node)
    ensures Loop(node, target, s, ts).Ok? || Loop(node, target, s, ts).Waiting?
    decreases |ts|
  {
    if ts != [] && ts[0].number <= target {
      if ts[0].number != s.next {
        WillingNodeSucceeds(node, target, s, ts[1..]);
      } else {
        if s.next in s.buckets {
          WillingExecutes(node, Draft(ts[0], s.events, s.executed, false, true), s.buckets[s.next]);
        }
        var (s1, v) := BuildOne(node, s.(next := s.next + 1), ts[0]);
        assert v.HandedOver?;
        WillingNodeSucceeds(node, target, s1, ts[1..]);
      }
    }
  }
}
