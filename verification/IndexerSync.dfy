/** Bringing the block index in line with the node's chain (ckb-testkit/src/node/indexer.rs). */
module IndexerSync {
  import opened Wrappers
  import opened Chain

  /**
   The node as its RPC calls see it: `history` holds the chain in force at each successive call, arbitrarily
   reorganised from one to the next; the last one stays in force.
   */
  class Node {
    const history: seq<Blocks>
    var calls: nat

    constructor (history: seq<Blocks>)
      ensures this.history == history && calls == 0
    {
      this.history, calls := history, 0;
    }

    ghost predicate Valid()
    {
      history != [] && forall i :: 0 <= i < |history| ==> history[i] != [] && Linked(history[i])
    }

    function ChainAt(call: nat): Blocks
      requires history != []
    {
      if call < |history| then history[call] else history[|history| - 1]
    }

    method GetBlockByNumber(number: nat) returns (r: Option<Block>)
      requires history != []
      modifies this
      ensures calls == old(calls) + 1
      ensures var c := ChainAt(old(calls)); r == if number < |c| then Some(c[number]) else None
    {
      var c := ChainAt(calls);
      calls := calls + 1;
      return if number < |c| then Some(c[number]) else None;
    }

    method GetBlockHash(number: nat) returns (r: Option<Hash>)
      requires history != []
      modifies this
      ensures calls == old(calls) + 1
      ensures var c := ChainAt(old(calls)); r == if number < |c| then Some(Of(c[number])) else None
    {
      var c := ChainAt(calls);
      calls := calls + 1;
      return if number < |c| then Some(Of(c[number])) else None;
    }
  }

  /** The index. `trail` records its contents after every change. */
  class Indexer {
    var blocks: Blocks
    ghost var trail: seq<Blocks>

    constructor (blocks: Blocks)
      ensures this.blocks == blocks && trail == []
    {
      this.blocks, trail := blocks, [];
    }

    method Tip() returns (tip: Option<(nat, Hash)>)
      ensures tip == if blocks == [] then None else Some((blocks[|blocks| - 1].number, Of(blocks[|blocks| - 1])))
    {
      if blocks == [] {
        return None;
      }
      var last := blocks[|blocks| - 1];
      return Some((last.number, Of(last)));
    }

    method Append(b: Block)
      modifies this
      ensures blocks == old(blocks) + [b] && trail == old(trail) + [blocks]
    {
      blocks := blocks + [b];
      trail := trail + [blocks];
    }

    method Rollback()
      requires blocks != []
      modifies this
      ensures blocks == old(blocks)[..|old(blocks)| - 1] && trail == old(trail) + [blocks]
    {
      blocks := blocks[..|blocks| - 1];
      trail := trail + [blocks];
    }
  }

  /** The contents passed through by rolling `index` back to length k. */
  function Descent(index: Blocks, k: nat): (d: seq<Blocks>)
    requires k <= |index|
    ensures |d| == |index| - k
    decreases |index|
  {
    if |index| == k then [] else [index[..|index| - 1]] + Descent(index[..|index| - 1], k)
  }

  /** The contents passed through by growing from the first k blocks of `chain` to all of it. */
  function Ascent(chain: Blocks, k: nat): (u: seq<Blocks>)
    requires k <= |chain|
    ensures |u| == |chain| - k
    decreases |chain| - k
  {
    if |chain| == k then [] else [chain[..k + 1]] + Ascent(chain, k + 1)
  }

  /** The shortest way from `index` to `chain` by rollbacks and appends: down to the common prefix, then up. */
  function Plan(index: Blocks, chain: Blocks): (p: seq<Blocks>)
    ensures |p| == (|index| - Common(index, chain)) + (|chain| - Common(index, chain))
  {
    Descent(index, Common(index, chain)) + Ascent(chain, Common(index, chain))
  }

  method WaitForIndexerSynced(node: Node, indexer: Indexer)
    requires node.Valid() && Linked(indexer.blocks)
    modifies node, indexer
    // Safety under reorganisation: the index is linked after every change, and at the end it is a prefix of
    // the chain seen by the last call, and the whole of it if the last two calls saw the same chain.
    ensures old(indexer.trail) <= indexer.trail && AllLinked(indexer.trail[|old(indexer.trail)|..])
    ensures Linked(indexer.blocks) && indexer.blocks != []
    ensures node.calls >= old(node.calls) + 2
    ensures indexer.blocks <= node.ChainAt(node.calls - 1)
    ensures node.ChainAt(node.calls - 2) == node.ChainAt(node.calls - 1) ==>
              indexer.blocks == node.ChainAt(node.calls - 1)
    // On a chain that stays: exactly the shortest way, and then the index is the chain.
    ensures old(node.calls) >= |node.history| - 1 ==>
              indexer.trail == old(indexer.trail) + Plan(old(indexer.blocks), node.ChainAt(old(node.calls))) &&
              indexer.blocks == node.ChainAt(old(node.calls))
  {
    hide Plan, Distance, IsStep, Linked;
    ghost var last := node.history[|node.history| - 1];
    ghost var steps, fixed := [], node.calls >= |node.history| - 1;
    var done := false;
    while !done
      invariant Linked(indexer.blocks) && old(node.calls) <= node.calls
      invariant indexer.trail == old(indexer.trail) + steps && AllLinked(steps)
      invariant fixed ==> steps + Plan(indexer.blocks, last) == Plan(old(indexer.blocks), last)
      invariant done ==> node.calls >= old(node.calls) + 2 && Settled(node, indexer)
      decreases !done, if node.calls < |node.history| then |node.history| - node.calls else 0,
                Distance(indexer.blocks, last)
    {
      ghost var index := indexer.blocks;
      ghost var seen;
      done, seen := SyncOnce(node, indexer);
      if !done {
        StepIsLinked(index, indexer.blocks, seen);
        if seen == last {
          StepIsNext(index, indexer.blocks, last, steps);
        }
        steps := steps + [indexer.blocks];
      }
    }
    if fixed {
      assert indexer.blocks == last;
      PlanDone(last);
      assert steps + [] == steps;
    }
  }

  /** The state in which the loop breaks. */
  ghost predicate Settled(node: Node, indexer: Indexer)
    requires node.history != []
    reads node, indexer
  {
    && node.calls >= 2 && indexer.blocks != []
    && indexer.blocks <= node.ChainAt(node.calls - 1)
    && (node.ChainAt(node.calls - 2) == node.ChainAt(node.calls - 1) ==> indexer.blocks == node.ChainAt(node.calls - 1))
  }

  /** One round of the loop; `seen` is the chain its last call saw. */
  method SyncOnce(node: Node, indexer: Indexer) returns (done: bool, ghost seen: Blocks)
    requires node.Valid() && Linked(indexer.blocks)
    modifies node, indexer
    ensures old(node.calls) < node.calls && seen == node.ChainAt(node.calls - 1)
    ensures done ==>
              node.calls == old(node.calls) + 2 && Settled(node, indexer) &&
              indexer.blocks == old(indexer.blocks) && indexer.trail == old(indexer.trail)
    ensures !done ==>
              IsStep(old(indexer.blocks), indexer.blocks, seen) && indexer.trail == old(indexer.trail) + [indexer.blocks]
  {
    var tip := indexer.Tip();
    ghost var index := indexer.blocks;
    seen := node.ChainAt(node.calls);
    if tip.Some? {
      var (tipNumber, tipHash) := tip.value;
      var block := node.GetBlockByNumber(tipNumber + 1);
      if block.Some? {
        NextBlock(index, seen);
        if block.value.parent != tipHash {
          indexer.Rollback();
        } else {
          indexer.Append(block.value);
        }
      } else {
        seen := node.ChainAt(node.calls);
        var hash := node.GetBlockHash(tipNumber);
        SameTip(index, seen);
        if hash != Some(tipHash) {
          indexer.Rollback();
        } else {
          return true, seen;
        }
      }
    } else {
      var genesis := node.GetBlockByNumber(0);
      indexer.Append(genesis.value);
    }
    return false, seen;
  }

  ghost predicate AllLinked(steps: seq<Blocks>) {
    forall i :: 0 <= i < |steps| ==> Linked(steps[i])
  }

  /** How many changes the shortest way takes. */
  function Distance(index: Blocks, chain: Blocks): nat {
    |index| + |chain| - 2 * Common(index, chain)
  }

  /** Off the common prefix, a rollback; on it, an append of the chain's next block. */
  ghost predicate IsStep(index: Blocks, changed: Blocks, chain: Blocks) {
    if Common(index, chain) < |index| then changed == index[..|index| - 1]
    else |index| < |chain| && changed == index + [chain[|index|]]
  }

  lemma {:induction false} StepIsLinked(index: Blocks, changed: Blocks, chain: Blocks)
    requires Linked(index) && Linked(chain) && IsStep(index, changed, chain)
    ensures Linked(changed)
  {
    if Common(index, chain) == |index| {
      IndexIsPrefix(index, chain);
      assert forall i :: 0 <= i < |changed| ==> changed[i] == chain[i];
    }
  }

  /** The block above the tip names the tip as its parent exactly when the index is a prefix of the chain. */
  lemma {:induction false} NextBlock(index: Blocks, chain: Blocks)
    requires Linked(index) && Linked(chain) && 0 < |index| < |chain|
    ensures chain[|index|].parent == Of(index[|index| - 1]) <==> Common(index, chain) == |index|
  {
    AgreeIffCommon(index, chain, |index| - 1);
  }

  lemma {:induction false} SameTip(index: Blocks, chain: Blocks)
    requires Linked(index) && Linked(chain) && index != []
    ensures |index| <= |chain| && chain[|index| - 1] == index[|index| - 1] <==> Common(index, chain) == |index|
    ensures Common(index, chain) == |index| ==> index <= chain
  {
    if |index| <= |chain| {
      AgreeIffCommon(index, chain, |index| - 1);
    }
    CommonAgrees(index, chain);
    assert index[..|index|] == index;
  }

  /** Every change is the next one of the shortest way to the chain it was made for. */
  lemma {:induction false} StepIsNext(index: Blocks, changed: Blocks, chain: Blocks, steps: seq<Blocks>)
    requires IsStep(index, changed, chain)
    ensures Distance(changed, chain) == Distance(index, chain) - 1
    ensures steps + Plan(index, chain) == steps + [changed] + Plan(changed, chain)
  {
    if Common(index, chain) < |index| {
      PlanDown(index, chain);
    } else {
      PlanUp(index, chain);
    }
    assert steps + ([changed] + Plan(changed, chain)) == steps + [changed] + Plan(changed, chain);
  }

  lemma {:induction false} PlanDone(chain: Blocks)
    ensures Plan(chain, chain) == []
  {
    CommonIs(chain, chain, |chain|);
  }

  /** Off the common prefix, the shortest way begins with a rollback. */
  lemma {:induction false} PlanDown(index: Blocks, chain: Blocks)
    requires index != [] && Common(index, chain) < |index|
    ensures var less := index[..|index| - 1];
            Common(less, chain) == Common(index, chain) && Plan(index, chain) == [less] + Plan(less, chain)
  {
    var k, short := Common(index, chain), index[..|index| - 1];
    CommonAgrees(index, chain);
    assert short[..k] == index[..k];
    CommonIs(short, chain, k);
    assert Plan(index, chain) == [short] + (Descent(short, k) + Ascent(chain, k));
  }

  /** On the common prefix, it begins with an append. */
  lemma {:induction false} PlanUp(index: Blocks, chain: Blocks)
    requires Common(index, chain) == |index| < |chain|
    ensures var more := index + [chain[|index|]];
            Common(more, chain) == |more| && Plan(index, chain) == [more] + Plan(more, chain)
  {
    var k, more := |index|, index + [chain[|index|]];
    IndexIsPrefix(index, chain);
    CommonIs(more, chain, k + 1);
    PlanOfPrefix(index, chain);
    PlanOfPrefix(more, chain);
    AscentStep(index, chain);
  }

  lemma {:induction false} IndexIsPrefix(index: Blocks, chain: Blocks)
    requires Common(index, chain) == |index|
    ensures index <= chain
    ensures |index| < |chain| ==> chain[..|index| + 1] == index + [chain[|index|]]
  {
    CommonAgrees(index, chain);
    assert index[..|index|] == index;
  }

  lemma {:induction false} PlanOfPrefix(index: Blocks, chain: Blocks)
    requires Common(index, chain) == |index|
    ensures Plan(index, chain) == Ascent(chain, |index|)
  {
    assert Descent(index, |index|) == [];
  }

  lemma {:induction false} AscentStep(index: Blocks, chain: Blocks)
    requires Common(index, chain) == |index| < |chain|
    ensures Ascent(chain, |index|) == [index + [chain[|index|]]] + Ascent(chain, |index| + 1)
  {
    IndexIsPrefix(index, chain);
    assert chain[..|index| + 1] == index + [chain[|index|]];
  }
}
