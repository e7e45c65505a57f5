/**
 The last block that several chains share (ckb-testkit/src/nodes/chain.rs, get_fixed_header), and pulling
 a chain over to a node block by block (ckb-testkit/src/node/builder.rs, pull_node).
 */
module ChainPull {
  import opened Wrappers
  import opened Chain

  // ---------------------------------------------------------------- get_fixed_header

  ghost predicate AreChains(chains: seq<Blocks>) {
    chains != [] && forall i :: 0 <= i < |chains| ==> chains[i] != [] && Linked(chains[i])
  }

  /** The least tip number. */
  function MinTip(chains: seq<Blocks>): (m: nat)
    requires chains != [] && forall i :: 0 <= i < |chains| ==> chains[i] != []
    ensures forall i :: 0 <= i < |chains| ==> m < |chains[i]|
    ensures exists i :: 0 <= i < |chains| && m == |chains[i]| - 1
  {
    var last := |chains| - 1;
    var tip := |chains[last]| - 1;
    if last == 0 then tip
    else
      var m := MinTip(chains[..last]);
      assert forall i :: 0 <= i < last ==> chains[..last][i] == chains[i];
      if m < tip then m else tip
  }

  /** The different blocks the chains have at a height. */
  function HeadersAt(chains: seq<Blocks>, n: nat): set<Block>
    requires forall i :: 0 <= i < |chains| ==> n < |chains[i]|
  {
    set i | 0 <= i < |chains| :: chains[i][n]
  }

  /** The highest height from n downwards at which there is one block; None stands for the unreachable end. */
  function FixedFrom(chains: seq<Blocks>, n: nat): Option<Block>
    requires chains != [] && forall i :: 0 <= i < |chains| ==> n < |chains[i]|
  {
    if |HeadersAt(chains, n)| == 1 then Some(chains[0][n])
    else if n == 0 then None
    else FixedFrom(chains, n - 1)
  }

  function FixedHeader(chains: seq<Blocks>): Option<Block>
    requires chains != [] && forall i :: 0 <= i < |chains| ==> chains[i] != []
  {
    FixedFrom(chains, MinTip(chains))
  }

  ghost predicate AgreeAt(chains: seq<Blocks>, n: nat) {
    forall i, j :: 0 <= i < |chains| && 0 <= j < |chains| ==>
      n < |chains[i]| && n < |chains[j]| && chains[i][n] == chains[j][n]
  }

  lemma {:induction false} OneHeaderIffAgree(chains: seq<Blocks>, n: nat)
    requires chains != [] && forall i :: 0 <= i < |chains| ==> n < |chains[i]|
    ensures |HeadersAt(chains, n)| == 1 <==> AgreeAt(chains, n)
  {
    var hs, first := HeadersAt(chains, n), chains[0][n];
    assert first in hs;
    if AgreeAt(chains, n) {
      assert hs == {first};
    }
    if |hs| == 1 {
      assert |hs - {first}| == 0;
      assert forall i :: 0 <= i < |chains| ==> chains[i][n] in hs && chains[i][n] !in hs - {first};
    }
  }

  /** Agreement at a height carries over to every lower one. */
  lemma {:induction false} AgreeBelow(chains: seq<Blocks>, n: nat, m: nat)
    requires AreChains(chains) && AgreeAt(chains, n) && m <= n
    ensures AgreeAt(chains, m)
  {
    forall i, j | 0 <= i < |chains| && 0 <= j < |chains|
      ensures m < |chains[i]| && m < |chains[j]| && chains[i][m] == chains[j][m]
    {
      SameBlockSamePast(chains[i], chains[j], n);
      assert chains[i][m] == chains[i][..n + 1][m] && chains[j][m] == chains[j][..n + 1][m];
    }
  }

  lemma {:induction false} FixedFromIsHighest(chains: seq<Blocks>, n: nat)
    requires AreChains(chains) && forall i :: 0 <= i < |chains| ==> n < |chains[i]|
    ensures match FixedFrom(chains, n)
            case None => forall m: nat :: m <= n ==> !AgreeAt(chains, m)
            case Some(h) => h.number <= n && h == chains[0][h.number] && AgreeAt(chains, h.number) &&
                            forall m: nat :: h.number < m <= n ==> !AgreeAt(chains, m)
  {
    hide HeadersAt, AgreeAt;
    OneHeaderIffAgree(chains, n);
    if !AgreeAt(chains, n) && n > 0 {
      FixedFromIsHighest(chains, n - 1);
    }
  }

  /**
   With a shared genesis the search succeeds: all nodes have the block it returns and all blocks below it in
   common, and no height above it. Without one it runs into unreachable!.
   */
  lemma {:induction false} FixedHeaderIsLastCommon(chains: seq<Blocks>)
    requires AreChains(chains)
    ensures FixedHeader(chains).Some? <==> AgreeAt(chains, 0)
    ensures FixedHeader(chains).Some? ==>
              var h := FixedHeader(chains).value;
              && (forall i :: 0 <= i < |chains| ==> h.number < |chains[i]| && chains[i][h.number] == h)
              && (forall m: nat :: AgreeAt(chains, m) <==> m <= h.number)
  {
    var top := MinTip(chains);
    FixedFromIsHighest(chains, top);
    match FixedHeader(chains)
    case None =>
    case Some(h) =>
      AgreeBelow(chains, h.number, 0);
      forall m: nat
        ensures AgreeAt(chains, m) <==> m <= h.number
      {
        if m <= h.number {
          AgreeBelow(chains, h.number, m);
        }
      }
  }

  // ---------------------------------------------------------------- pull_node

  datatype PullResult = PullOk | PullErr | PullPanic

  /** The target node: its chain, the blocks it refuses, and every block submitted to it. */
  class Target {
    const chain: Blocks
    const refused: set<Block>
    var submitted: Blocks

    constructor (chain: Blocks, refused: set<Block>)
      ensures this.chain == chain && this.refused == refused && submitted == []
    {
      this.chain, this.refused, submitted := chain, refused, [];
    }

    method SubmitBlock(b: Block) returns (ok: bool)
      modifies this
      ensures submitted == old(submitted) + [b] && ok == (b !in refused)
    {
      submitted := submitted + [b];
      ok := b !in refused;
    }
  }

  /** The height pull_node starts above: the last common one, or the target's tip when there is none. */
  function FixedNumber(target: Blocks, source: Blocks): nat
    requires target != []
  {
    if Common(target, source) == 0 then |target| - 1 else Common(target, source) - 1
  }

  /** What pull_node has to submit. */
  function Missing(target: Blocks, source: Blocks): Blocks
    requires 0 < |target| <= |source|
  {
    source[FixedNumber(target, source) + 1..]
  }

  /** All of `missing` went out and was accepted, or only the part up to the first block that is refused. */
  ghost predicate Pulled(sent: Blocks, missing: Blocks, refused: set<Block>, ok: bool) {
    if ok then sent == missing && Accepted(missing, refused)
    else sent != [] && sent <= missing && sent[|sent| - 1] in refused && Accepted(sent[..|sent| - 1], refused)
  }

  ghost predicate Accepted(bs: Blocks, refused: set<Block>) {
    forall i :: 0 <= i < |bs| ==> bs[i] !in refused
  }

  method PullNode(target: Target, source: Blocks) returns (r: PullResult)
    requires target.chain != [] && source != [] && Linked(target.chain) && Linked(source)
    modifies target
    ensures r == PullPanic <==> |target.chain| > |source|
    ensures r == PullPanic ==> target.submitted == old(target.submitted)
    ensures old(target.submitted) <= target.submitted
    ensures r != PullPanic ==>
              Pulled(target.submitted[|old(target.submitted)|..], Missing(target.chain, source), target.refused,
                     r == PullOk)
  {
    if |target.chain| > |source| {
      return PullPanic;
    }
    var maxTipNumber := |source| - 1;
    var fixedNumber := FindFixedNumber(target.chain, source);
    ghost var missing, before, sent := Missing(target.chain, source), target.submitted, [];
    var number := fixedNumber + 1;
    while number <= maxTipNumber
      invariant fixedNumber < number <= maxTipNumber + 1
      invariant sent == missing[..number - fixedNumber - 1] && Accepted(sent, target.refused)
      invariant target.submitted == before + sent
    {
      var block := source[number];
      var ok := target.SubmitBlock(block);
      assert sent + [block] == missing[..number - fixedNumber];
      assert target.submitted[|before|..] == sent + [block];
      if !ok {
        assert (sent + [block])[..|sent|] == sent;
        return PullErr;
      }
      sent := sent + [block];
      number := number + 1;
    }
    assert target.submitted[|before|..] == sent == missing;
    return PullOk;
  }

  /** The first loop: downwards from the target's tip. */
  method FindFixedNumber(target: Blocks, source: Blocks) returns (fixedNumber: nat)
    requires Linked(target) && Linked(source) && 0 < |target| <= |source|
    ensures fixedNumber == FixedNumber(target, source)
  {
    fixedNumber := |target| - 1;
    var number := |target| - 1;
    while number >= 0
      invariant -1 <= number < |target| && fixedNumber == |target| - 1
      invariant forall i :: number < i < |target| ==> target[i] != source[i]
    {
      if target[number] == source[number] {
        fixedNumber := number;
        break;
      }
      number := number - 1;
    }
    FixedIsCommon(target, source, number, fixedNumber);
  }

  lemma {:induction false} FixedIsCommon(target: Blocks, source: Blocks, found: int, fixedNumber: nat)
    requires Linked(target) && Linked(source) && 0 < |target| <= |source| && -1 <= found < |target|
    requires forall i :: found < i < |target| ==> target[i] != source[i]
    requires if found >= 0 then target[found] == source[found] && fixedNumber == found else fixedNumber == |target| - 1
    ensures fixedNumber == FixedNumber(target, source)
  {
    var k := Common(target, source);
    if found >= 0 {
      AgreeIffCommon(target, source, found);
    }
    if k > 0 {
      AgreeIffCommon(target, source, k - 1);
    }
  }

  /** The parent of block i of `more` is in `base` or earlier in `more`. */
  ghost predicate AttachesAt(base: Blocks, more: Blocks, i: nat)
    requires i < |more|
  {
    more[i].parent.Of? && (more[i].parent.block in base || more[i].parent.block in more[..i])
  }

  ghost predicate Attaches(base: Blocks, more: Blocks) {
    forall i :: 0 <= i < |more| ==> AttachesAt(base, more, i)
  }

  /** With a shared genesis, the common blocks and the pulled ones are the source chain. */
  lemma {:induction false} PullCompletesTheSource(target: Blocks, source: Blocks)
    requires Linked(target) && Linked(source) && 0 < |target| <= |source| && Common(target, source) > 0
    ensures target[..Common(target, source)] + Missing(target, source) == source
  {
    var k := Common(target, source);
    CommonAgrees(target, source);
    assert source[..k] + source[k..] == source;
  }

  /** Every pulled block attaches exactly when the genesis is shared or there is nothing to pull. */
  lemma {:induction false} PulledBlocksAttach(target: Blocks, source: Blocks)
    requires Linked(target) && Linked(source) && 0 < |target| <= |source|
    ensures Attaches(target, Missing(target, source)) <==> Common(target, source) > 0 || |target| == |source|
  {
    var k, missing := Common(target, source), Missing(target, source);
    if k > 0 {
      forall i | 0 <= i < |missing|
        ensures AttachesAt(target, missing, i)
      {
        ParentIsKnown(target, source, i);
      }
    } else if |missing| > 0 {
      var p := source[|target| - 1];
      assert missing[0] == source[|target|] && missing[0].parent == Of(p);
      assert missing[..0] == [];
      AgreeIffCommon(target, source, |target| - 1);
      assert p !in target;
      assert !AttachesAt(target, missing, 0);
    }
  }

  lemma {:induction false} ParentIsKnown(target: Blocks, source: Blocks, i: nat)
    requires Linked(target) && Linked(source) && 0 < |target| <= |source| && Common(target, source) > 0
    requires i < |Missing(target, source)|
    ensures AttachesAt(target, Missing(target, source), i)
  {
    var k, missing := Common(target, source), Missing(target, source);
    CommonAgrees(target, source);
    var p := source[k + i - 1];
    assert missing[i] == source[k + i];
    if i == 0 {
      assert p == source[..k][k - 1] == target[..k][k - 1];
      assert p in target;
    } else {
      assert p == missing[..i][i - 1];
    }
  }
}
