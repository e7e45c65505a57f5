/** Hash-linked chains. A hash is a constructor over the block it belongs to, hence free of collisions. */
module Chain {
  datatype Hash = Nothing | Of(block: Block)

  datatype Block = Block(number: nat, parent: Hash, body: nat)

  type Blocks = seq<Block>

  /** Numbered from genesis, each block naming its predecessor. */
  ghost predicate Linked(c: Blocks) {
    && (forall i :: 0 <= i < |c| ==> c[i].number == i)
    && (forall i {:trigger c[i].parent} :: 0 < i < |c| ==> c[i].parent == Of(c[i - 1]))
  }

  /** Length of the longest common prefix. */
  function Common(a: Blocks, b: Blocks): (k: nat)
    ensures k <= |a| && k <= |b|
  {
    if a == [] || b == [] || a[0] != b[0] then 0 else Common(a[1..], b[1..]) + 1
  }

  lemma {:induction false} CommonAgrees(a: Blocks, b: Blocks)
    ensures var k := Common(a, b); a[..k] == b[..k] && (k < |a| && k < |b| ==> a[k] != b[k])
  {
    if a != [] && b != [] && a[0] == b[0] {
      CommonAgrees(a[1..], b[1..]);
      var k := Common(a, b);
      assert a[..k] == [a[0]] + a[1..][..k - 1] && b[..k] == [b[0]] + b[1..][..k - 1];
    }
  }

  /** The common prefix is the only length with these two properties. */
  lemma {:induction false} CommonIs(a: Blocks, b: Blocks, k: nat)
    requires k <= |a| && k <= |b| && a[..k] == b[..k]
    requires k < |a| && k < |b| ==> a[k] != b[k]
    ensures Common(a, b) == k
    decreases k
  {
    if k > 0 {
      assert a[0] == a[..k][0] && b[0] == b[..k][0];
      assert a[1..][..k - 1] == a[..k][1..] && b[1..][..k - 1] == b[..k][1..];
      CommonIs(a[1..], b[1..], k - 1);
    }
  }

  /** Agreement on a prefix bounds the common prefix from below. */
  lemma {:induction false} CommonAtLeast(a: Blocks, b: Blocks, k: nat)
    requires k <= |a| && k <= |b| && a[..k] == b[..k]
    ensures Common(a, b) >= k
    decreases k
  {
    if k > 0 {
      assert a[0] == a[..k][0] && b[0] == b[..k][0];
      assert a[1..][..k - 1] == a[..k][1..] && b[1..][..k - 1] == b[..k][1..];
      CommonAtLeast(a[1..], b[1..], k - 1);
    }
  }

  /** Two chains that agree at one height agree below it. */
  lemma {:induction false} SameBlockSamePast(a: Blocks, b: Blocks, i: nat)
    requires Linked(a) && Linked(b) && i < |a| && i < |b| && a[i] == b[i]
    ensures a[..i + 1] == b[..i + 1]
  {
    if i > 0 {
      assert a[i].parent == Of(a[i - 1]) && b[i].parent == Of(b[i - 1]);
      SameBlockSamePast(a, b, i - 1);
      assert a[..i + 1] == a[..i] + [a[i]] && b[..i + 1] == b[..i] + [b[i]];
    }
  }

  /** Agreement at a height is membership of the common prefix. */
  lemma {:induction false} AgreeIffCommon(a: Blocks, b: Blocks, i: nat)
    requires Linked(a) && Linked(b) && i < |a| && i < |b|
    ensures a[i] == b[i] <==> i < Common(a, b)
  {
    if a[i] == b[i] {
      SameBlockSamePast(a, b, i);
      CommonAtLeast(a, b, i + 1);
    }
    CommonAgrees(a, b);
    assert i < Common(a, b) ==> a[..Common(a, b)][i] == b[..Common(a, b)][i];
  }
}
