/**
 Collecting the users' cells back to the owner (ckb-bench/src/prepare.rs, collect and collect_inputs), from
 the spendable cells of each user (ckb-testkit/src/user/single_secp256k1.rs).
 */
module Collect {
  /** The three lock scripts of a user differ in their hash type; `args` is the user's address. */
  datatype HashType = ByType | ByData | ByData1

  datatype Lock = Lock(hashType: HashType, args: nat)

  type OutPoint = nat

  datatype Cell = Cell(outPoint: OutPoint, lock: Lock, capacity: nat)

  function Locks(cs: seq<Cell>): seq<Lock> {
    seq(|cs|, i requires 0 <= i < |cs| => cs[i].lock)
  }

  // ---------------------------------------------------------------- script groups

  function Count(ls: seq<Lock>, l: Lock): nat {
    if ls == [] then 0 else (if ls[0] == l then 1 else 0) + Count(ls[1..], l)
  }

  function Without(ls: seq<Lock>, s: set<Lock>): (r: seq<Lock>)
    ensures |r| <= |ls|
  {
    if ls == [] then []
    else if ls[0] in s then Without(ls[1..], s)
    else [ls[0]] + Without(ls[1..], s)
  }

  datatype Group = Group(lock: Lock, count: nat)

  /** Each lock once, in the order of first occurrences, with its multiplicity. */
  function Groups(ls: seq<Lock>): seq<Group>
    decreases |ls|
  {
    if ls == [] then []
    else [Group(ls[0], Count(ls, ls[0]))] + Groups(Without(ls[1..], {ls[0]}))
  }

  /** The locks of the first i inputs. */
  function Seen(ls: seq<Lock>, i: nat): set<Lock>
    requires i <= |ls|
  {
    set l | l in ls[..i]
  }

  lemma {:induction false} SeenMore(ls: seq<Lock>, i: nat)
    requires i < |ls|
    ensures Seen(ls, i + 1) == Seen(ls, i) + {ls[i]}
  {
    assert ls[..i + 1] == ls[..i] + [ls[i]];
  }

  method GroupScripts(ls: seq<Lock>) returns (sorted: seq<Group>)
    ensures sorted == Groups(ls)
  {
    hide Count, Without;
    var scriptGroups := CountScripts(ls);
    sorted := [];
    var i := 0;
    WithoutNone(ls);
    while i < |ls|
      invariant i <= |ls|
      invariant scriptGroups.Keys == Seen(ls, |ls|) - Seen(ls, i)
      invariant forall l :: l in scriptGroups ==> scriptGroups[l] == Count(ls, l)
      invariant sorted + Groups(Without(ls, Seen(ls, i))) == Groups(ls)
    {
      var lock := ls[i];
      SeenMore(ls, i);
      if lock in scriptGroups {
        NextGroup(ls, i);
        var group := Group(lock, scriptGroups[lock]);
        Regroup(sorted, group, Groups(Without(ls, Seen(ls, i + 1))));
        sorted := sorted + [group];
        scriptGroups := scriptGroups - {lock};
      } else {
        assert Seen(ls, i + 1) == Seen(ls, i);
      }
      i := i + 1;
    }
    WithoutAll(ls, Seen(ls, i));
  }

  lemma {:induction false} Regroup(a: seq<Group>, g: Group, b: seq<Group>)
    ensures a + ([g] + b) == a + [g] + b
  {
  }

  method CountScripts(ls: seq<Lock>) returns (m: map<Lock, nat>)
    ensures m.Keys == Seen(ls, |ls|)
    ensures forall l :: l in m ==> m[l] == Count(ls, l)
  {
    m := map[];
    var i := 0;
    while i < |ls|
      invariant i <= |ls| && m.Keys == Seen(ls, i)
      invariant forall l :: l in m ==> m[l] == Count(ls[..i], l)
    {
      CountSnoc(ls, i);
      SeenMore(ls, i);
      m := m[ls[i] := if ls[i] in m then m[ls[i]] + 1 else 1];
      i := i + 1;
    }
    assert ls[..i] == ls;
  }

  lemma {:induction false} CountConcat(a: seq<Lock>, b: seq<Lock>, l: Lock)
    ensures Count(a + b, l) == Count(a, l) + Count(b, l)
  {
    if a == [] {
      assert a + b == b;
    } else {
      assert (a + b)[1..] == a[1..] + b;
      CountConcat(a[1..], b, l);
    }
  }

  lemma {:induction false} CountZero(a: seq<Lock>, l: Lock)
    ensures Count(a, l) == 0 <==> l !in a
  {
    if a != [] {
      CountZero(a[1..], l);
    }
  }

  lemma {:induction false} CountSnoc(ls: seq<Lock>, i: nat)
    requires i < |ls|
    ensures forall l :: Count(ls[..i + 1], l) == Count(ls[..i], l) + (if l == ls[i] then 1 else 0)
    ensures ls[i] !in ls[..i] ==> Count(ls[..i], ls[i]) == 0
  {
    forall l
      ensures Count(ls[..i + 1], l) == Count(ls[..i], l) + (if l == ls[i] then 1 else 0)
    {
      assert ls[..i + 1] == ls[..i] + [ls[i]];
      CountConcat(ls[..i], [ls[i]], l);
    }
    CountZero(ls[..i], ls[i]);
  }

  lemma {:induction false} WithoutNone(ls: seq<Lock>)
    ensures Without(ls, Seen(ls, 0)) == ls
  {
    if ls != [] {
      WithoutNone(ls[1..]);
      assert Seen(ls, 0) == Seen(ls[1..], 0);
    }
  }

  lemma {:induction false} WithoutAll(ls: seq<Lock>, s: set<Lock>)
    requires forall l :: l in ls ==> l in s
    ensures Without(ls, s) == []
  {
    if ls != [] {
      WithoutAll(ls[1..], s);
    }
  }

  lemma {:induction false} WithoutTwice(ls: seq<Lock>, s: set<Lock>, t: set<Lock>)
    ensures Without(Without(ls, s), t) == Without(ls, s + t)
  {
    if ls != [] {
      WithoutTwice(ls[1..], s, t);
      var rest := Without(ls[1..], s);
      if ls[0] !in s {
        assert Without(ls, s)[1..] == rest;
      }
    }
  }

  lemma {:induction false} WithoutKeeps(ls: seq<Lock>, s: set<Lock>, l: Lock)
    ensures Count(Without(ls, s), l) == if l in s then 0 else Count(ls, l)
    ensures l in Without(ls, s) <==> l in ls && l !in s
  {
    if ls != [] {
      WithoutKeeps(ls[1..], s, l);
      var rest := Without(ls[1..], s);
      assert ls[0] !in s ==> Without(ls, s)[1..] == rest;
    }
  }

  lemma {:induction false} WithoutSkips(ls: seq<Lock>, s: set<Lock>, i: nat)
    requires i < |ls| && ls[i] !in s && forall k :: 0 <= k < i ==> ls[k] in s
    ensures Without(ls, s) == [ls[i]] + Without(ls[i + 1..], s)
    decreases i
  {
    if i > 0 {
      WithoutSkips(ls[1..], s, i - 1);
      assert ls[1..][i - 1 + 1..] == ls[i + 1..];
    }
  }

  /** Behind the locks seen so far, the next group is that of the first new lock. */
  lemma {:induction false} NextGroup(ls: seq<Lock>, i: nat)
    requires i < |ls| && ls[i] !in ls[..i]
    ensures Groups(Without(ls, Seen(ls, i))) ==
              [Group(ls[i], Count(ls, ls[i]))] + Groups(Without(ls, Seen(ls, i + 1)))
  {
    var seen, l := Seen(ls, i), ls[i];
    SeenMore(ls, i);
    forall k | 0 <= k < i
      ensures ls[k] in seen
    {
      assert ls[..i][k] == ls[k];
    }
    var rest := Without(ls, seen);
    WithoutSkips(ls, seen, i);
    WithoutKeeps(ls, seen, l);
    WithoutTwice(ls, seen, {l});
    assert Without(rest, {l}) == Without(rest[1..], {l});
  }

  // ---------------------------------------------------------------- groups against inputs

  function Repeat(l: Lock, n: nat): seq<Lock> {
    if n == 0 then [] else [l] + Repeat(l, n - 1)
  }

  /** The lock that each witness of the groups stands for. */
  function Expand(gs: seq<Group>): seq<Lock> {
    if gs == [] then [] else Repeat(gs[0].lock, gs[0].count) + Expand(gs[1..])
  }

  /** Equal locks are next to each other. */
  ghost predicate Contiguous(ls: seq<Lock>) {
    forall i, j, k :: 0 <= i <= j <= k < |ls| && ls[i] == ls[k] ==> ls[j] == ls[i]
  }

  lemma {:induction false} RepeatIs(l: Lock, n: nat)
    ensures |Repeat(l, n)| == n && forall k :: 0 <= k < n ==> Repeat(l, n)[k] == l
  {
    if n > 0 {
      RepeatIs(l, n - 1);
    }
  }

  lemma {:induction false} ExpandCounts(ls: seq<Lock>, l: Lock)
    ensures Count(Expand(Groups(ls)), l) == Count(ls, l)
    decreases |ls|
  {
    if ls != [] {
      var first := ls[0];
      var rest := Without(ls[1..], {first});
      assert Groups(ls)[1..] == Groups(rest);
      ExpandCounts(rest, l);
      WithoutKeeps(ls[1..], {first}, l);
      CountConcat(Repeat(first, Count(ls, first)), Expand(Groups(rest)), l);
      CountRepeat(first, Count(ls, first), l);
    }
  }

  lemma {:induction false} CountRepeat(l: Lock, n: nat, x: Lock)
    ensures Count(Repeat(l, n), x) == if x == l then n else 0
  {
    if n > 0 {
      CountRepeat(l, n - 1, x);
    }
  }

  lemma {:induction false} ExpandHas(ls: seq<Lock>, l: Lock)
    ensures l in Expand(Groups(ls)) <==> l in ls
  {
    ExpandCounts(ls, l);
    CountZero(ls, l);
    CountZero(Expand(Groups(ls)), l);
  }

  /** Expanded groups are contiguous, whatever the inputs were. */
  lemma {:induction false} ExpandIsContiguous(ls: seq<Lock>)
    ensures Contiguous(Expand(Groups(ls)))
    decreases |ls|
  {
    if ls != [] {
      var first, n := ls[0], Count(ls, ls[0]);
      var rest := Without(ls[1..], {first});
      ExpandIsContiguous(rest);
      ExpandHas(rest, first);
      WithoutKeeps(ls[1..], {first}, first);
      RepeatIs(first, n);
      assert Groups(ls)[1..] == Groups(rest);
      ContiguousAfterRepeat(first, n, Expand(Groups(rest)));
    }
  }

  lemma {:induction false} ContiguousAfterRepeat(l: Lock, n: nat, ls: seq<Lock>)
    requires Contiguous(ls) && l !in ls
    ensures Contiguous(Repeat(l, n) + ls)
  {
    RepeatIs(l, n);
    var all := Repeat(l, n) + ls;
    assert forall m :: n <= m < |all| ==> all[m] == ls[m - n] && all[m] in ls;
    forall i, j, k | 0 <= i <= j <= k < |all| && all[i] == all[k]
      ensures all[j] == all[i]
    {
      if i >= n {
        assert ls[i - n] == ls[k - n];
        assert ls[j - n] == ls[i - n];
      }
    }
  }

  /** In contiguous locks, all occurrences of the first are in front. */
  lemma {:induction false} ContiguousSplits(ls: seq<Lock>)
    requires Contiguous(ls) && ls != []
    ensures ls == Repeat(ls[0], Count(ls, ls[0])) + Without(ls[1..], {ls[0]})
    ensures Contiguous(Without(ls[1..], {ls[0]}))
    decreases |ls|
  {
    var first, tail := ls[0], ls[1..];
    TailContiguous(ls);
    if tail == [] || tail[0] != first {
      forall k | 0 <= k < |tail|
        ensures tail[k] != first
      {
        assert tail[k] == ls[k + 1] && tail[0] == ls[1];
      }
      WithoutAbsent(tail, first);
      CountZero(tail, first);
      assert Repeat(first, 1) == [first];
    } else {
      ContiguousSplits(tail);
      assert Without(tail, {first}) == Without(tail[1..], {first});
    }
  }

  lemma {:induction false} TailContiguous(ls: seq<Lock>)
    requires Contiguous(ls) && ls != []
    ensures Contiguous(ls[1..])
  {
    forall i, j, k | 0 <= i <= j <= k < |ls[1..]| && ls[1..][i] == ls[1..][k]
      ensures ls[1..][j] == ls[1..][i]
    {
      assert ls[i + 1] == ls[k + 1];
      assert ls[j + 1] == ls[i + 1];
    }
  }

  lemma {:induction false} WithoutAbsent(ls: seq<Lock>, l: Lock)
    requires l !in ls
    ensures Without(ls, {l}) == ls
  {
    if ls != [] {
      WithoutAbsent(ls[1..], l);
    }
  }

  lemma {:induction false} ContiguousExpands(ls: seq<Lock>)
    requires Contiguous(ls)
    ensures Expand(Groups(ls)) == ls
    decreases |ls|
  {
    if ls != [] {
      ContiguousSplits(ls);
      var rest := Without(ls[1..], {ls[0]});
      ContiguousExpands(rest);
      assert Groups(ls)[1..] == Groups(rest);
    }
  }

  /** The groups stand for the inputs position by position exactly when equal locks are contiguous. */
  lemma {:induction false} GroupsAlignIffContiguous(ls: seq<Lock>)
    ensures Expand(Groups(ls)) == ls <==> Contiguous(ls)
  {
    ExpandIsContiguous(ls);
    if Contiguous(ls) {
      ContiguousExpands(ls);
    }
  }

  // ---------------------------------------------------------------- witnesses

  /** A witness is a signature over a group of `count` placeholders, by the user of `lock`, or a placeholder. */
  datatype Witness = Signature(lock: Lock, count: nat) | Placeholder

  function Placeholders(n: nat): seq<Witness> {
    if n == 0 then [] else Placeholders(n - 1) + [Placeholder]
  }

  ghost predicate Positive(gs: seq<Group>) {
    forall i :: 0 <= i < |gs| ==> gs[i].count > 0
  }

  /** For each group a signature, then a placeholder for every further input. */
  function Witnesses(gs: seq<Group>): seq<Witness>
    requires Positive(gs)
  {
    if gs == [] then []
    else Witnesses(gs[..|gs| - 1]) + [Signature(gs[|gs| - 1].lock, gs[|gs| - 1].count)] +
         Placeholders(gs[|gs| - 1].count - 1)
  }

  lemma {:induction false} GroupsArePositive(ls: seq<Lock>)
    ensures Positive(Groups(ls))
    decreases |ls|
  {
    if ls != [] {
      var rest := Without(ls[1..], {ls[0]});
      GroupsArePositive(rest);
      assert forall i :: 0 < i < |Groups(ls)| ==> Groups(ls)[i] == Groups(rest)[i - 1];
    }
  }

  method BuildWitnesses(gs: seq<Group>) returns (ws: seq<Witness>)
    requires Positive(gs)
    ensures ws == Witnesses(gs)
  {
    ws := [];
    var i := 0;
    while i < |gs|
      invariant i <= |gs| && ws == Witnesses(gs[..i])
    {
      assert gs[..i + 1][..i] == gs[..i];
      ghost var before := ws + [Signature(gs[i].lock, gs[i].count)];
      ws := ws + [Signature(gs[i].lock, gs[i].count)];
      var n := 1;
      while n < gs[i].count
        invariant 1 <= n <= gs[i].count && ws == before + Placeholders(n - 1)
      {
        ws := ws + [Placeholder];
        n := n + 1;
      }
      i := i + 1;
    }
    assert gs[..i] == gs;
  }

  /** Does the group list have, at expanded position k, the start of a group? */
  ghost predicate Starts(ls: seq<Lock>, k: nat)
    requires k < |ls|
  {
    ls[k] !in ls[..k]
  }

  /** A signature over the whole of its group at the group's first input, placeholders elsewhere. */
  ghost predicate Aligned(ls: seq<Lock>, ws: seq<Witness>) {
    && |ws| == |ls|
    && forall k :: 0 <= k < |ls| ==>
         ws[k] == if Starts(ls, k) then Signature(ls[k], Count(ls, ls[k])) else Placeholder
  }

  lemma {:induction false} PlaceholdersAre(n: nat)
    ensures |Placeholders(n)| == n && forall k :: 0 <= k < n ==> Placeholders(n)[k] == Placeholder
  {
    if n > 0 {
      PlaceholdersAre(n - 1);
    }
  }

  lemma {:induction false} WitnessesFront(gs: seq<Group>)
    requires gs != [] && Positive(gs)
    ensures Witnesses(gs) == [Signature(gs[0].lock, gs[0].count)] + Placeholders(gs[0].count - 1) + Witnesses(gs[1..])
    decreases |gs|
  {
    var head := [Signature(gs[0].lock, gs[0].count)] + Placeholders(gs[0].count - 1);
    if |gs| == 1 {
      assert gs[..0] == [] && gs[1..] == [];
    } else {
      var init := gs[..|gs| - 1];
      WitnessesFront(init);
      assert init[1..] == gs[1..][..|gs| - 2];
      var last := gs[|gs| - 1];
      var tail := [Signature(last.lock, last.count)] + Placeholders(last.count - 1);
      assert Witnesses(gs) ==
             head + Witnesses(init[1..]) + [Signature(last.lock, last.count)] + Placeholders(last.count - 1);
    }
  }

  /** One witness for each input, whatever the inputs. */
  lemma {:induction false} WitnessPerInput(ls: seq<Lock>)
    ensures Positive(Groups(ls))
    ensures |Witnesses(Groups(ls))| == |ls|
    decreases |ls|
  {
    GroupsArePositive(ls);
    if ls != [] {
      var rest := Without(ls[1..], {ls[0]});
      WitnessPerInput(rest);
      WitnessesFront(Groups(ls));
      assert Groups(ls)[1..] == Groups(rest);
      PlaceholdersAre(Count(ls, ls[0]) - 1);
      WithoutLength(ls[1..], ls[0]);
    }
  }

  lemma {:induction false} WithoutLength(ls: seq<Lock>, l: Lock)
    ensures |Without(ls, {l})| + Count(ls, l) == |ls|
  {
    if ls != [] {
      WithoutLength(ls[1..], l);
    }
  }

  /** On contiguous locks every witness is where its group's script looks for it. */
  lemma {:induction false} ContiguousIsAligned(ls: seq<Lock>)
    requires Contiguous(ls)
    ensures Positive(Groups(ls))
    ensures Aligned(ls, Witnesses(Groups(ls)))
    decreases |ls|
  {
    hide Contiguous, Count, Placeholders, Repeat, Starts, Without;
    WitnessPerInput(ls);
    if ls != [] {
      var first, n := ls[0], Count(ls, ls[0]);
      var rest := Without(ls[1..], {first});
      CountZero(ls, first);
      WithoutLength(ls[1..], first);
      ContiguousSplits(ls);
      ContiguousIsAligned(rest);
      WitnessesFront(Groups(ls));
      assert Groups(ls)[1..] == Groups(rest);
      RepeatIs(first, n);
      WithoutKeeps(ls[1..], {first}, first);
      AlignedBehind(ls, n, rest, Witnesses(Groups(rest)));
    }
  }

  /** A group in front of aligned witnesses. */
  lemma {:induction false} AlignedBehind(ls: seq<Lock>, n: nat, rest: seq<Lock>, ws: seq<Witness>)
    requires ls != [] && 0 < n == Count(ls, ls[0]) && |ls| == n + |rest|
    requires ls == Repeat(ls[0], n) + rest && ls[0] !in rest && Aligned(rest, ws)
    ensures Aligned(ls, [Signature(ls[0], n)] + Placeholders(n - 1) + ws)
  {
    hide Count, Repeat, Placeholders;
    var all := [Signature(ls[0], n)] + Placeholders(n - 1) + ws;
    PlaceholdersAre(n - 1);
    RepeatIs(ls[0], n);
    forall k | 0 <= k < |ls|
      ensures all[k] == if Starts(ls, k) then Signature(ls[k], Count(ls, ls[k])) else Placeholder
    {
      if k < n {
        assert k > 0 ==> ls[..k][0] == ls[0];
      } else {
        StartsBehind(ls, n, rest, k - n);
        CountConcat(Repeat(ls[0], n), rest, ls[k]);
        CountRepeat(ls[0], n, ls[k]);
        assert all[k] == ws[k - n];
      }
    }
  }

  lemma {:induction false} StartsBehind(ls: seq<Lock>, n: nat, rest: seq<Lock>, k: nat)
    requires 0 < n && |ls| == n + |rest| && ls == Repeat(ls[0], n) + rest && ls[0] !in rest && k < |rest|
    ensures ls[n + k] == rest[k]
    ensures Starts(ls, n + k) <==> Starts(rest, k)
  {
    RepeatIs(ls[0], n);
    assert ls[..n + k] == Repeat(ls[0], n) + rest[..k];
  }

  /** Inputs that start no group have the lock of the first one. */
  lemma {:induction false} FrontIsOneLock(ls: seq<Lock>, n: nat)
    requires 0 < n <= |ls| && forall k :: 0 < k < n ==> !Starts(ls, k)
    ensures ls[..n] == Repeat(ls[0], n)
    decreases n
  {
    RepeatIs(ls[0], n);
    if n > 1 {
      FrontIsOneLock(ls, n - 1);
      RepeatIs(ls[0], n - 1);
      assert !Starts(ls, n - 1);
      assert ls[..n - 1] == Repeat(ls[0], n - 1);
      assert ls[n - 1] == ls[0];
    }
    assert forall k :: 0 <= k < n ==> ls[..n][k] == Repeat(ls[0], n)[k];
  }

  lemma {:induction false} WithoutFront(l: Lock, n: nat, tail: seq<Lock>)
    requires l !in tail
    ensures Without(Repeat(l, n) + tail, {l}) == tail
    decreases n
  {
    RepeatIs(l, n);
    var ls := Repeat(l, n) + tail;
    if n == 0 {
      assert ls == tail;
      WithoutAbsent(tail, l);
    } else {
      RepeatIs(l, n - 1);
      assert ls[1..] == Repeat(l, n - 1) + tail;
      WithoutFront(l, n - 1, tail);
    }
  }

  /** When all occurrences of the first lock are in front, what is behind them is what is left without it. */
  lemma {:induction false} RestIsBehind(ls: seq<Lock>, n: nat)
    requires 0 < n <= |ls| && n == Count(ls, ls[0]) && ls[..n] == Repeat(ls[0], n)
    ensures ls[0] !in ls[n..] && Without(ls[1..], {ls[0]}) == ls[n..]
  {
    var l, tail := ls[0], ls[n..];
    assert ls == Repeat(l, n) + tail;
    CountConcat(Repeat(l, n), tail, l);
    CountRepeat(l, n, l);
    CountZero(tail, l);
    RepeatIs(l, n);
    RepeatIs(l, n - 1);
    assert ls[1..] == Repeat(l, n - 1) + tail;
    WithoutFront(l, n - 1, tail);
  }

  /** Aligned witnesses stay so without the group in front. */
  lemma {:induction false} AlignedWithoutFront(ls: seq<Lock>, n: nat, rest: seq<Lock>, ws: seq<Witness>)
    requires 0 < n <= |ls| && ls == Repeat(ls[0], n) + rest && ls[0] !in rest && |ws| == |rest| == |ls| - n
    requires Aligned(ls, [Signature(ls[0], n)] + Placeholders(n - 1) + ws)
    ensures Aligned(rest, ws)
  {
    hide Count, Repeat, Placeholders;
    var all := [Signature(ls[0], n)] + Placeholders(n - 1) + ws;
    PlaceholdersAre(n - 1);
    RepeatIs(ls[0], n);
    forall k | 0 <= k < |rest|
      ensures ws[k] == if Starts(rest, k) then Signature(rest[k], Count(rest, rest[k])) else Placeholder
    {
      StartsBehind(ls, n, rest, k);
      CountConcat(Repeat(ls[0], n), rest, rest[k]);
      CountRepeat(ls[0], n, rest[k]);
      assert all[n + k] == ws[k];
    }
  }

  /** Aligned witnesses have the first group in front. */
  lemma {:induction false} AlignedHasFront(ls: seq<Lock>, ws: seq<Witness>, n: nat)
    requires ls != [] && n == Count(ls, ls[0]) && Aligned(ls, [Signature(ls[0], n)] + Placeholders(n - 1) + ws)
    ensures 0 < n <= |ls| && ls[..n] == Repeat(ls[0], n)
  {
    var all := [Signature(ls[0], n)] + Placeholders(n - 1) + ws;
    PlaceholdersAre(n - 1);
    forall k | 0 < k < n
      ensures !Starts(ls, k)
    {
      assert all[k] == Placeholder;
    }
    FrontIsOneLock(ls, n);
  }

  lemma {:induction false} AlignedIsContiguous(ls: seq<Lock>)
    requires Positive(Groups(ls)) && Aligned(ls, Witnesses(Groups(ls)))
    ensures Contiguous(ls)
    decreases |ls|
  {
    hide Aligned, Contiguous, Count, Repeat, Without, Witnesses;
    if ls != [] {
      var n, rest := Count(ls, ls[0]), Without(ls[1..], {ls[0]});
      WitnessesFront(Groups(ls));
      assert Groups(ls)[1..] == Groups(rest);
      WithoutLength(ls[1..], ls[0]);
      WitnessPerInput(rest);
      var ws := Witnesses(Groups(rest));
      CountZero(ls, ls[0]);
      AlignedHasFront(ls, ws, n);
      RestIsBehind(ls, n);
      assert ls == ls[..n] + ls[n..];
      AlignedWithoutFront(ls, n, rest, ws);
      AlignedIsContiguous(rest);
      ContiguousAfterRepeat(ls[0], n, rest);
    } else {
      EmptyIsContiguous();
    }
  }

  lemma {:induction false} EmptyIsContiguous()
    ensures Contiguous([])
  {
  }

  /** Every witness is where its group's script looks for it exactly when equal locks are contiguous. */
  lemma {:induction false} AlignedIffContiguous(ls: seq<Lock>)
    ensures Positive(Groups(ls))
    ensures Aligned(ls, Witnesses(Groups(ls))) <==> Contiguous(ls)
  {
    GroupsArePositive(ls);
    if Contiguous(ls) {
      ContiguousIsAligned(ls);
    }
    if Aligned(ls, Witnesses(Groups(ls))) {
      AlignedIsContiguous(ls);
    }
  }
}
