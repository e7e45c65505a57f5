/**
 Text translation between the 2019 and the 2021 RPC formats (ckb-testkit/src/rpc/mod.rs, lines 32-53):
 substring replacement, and exactly when the two directions cancel.
 */
module Translation {

  ghost predicate OccursAt(s: string, k: string, i: int) {
    0 <= i <= |s| - |k| && s[i..i + |k|] == k
  }

  ghost predicate Contains(s: string, k: string) {
    exists i :: OccursAt(s, k, i)
  }

  /** Index of the leftmost match, |s| if there is none. */
  function Leftmost(s: string, p: string): (m: nat)
    requires p != []
    ensures m <= |s| && (m < |s| ==> m + |p| <= |s|)
    decreases |s|
  {
    if |s| < |p| then |s|
    else if s[..|p|] == p then 0
    else Leftmost(s[1..], p) + 1
  }

  /** str::replace: copies up to the leftmost match, writes q, and goes on behind the match. */
  function Replace(s: string, p: string, q: string): string
    requires p != []
    decreases |s|
  {
    var m := Leftmost(s, p);
    if m == |s| then s else s[..m] + q + Replace(s[m + |p|..], p, q)
  }

  // ---------------------------------------------------------------- the leftmost match

  lemma {:induction false} TailSlice(s: string, i: nat, j: nat)
    requires i <= j < |s|
    ensures s[1..][i..j] == s[i + 1..j + 1]
  {
    var a, b := s[1..][i..j], s[i + 1..j + 1];
    assert |a| == |b|;
    assert forall k :: 0 <= k < |a| ==> a[k] == b[k];
  }

  lemma {:induction false} LeftmostOccurs(s: string, p: string)
    requires p != []
    ensures var m := Leftmost(s, p); m < |s| ==> OccursAt(s, p, m)
    decreases |s|
  {
    if |s| >= |p| && s[..|p|] != p {
      var rest := s[1..];
      LeftmostOccurs(rest, p);
      var m := Leftmost(rest, p);
      if m < |rest| {
        TailSlice(s, m, m + |p|);
      }
    }
  }

  lemma {:induction false} LeftmostIsLeast(s: string, p: string, i: int)
    requires p != [] && OccursAt(s, p, i)
    ensures Leftmost(s, p) <= i
    decreases |s|
  {
    if s[..|p|] != p {
      assert i > 0;
      TailSlice(s, i - 1, i - 1 + |p|);
      LeftmostIsLeast(s[1..], p, i - 1);
    }
  }

  lemma {:induction false} ReplaceAbsent(s: string, p: string, q: string)
    requires p != [] && !Contains(s, p)
    ensures Replace(s, p, q) == s
  {
    LeftmostOccurs(s, p);
  }

  // ---------------------------------------------------------------- overlaps

  /** k and p, the latter shifted right by d, have different characters at some position. */
  ghost predicate Clash(k: string, p: string, d: int) {
    exists t :: 0 <= t < |k| && ClashAt(k, p, d, t)
  }

  predicate ClashAt(k: string, p: string, d: int, t: nat)
    requires t < |k|
  {
    0 <= t - d < |p| && k[t] != p[t - d]
  }

  /** No occurrence of one can share a character with an occurrence of the other. */
  ghost predicate NeverOverlap(k: string, p: string) {
    forall d :: -|p| < d < |k| ==> Clash(k, p, d)
  }

  /** No proper prefix is a suffix. */
  ghost predicate Unbordered(q: string) {
    forall d :: 0 < d < |q| ==> Clash(q, q, d)
  }

  lemma {:induction false} ClashExcludes(s: string, k: string, p: string, i: int, j: int)
    requires OccursAt(s, k, i) && OccursAt(s, p, j)
    ensures !Clash(k, p, j - i)
  {
    forall t: nat {:trigger k[t]} | t < |k|
      ensures !ClashAt(k, p, j - i, t)
    {
      assert s[i..i + |k|][t] == s[i + t];
      assert 0 <= i + t - j < |p| ==> s[j..j + |p|][i + t - j] == s[i + t];
    }
  }

  lemma {:induction false} Apart(s: string, k: string, p: string, i: int, j: int)
    requires NeverOverlap(k, p) && OccursAt(s, k, i) && OccursAt(s, p, j)
    ensures i + |k| <= j || j + |p| <= i
  {
    if j < i + |k| && i < j + |p| {
      ClashExcludes(s, k, p, i, j);
    }
  }

  lemma {:induction false} ApartFromItself(s: string, q: string, i: int, j: int)
    requires Unbordered(q) && OccursAt(s, q, i) && OccursAt(s, q, j) && i < j
    ensures i + |q| <= j
  {
    if j < i + |q| {
      ClashExcludes(s, q, q, i, j);
    }
  }

  // ---------------------------------------------------------------- the inverse law

  /** Replacing p by q is undone by replacing q by p when q is unbordered and not in the text. */
  lemma {:induction false} ReplaceInverse(s: string, p: string, q: string)
    requires p != [] && q != [] && Unbordered(q) && !Contains(s, q)
    ensures Replace(Replace(s, p, q), q, p) == s
    decreases |s|
  {
    var m := Leftmost(s, p);
    if m == |s| {
      ReplaceAbsent(s, q, p);
    } else {
      LeftmostOccurs(s, p);
      var rest := s[m + |p|..];
      SubstringLacks(s, q, m + |p|);
      ReplaceInverse(rest, p, q);
      CopyThenMatch(s, q, p, m, Replace(rest, p, q));
      MatchSplits(s, p, m);
    }
  }

  lemma {:induction false} MatchSplits(s: string, p: string, m: int)
    requires OccursAt(s, p, m)
    ensures s == s[..m] + p + s[m + |p|..]
  {
  }

  lemma {:induction false} SubstringOccurs(s: string, q: string, n: nat, i: int)
    requires n <= |s| && OccursAt(s[n..], q, i)
    ensures OccursAt(s, q, n + i)
  {
    assert s[n..][i..i + |q|] == s[n + i..n + i + |q|];
  }

  lemma {:induction false} SubstringLacks(s: string, q: string, n: nat)
    requires n <= |s| && !Contains(s, q)
    ensures !Contains(s[n..], q)
  {
    if Contains(s[n..], q) {
      var i :| OccursAt(s[n..], q, i);
      SubstringOccurs(s, q, n, i);
    }
  }

  lemma {:induction false} PrefixOccurs(s: string, t: string, q: string, l: nat, m: nat)
    requires m <= |s| && m <= |t| && s[..m] == t[..m] && l + |q| <= m && OccursAt(t, q, l)
    ensures OccursAt(s, q, l)
  {
    assert s[l..l + |q|] == s[..m][l..l + |q|];
    assert t[l..l + |q|] == t[..m][l..l + |q|];
  }

  /** Behind copied text that lacks q, an inserted q is the leftmost. */
  lemma {:induction false} InsertedIsLeftmost(s: string, q: string, m: nat, later: string)
    requires q != [] && Unbordered(q) && !Contains(s, q) && m <= |s|
    ensures Leftmost(s[..m] + q + later, q) == m
  {
    var t := s[..m] + q + later;
    assert t[m..m + |q|] == q && t[..m] == s[..m];
    LeftmostIsLeast(t, q, m);
    LeftmostOccurs(t, q);
    var l := Leftmost(t, q);
    if l < m {
      ApartFromItself(t, q, l, m);
      PrefixOccurs(s, t, q, l, m);
    }
  }

  lemma {:induction false} CopyThenMatch(s: string, q: string, p: string, m: nat, later: string)
    requires q != [] && Unbordered(q) && !Contains(s, q) && m <= |s|
    ensures Replace(s[..m] + q + later, q, p) == s[..m] + p + Replace(later, q, p)
  {
    var t := s[..m] + q + later;
    InsertedIsLeftmost(s, q, m, later);
    assert t[..m] == s[..m] && t[m + |q|..] == later;
  }

  // ---------------------------------------------------------------- what replacing keeps, adds and removes

  /** An occurrence that cannot overlap the pattern survives. */
  lemma {:induction false} ReplaceKeeps(s: string, p: string, q: string, k: string, i: int)
    requires p != [] && NeverOverlap(k, p) && OccursAt(s, k, i)
    ensures Contains(Replace(s, p, q), k)
    decreases |s|
  {
    var m := Leftmost(s, p);
    var t := Replace(s, p, q);
    if m == |s| {
      assert OccursAt(t, k, i);
    } else {
      LeftmostOccurs(s, p);
      Apart(s, k, p, i, m);
      if i + |k| <= m {
        assert t[i..i + |k|] == s[i..i + |k|];
        assert OccursAt(t, k, i);
      } else {
        var rest := s[m + |p|..];
        var j := i - m - |p|;
        assert rest[j..j + |k|] == s[i..i + |k|];
        ReplaceKeeps(rest, p, q, k, j);
        var n :| OccursAt(Replace(rest, p, q), k, n);
        ShiftedOccurrence(s[..m] + q, Replace(rest, p, q), k, n);
      }
    }
  }

  lemma {:induction false} ShiftedOccurrence(a: string, b: string, k: string, n: int)
    requires OccursAt(b, k, n)
    ensures OccursAt(a + b, k, |a| + n)
  {
    assert (a + b)[|a| + n..|a| + n + |k|] == b[n..n + |k|];
  }

  /** An occurrence that cannot overlap q lies wholly before or wholly behind it. */
  lemma {:induction false} OccurrenceOrigin(s: string, q: string, later: string, k: string, m: nat, i: int)
    requires m <= |s| && NeverOverlap(k, q) && OccursAt(s[..m] + q + later, k, i)
    ensures (i + |k| <= m && OccursAt(s, k, i)) || (m + |q| <= i && OccursAt(later, k, i - m - |q|))
  {
    var t := s[..m] + q + later;
    assert t[m..m + |q|] == q;
    Apart(t, k, q, i, m);
    if i + |k| <= m {
      assert s[i..i + |k|] == t[i..i + |k|];
    } else {
      OccursBehind(s[..m] + q, later, k, i);
    }
  }

  /** What cannot overlap the replacement occurs afterwards only if it did before. */
  lemma {:induction false} ReplaceAddsNone(s: string, p: string, q: string, k: string, i: int) returns (j: int)
    requires p != [] && NeverOverlap(k, q) && OccursAt(Replace(s, p, q), k, i)
    ensures OccursAt(s, k, j)
    decreases |s|
  {
    hide Leftmost, NeverOverlap;
    var m := Leftmost(s, p);
    j := i;
    if m < |s| {
      var rest := s[m + |p|..];
      OccurrenceOrigin(s, q, Replace(rest, p, q), k, m, i);
      if !(i + |k| <= m && OccursAt(s, k, i)) {
        j := ReplaceAddsNone(rest, p, q, k, i - m - |q|);
        SubstringOccurs(s, k, m + |p|, j);
        j := m + |p| + j;
      }
    }
  }

  /** If it cannot overlap the replacement, the pattern itself is gone. */
  lemma {:induction false} ReplaceRemoves(s: string, p: string, q: string, i: int)
    requires p != [] && NeverOverlap(p, q)
    ensures !OccursAt(Replace(s, p, q), p, i)
    decreases |s|
  {
    var m := Leftmost(s, p);
    if OccursAt(s, p, i) {
      LeftmostIsLeast(s, p, i);
    }
    if m < |s| {
      var rest := s[m + |p|..];
      var t := s[..m] + q + Replace(rest, p, q);
      ReplaceRemoves(rest, p, q, i - m - |q|);
      if OccursAt(t, p, i) {
        OccurrenceOrigin(s, q, Replace(rest, p, q), p, m, i);
      }
    }
  }

  lemma {:induction false} OccursBehind(a: string, b: string, k: string, i: int)
    requires OccursAt(a + b, k, i) && |a| <= i
    ensures OccursAt(b, k, i - |a|)
  {
    assert b[i - |a|..i - |a| + |k|] == (a + b)[i..i + |k|];
  }

  function Count(c: char, s: string): nat {
    if s == [] then 0 else (if s[0] == c then 1 else 0) + Count(c, s[1..])
  }

  lemma {:induction false} CountConcat(c: char, a: string, b: string)
    ensures Count(c, a + b) == Count(c, a) + Count(c, b)
  {
    if a == [] {
      assert a + b == b;
    } else {
      assert (a + b)[1..] == a[1..] + b;
      CountConcat(c, a[1..], b);
    }
  }

  lemma {:induction false} CountAbsent(c: char, s: string)
    ensures c !in s <==> Count(c, s) == 0
  {
    if s != [] {
      CountAbsent(c, s[1..]);
    }
  }

  /** Of a character the pattern lacks there are more with each match if the replacement has it, else as many. */
  lemma {:induction false} CountReplaced(c: char, s: string, p: string, q: string)
    requires p != [] && c !in p
    ensures Count(c, Replace(s, p, q)) >= Count(c, s)
    ensures c !in q ==> Count(c, Replace(s, p, q)) == Count(c, s)
    ensures c in q && Contains(s, p) ==> Count(c, Replace(s, p, q)) > Count(c, s)
    decreases |s|
  {
    var m := Leftmost(s, p);
    if m == |s| {
      if Contains(s, p) {
        var i :| OccursAt(s, p, i);
        LeftmostIsLeast(s, p, i);
      }
    } else {
      LeftmostOccurs(s, p);
      var rest := s[m + |p|..];
      CountReplaced(c, rest, p, q);
      CountConcat(c, s[..m] + q, Replace(rest, p, q));
      CountConcat(c, s[..m], q);
      CountConcat(c, s[..m] + p, rest);
      CountConcat(c, s[..m], p);
      CountAbsent(c, p);
      CountAbsent(c, q);
      MatchSplits(s, p, m);
    }
  }

  // ---------------------------------------------------------------- the two translations

  const UNCLES := "uncles_hash"
  const EXTRA := "extra_hash"
  const DIFFICULTY := "\"permanent_difficulty_in_dummy\":"
  const HARDFORK := "\"hardfork_features\":[],"

  function To2021(raw2019: string): string {
    Replace(Replace(raw2019, UNCLES, EXTRA), DIFFICULTY, HARDFORK + DIFFICULTY)
  }

  function To2019(raw2021: string): string {
    Replace(raw2021, EXTRA, UNCLES)
  }

  /** p clashes with k at every shift: within k at its first or second character, over the left end of k at k's. */
  lemma {:induction false} ClashBy(k: string, p: string)
    requires |p| >= 2 && k != [] && k[0] !in p[1..]
    requires forall d :: 0 <= d < |k| && k[d] == p[0] ==> d + 1 < |k| && k[d + 1] != p[1]
    ensures NeverOverlap(k, p)
  {
    forall d | -|p| < d < |k|
      ensures Clash(k, p, d)
    {
      if d < 0 {
        assert p[-d] == p[1..][-d - 1];
        assert ClashAt(k, p, d, 0);
      } else if k[d] != p[0] {
        assert ClashAt(k, p, d, d);
      } else {
        assert ClashAt(k, p, d, d + 1);
      }
    }
  }

  lemma {:induction false} DifficultyAvoidsUncles()
    ensures NeverOverlap(DIFFICULTY, UNCLES)
  {
    ClashBy(DIFFICULTY, UNCLES);
  }

  lemma {:induction false} DifficultyAvoidsExtra()
    ensures NeverOverlap(DIFFICULTY, EXTRA)
  {
    ClashBy(DIFFICULTY, EXTRA);
  }

  lemma {:induction false} NamesNeverOverlap()
    ensures Unbordered(EXTRA)
    ensures Unbordered(UNCLES)
    ensures NeverOverlap(EXTRA, UNCLES)
    ensures NeverOverlap(UNCLES, EXTRA)
  {
    forall d | 0 < d < |EXTRA|
      ensures Clash(EXTRA, EXTRA, d)
    {
      assert ClashAt(EXTRA, EXTRA, d, d);
    }
    forall d | 0 < d < |UNCLES|
      ensures Clash(UNCLES, UNCLES, d)
    {
      assert ClashAt(UNCLES, UNCLES, d, d);
    }
    forall d | -|UNCLES| < d < |EXTRA|
      ensures Clash(EXTRA, UNCLES, d)
    {
      assert ClashAt(EXTRA, UNCLES, d, if d >= 0 then d else if d == -4 then 1 else 0);
    }
    NeverOverlapFlips(EXTRA, UNCLES);
  }

  lemma {:induction false} NeverOverlapFlips(k: string, p: string)
    requires NeverOverlap(k, p)
    ensures NeverOverlap(p, k)
  {
    forall d | -|k| < d < |p|
      ensures Clash(p, k, d)
    {
      assert Clash(k, p, -d);
      var t: nat :| t < |k| && ClashAt(k, p, -d, t);
      assert ClashAt(p, k, d, t + d);
    }
  }

  /** Inserting the missing member into a consensus adds a bracket that no renaming takes away. */
  lemma {:induction false} InsertionAddsBracket(s: string)
    requires Contains(s, DIFFICULTY)
    ensures Count('[', Replace(s, DIFFICULTY, HARDFORK + DIFFICULTY)) > Count('[', s)
  {
    assert HARDFORK[20] == '[' && (HARDFORK + DIFFICULTY)[20] == '[';
    CountReplaced('[', s, DIFFICULTY, HARDFORK + DIFFICULTY);
  }

  lemma {:induction false} RenamingKeepsKey(s: string, p: string, q: string)
    requires (p == UNCLES && q == EXTRA) || (p == EXTRA && q == UNCLES)
    ensures Contains(Replace(s, p, q), DIFFICULTY) <==> Contains(s, DIFFICULTY)
    ensures Count('[', Replace(s, p, q)) == Count('[', s)
  {
    DifficultyAvoidsUncles();
    DifficultyAvoidsExtra();
    if Contains(s, DIFFICULTY) {
      var i :| OccursAt(s, DIFFICULTY, i);
      ReplaceKeeps(s, p, q, DIFFICULTY, i);
    }
    if Contains(Replace(s, p, q), DIFFICULTY) {
      var i :| OccursAt(Replace(s, p, q), DIFFICULTY, i);
      i := ReplaceAddsNone(s, p, q, DIFFICULTY, i);
    }
    CountReplaced('[', s, p, q);
  }

  /** To 2021 and back is the identity exactly on texts with neither the 2021 name nor the consensus key. */
  lemma {:induction false} TranslationInverse(raw: string)
    ensures To2019(To2021(raw)) == raw <==> !Contains(raw, EXTRA) && !Contains(raw, DIFFICULTY)
  {
    NamesNeverOverlap();
    var renamed := Replace(raw, UNCLES, EXTRA);
    RenamingKeepsKey(raw, UNCLES, EXTRA);
    if Contains(raw, EXTRA) {
      var i :| OccursAt(raw, EXTRA, i);
      ReplaceRemoves(To2021(raw), EXTRA, UNCLES, i);
    } else if Contains(raw, DIFFICULTY) {
      InsertionAddsBracket(renamed);
      RenamingKeepsKey(To2021(raw), EXTRA, UNCLES);
    } else {
      ReplaceAbsent(renamed, DIFFICULTY, HARDFORK + DIFFICULTY);
      ReplaceInverse(raw, UNCLES, EXTRA);
    }
  }

  /** To 2019 and back is the identity exactly on texts with neither the 2019 name nor the consensus key. */
  lemma {:induction false} BackTranslationInverse(raw: string)
    ensures To2021(To2019(raw)) == raw <==> !Contains(raw, UNCLES) && !Contains(raw, DIFFICULTY)
  {
    NamesNeverOverlap();
    var renamed := Replace(To2019(raw), UNCLES, EXTRA);
    RenamingKeepsKey(raw, EXTRA, UNCLES);
    RenamingKeepsKey(To2019(raw), UNCLES, EXTRA);
    if Contains(raw, DIFFICULTY) {
      InsertionAddsBracket(renamed);
    } else {
      ReplaceAbsent(renamed, DIFFICULTY, HARDFORK + DIFFICULTY);
      if Contains(raw, UNCLES) {
        var i :| OccursAt(raw, UNCLES, i);
        ReplaceRemoves(To2019(raw), UNCLES, EXTRA, i);
      } else {
        ReplaceInverse(raw, EXTRA, UNCLES);
      }
    }
  }

  /** A consensus does not come back as it was. */
  lemma {:induction false} ConsensusKeepsInsertion(raw: string)
    requires raw == "{\"id\":\"main\"," + DIFFICULTY + "true}"
    ensures To2019(To2021(raw)) != raw
  {
    var before := "{\"id\":\"main\",";
    assert raw[|before|..|before| + |DIFFICULTY|] == DIFFICULTY;
    assert OccursAt(raw, DIFFICULTY, |before|);
    TranslationInverse(raw);
  }

  // ---------------------------------------------------------------- what is written where

  /** A pattern that occurs once is replaced there and nothing else is changed. */
  lemma {:induction false} ReplaceOne(a: string, p: string, b: string, q: string)
    requires p != [] && forall i :: OccursAt(a + p + b, p, i) ==> i == |a|
    ensures Replace(a + p + b, p, q) == a + q + b
  {
    var s := a + p + b;
    assert s[|a|..|a| + |p|] == p;
    assert OccursAt(s, p, |a|);
    LeftmostIsLeast(s, p, |a|);
    LeftmostOccurs(s, p);
    assert Leftmost(s, p) == |a|;
    assert s[..|a|] == a && s[|a| + |p|..] == b;
    if Contains(b, p) {
      var i :| OccursAt(b, p, i);
      SubstringOccurs(s, p, |a| + |p|, i);
    }
    ReplaceAbsent(b, p, q);
  }

  /** The names, as the node writes them. */
  lemma {:induction false} Names()
    ensures UNCLES == "uncles_hash" && EXTRA == "extra_hash"
    ensures DIFFICULTY == "\"permanent_difficulty_in_dummy\":"
    ensures HARDFORK == "\"hardfork_features\":[],"
  {
  }

  /** A consensus gets an empty list of hard-fork features right in front of its difficulty. */
  lemma {:induction false} InsertsFeatures(a: string, b: string)
    requires var s := a + DIFFICULTY + b;
             !Contains(s, UNCLES) && forall i :: OccursAt(s, DIFFICULTY, i) ==> i == |a|
    ensures To2021(a + DIFFICULTY + b) == a + (HARDFORK + DIFFICULTY) + b
  {
    ReplaceAbsent(a + DIFFICULTY + b, UNCLES, EXTRA);
    ReplaceOne(a, DIFFICULTY, b, HARDFORK + DIFFICULTY);
  }

  /** A header's 2019 name becomes the 2021 one, and back. */
  lemma {:induction false} RenamesMember(a: string, b: string)
    ensures var s := a + "uncles_hash" + b;
            !Contains(s, DIFFICULTY) && (forall i :: OccursAt(s, "uncles_hash", i) ==> i == |a|) ==>
              To2021(s) == a + "extra_hash" + b
    ensures var s := a + "extra_hash" + b;
            (forall i :: OccursAt(s, "extra_hash", i) ==> i == |a|) ==> To2019(s) == a + "uncles_hash" + b
  {
    var s, t := a + UNCLES + b, a + EXTRA + b;
    if !Contains(s, DIFFICULTY) && forall i :: OccursAt(s, UNCLES, i) ==> i == |a| {
      RenamingKeepsKey(s, UNCLES, EXTRA);
      ReplaceOne(a, UNCLES, b, EXTRA);
      ReplaceAbsent(t, DIFFICULTY, HARDFORK + DIFFICULTY);
    }
    if forall i :: OccursAt(t, EXTRA, i) ==> i == |a| {
      ReplaceOne(a, EXTRA, b, UNCLES);
    }
  }
}
