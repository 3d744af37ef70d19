/**
 * TieredSort: `sort_players_by_gameweek_status_and_fantasy_value`.  Players
 * are split into three tiers by gameweek status, each tier is ordered by
 * value with Python's stable sort, and the tiers are concatenated.
 */
module TieredSort {
  import opened Players
  import opened LineupRules

  // ---------------------------------------------------------------------
  // Stable sort by value (`list.sort(key=value, reverse=desc)`)

  /** May `a`, already placed, stay ahead of a later player `x`?  Ties keep input order. */
  predicate Before(a: Player, x: Player, desc: bool)
  {
    if desc then a.value >= x.value else a.value <= x.value
  }

  /** Ordered by value: non-increasing when `desc`, non-decreasing otherwise. */
  predicate Ordered(s: seq<Player>, desc: bool)
  {
    forall i, j :: 0 <= i < j < |s| ==> Before(s[i], s[j], desc)
  }

  /** Where a later player goes: after every placed player that may stay ahead of it. */
  function InsertPos(x: Player, t: seq<Player>, desc: bool): (k: nat)
    ensures k <= |t|
    decreases |t|
  {
    if t == [] || !Before(t[0], x, desc) then 0 else 1 + InsertPos(x, t[1..], desc)
  }

  lemma {:induction false} InsertPosBounds(x: Player, t: seq<Player>, desc: bool)
    ensures InsertPos(x, t, desc) <= |t|
    ensures forall i :: 0 <= i < InsertPos(x, t, desc) ==> Before(t[i], x, desc)
    ensures InsertPos(x, t, desc) < |t| ==> !Before(t[InsertPos(x, t, desc)], x, desc)
    decreases |t|
  {
    if t != [] && Before(t[0], x, desc) {
      InsertPosBounds(x, t[1..], desc);
      var k := InsertPos(x, t, desc);
      forall i | 0 <= i < k ensures Before(t[i], x, desc) {
        if i > 0 {
          assert t[i] == t[1..][i - 1];
        }
      }
    }
  }

  /** In an ordered list no player after the insertion point may stay ahead of `x`. */
  lemma InsertPosSuffix(x: Player, t: seq<Player>, desc: bool)
    requires Ordered(t, desc)
    ensures InsertPos(x, t, desc) <= |t|
    ensures forall i :: 0 <= i < InsertPos(x, t, desc) ==> Before(t[i], x, desc)
    ensures forall i :: InsertPos(x, t, desc) <= i < |t| ==> !Before(t[i], x, desc)
  {
    InsertPosBounds(x, t, desc);
    var k := InsertPos(x, t, desc);
    forall i | k <= i < |t| ensures !Before(t[i], x, desc) {
      if i > k {
        assert Before(t[k], t[i], desc);
      }
    }
  }

  function Insert(x: Player, t: seq<Player>, desc: bool): seq<Player>
  {
    var k := InsertPos(x, t, desc);
    t[..k] + [x] + t[k..]
  }

  function SortByValue(s: seq<Player>, desc: bool): seq<Player>
  {
    if s == [] then [] else Insert(s[|s| - 1], SortByValue(s[..|s| - 1], desc), desc)
  }

  function ValueIs(v: real): Player -> bool
  {
    (x: Player) => x.value == v
  }

  lemma InsertShape(x: Player, t: seq<Player>, desc: bool)
    requires Ordered(t, desc)
    ensures InsertPos(x, t, desc) <= |t|
    ensures Insert(x, t, desc) == t[..InsertPos(x, t, desc)] + [x] + t[InsertPos(x, t, desc)..]
    ensures forall i :: 0 <= i < InsertPos(x, t, desc) ==> Before(t[i], x, desc)
    ensures forall i :: InsertPos(x, t, desc) <= i < |t| ==> Before(x, t[i], desc) && t[i].value != x.value
  {
    InsertPosSuffix(x, t, desc);
  }

  lemma InsertOrdered(x: Player, t: seq<Player>, desc: bool)
    requires Ordered(t, desc)
    ensures Ordered(Insert(x, t, desc), desc)
  {
    InsertShape(x, t, desc);
    var k := InsertPos(x, t, desc);
    var r := Insert(x, t, desc);
    forall i, j | 0 <= i < j < |r| ensures Before(r[i], r[j], desc) {
      if j < k {
        assert r[i] == t[i] && r[j] == t[j];
      } else if i > k {
        assert r[i] == t[i - 1] && r[j] == t[j - 1];
      } else if i == k {
        assert r[j] == t[j - 1];
      } else if j == k {
        assert r[i] == t[i];
      } else {
        assert r[i] == t[i] && r[j] == t[j - 1];
      }
    }
  }

  /** Selecting from a list with `x` spliced in is selecting around it. */
  lemma Splice(pre: seq<Player>, x: Player, post: seq<Player>, keep: Player -> bool)
    ensures Filter(pre + [x] + post, keep) == Filter(pre, keep) + Filter([x], keep) + Filter(post, keep)
    ensures Filter(pre + post, keep) == Filter(pre, keep) + Filter(post, keep)
  {
    FilterAppend(pre, [x], keep);
    FilterAppend(pre + [x], post, keep);
    FilterAppend(pre, post, keep);
  }

  lemma SpliceNone(pre: seq<Player>, x: Player, post: seq<Player>, keep: Player -> bool)
    requires forall i :: 0 <= i < |post| ==> !keep(post[i])
    ensures Filter(pre + [x] + post, keep) == Filter(pre + post, keep) + Filter([x], keep)
  {
    Splice(pre, x, post, keep);
    NoneSelected(post, keep);
    var a, b := Filter(pre, keep), Filter([x], keep);
    assert a + b + [] == a + [] + b;
  }

  lemma InsertStable(x: Player, t: seq<Player>, desc: bool, v: real)
    requires forall i :: InsertPos(x, t, desc) <= i < |t| ==> t[i].value != x.value
    ensures Filter(Insert(x, t, desc), ValueIs(v)) == Filter(t, ValueIs(v)) + Filter([x], ValueIs(v))
  {
    var k := InsertPos(x, t, desc);
    var pre, post := t[..k], t[k..];
    assert t == pre + post;
    assert Insert(x, t, desc) == pre + [x] + post;
    if v == x.value {
      forall i | 0 <= i < |post| ensures !ValueIs(v)(post[i]) {
        assert post[i] == t[k + i];
      }
      SpliceNone(pre, x, post, ValueIs(v));
    } else {
      SpliceOther(pre, x, post, v);
    }
  }

  lemma SpliceOther(pre: seq<Player>, x: Player, post: seq<Player>, v: real)
    requires x.value != v
    ensures Filter(pre + [x] + post, ValueIs(v)) == Filter(pre + post, ValueIs(v)) + Filter([x], ValueIs(v))
  {
    var keep := ValueIs(v);
    assert !keep(x);
    FilterSingle(x, keep);
    var none := Filter([x], keep);
    assert none == [];
    Splice(pre, x, post, keep);
    var a, c := Filter(pre, keep), Filter(post, keep);
    calc {
      Filter(pre + [x] + post, keep);
      a + none + c;
      { assert a + none == a; }
      a + c;
      { assert a + c + none == a + c; }
      Filter(pre + post, keep) + none;
    }
  }

  lemma {:induction false} NoneSelected(s: seq<Player>, keep: Player -> bool)
    requires forall i :: 0 <= i < |s| ==> !keep(s[i])
    ensures Filter(s, keep) == []
    decreases |s|
  {
    if s != [] {
      var init := s[..|s| - 1];
      forall i | 0 <= i < |init| ensures !keep(init[i]) {
        assert init[i] == s[i];
      }
      NoneSelected(init, keep);
    }
  }

  /**
   * The stable sort: a permutation, ordered by value, and for every value
   * the players holding it keep their input order.
   */
  lemma {:induction false} SortByValueSpec(s: seq<Player>, desc: bool)
    ensures multiset(SortByValue(s, desc)) == multiset(s)
    ensures Ordered(SortByValue(s, desc), desc)
    ensures forall v :: Filter(SortByValue(s, desc), ValueIs(v)) == Filter(s, ValueIs(v))
    decreases |s|
  {
    if s != [] {
      var init, last := s[..|s| - 1], s[|s| - 1];
      SortByValueSpec(init, desc);
      var sorted := SortByValue(init, desc);
      InsertOrdered(last, sorted, desc);
      InsertShape(last, sorted, desc);
      var k := InsertPos(last, sorted, desc);
      assert sorted == sorted[..k] + sorted[k..];
      assert s == init + [last];
      forall v ensures Filter(SortByValue(s, desc), ValueIs(v)) == Filter(s, ValueIs(v)) {
        InsertStable(last, sorted, desc, v);
        FilterAppend(init, [last], ValueIs(v));
      }
    }
  }

  // ---------------------------------------------------------------------
  // Tiers

  /**
   * The order in which the status checks are made: the team-manager domain
   * roster and the roster manager test "starting or expected" first, the
   * fantasy roster tests "uncertain" first.
   */
  datatype Precedence = PlayingFirst | UncertainFirst

  /** 1: starting or expected, 2: uncertain, 3: benched, suspended, out or unclassified. */
  function Tier(p: Player, prec: Precedence): (t: int)
    ensures 1 <= t <= 3
  {
    var s := p.statuses;
    match prec
    case PlayingFirst =>
      if ExpectedToPlay(s) || Starting(s) then 1
      else if Uncertain(s) then 2
      else 3
    case UncertainFirst =>
      if Uncertain(s) then 2
      else if BenchedOrOut(s) then 3
      else if ExpectedToPlay(s) || Starting(s) then 1
      else 3
  }

  /**
   * The two precedences disagree only on players with several kinds of flag:
   * one both starting and out is in tier 1 in the first and tier 3 in the
   * second; a player with only unknown statuses is in tier 3 in both; and a
   * player with at most one kind of flag gets the same tier in both.
   */
  lemma TierPrecedence(p: Player)
    ensures Starting(p.statuses) && BenchedOrOut(p.statuses) && !Uncertain(p.statuses) ==>
      Tier(p, PlayingFirst) == 1 && Tier(p, UncertainFirst) == 3
    ensures (p.statuses != {} && !Starting(p.statuses) && EXPECTED_TO_PLAY !in p.statuses
               && !Uncertain(p.statuses) && !BenchedOrOut(p.statuses)) ==>
      Tier(p, PlayingFirst) == 3 && Tier(p, UncertainFirst) == 3
    ensures (if ExpectedToPlay(p.statuses) || Starting(p.statuses) then 1 else 0)
      + (if Uncertain(p.statuses) then 1 else 0) + (if BenchedOrOut(p.statuses) then 1 else 0) <= 1
      ==> Tier(p, PlayingFirst) == Tier(p, UncertainFirst)
  {
  }

  function InTier(t: int, prec: Precedence): Player -> bool
  {
    (x: Player) => Tier(x, prec) == t
  }

  /** The new roster order: the three tiers, each sorted by value, highest first. */
  function TieredOrder(s: seq<Player>, prec: Precedence): seq<Player>
  {
    SortByValue(Filter(s, InTier(1, prec)), true)
    + SortByValue(Filter(s, InTier(2, prec)), true)
    + SortByValue(Filter(s, InTier(3, prec)), true)
  }

  /** Tier first, then value: what the sorted roster looks like. */
  predicate TierSorted(s: seq<Player>, prec: Precedence)
  {
    forall i, j :: 0 <= i < j < |s| ==>
      Tier(s[i], prec) < Tier(s[j], prec)
      || (Tier(s[i], prec) == Tier(s[j], prec) && s[i].value >= s[j].value)
  }

  function SameKey(t: int, v: real, prec: Precedence): Player -> bool
  {
    (x: Player) => Tier(x, prec) == t && x.value == v
  }

  lemma {:induction false} FilterThree(s: seq<Player>, prec: Precedence)
    ensures multiset(Filter(s, InTier(1, prec))) + multiset(Filter(s, InTier(2, prec)))
      + multiset(Filter(s, InTier(3, prec))) == multiset(s)
    decreases |s|
  {
    if s != [] {
      var init, last := s[..|s| - 1], s[|s| - 1];
      FilterThree(init, prec);
      assert s == init + [last];
      FilterThreeStep(init, last, prec);
    }
  }

  lemma FilterThreeStep(init: seq<Player>, last: Player, prec: Precedence)
    requires multiset(Filter(init, InTier(1, prec))) + multiset(Filter(init, InTier(2, prec)))
      + multiset(Filter(init, InTier(3, prec))) == multiset(init)
    ensures multiset(Filter(init + [last], InTier(1, prec))) + multiset(Filter(init + [last], InTier(2, prec)))
      + multiset(Filter(init + [last], InTier(3, prec))) == multiset(init + [last])
  {
    FilterLastMultiset(init, last, prec, 1);
    FilterLastMultiset(init, last, prec, 2);
    FilterLastMultiset(init, last, prec, 3);
    assert multiset(init + [last]) == multiset(init) + multiset{last};
  }

  /** Selections that agree on the players of `s` select the same players from it. */
  lemma {:induction false} FilterSameOn(s: seq<Player>, keep: Player -> bool, keep2: Player -> bool)
    requires forall i :: 0 <= i < |s| ==> keep(s[i]) == keep2(s[i])
    ensures Filter(s, keep) == Filter(s, keep2)
    decreases |s|
  {
    if s != [] {
      FilterSameOn(s[..|s| - 1], keep, keep2);
    }
  }

  /** One tier, sorted by value: only players of that tier, in tier-then-value order. */
  lemma SortedTier(s: seq<Player>, prec: Precedence, u: int)
    ensures multiset(SortByValue(Filter(s, InTier(u, prec)), true)) == multiset(Filter(s, InTier(u, prec)))
    ensures forall i :: 0 <= i < |SortByValue(Filter(s, InTier(u, prec)), true)| ==>
      Tier(SortByValue(Filter(s, InTier(u, prec)), true)[i], prec) == u
    ensures TierSorted(SortByValue(Filter(s, InTier(u, prec)), true), prec)
  {
    var part := Filter(s, InTier(u, prec));
    var sorted := SortByValue(part, true);
    SortByValueSpec(part, true);
    FilterMembers(s, InTier(u, prec));
    forall i | 0 <= i < |sorted| ensures Tier(sorted[i], prec) == u {
      assert sorted[i] in multiset(part);
      assert sorted[i] in part;
      assert InTier(u, prec)(sorted[i]);
    }
    forall i, j | 0 <= i < j < |sorted| ensures sorted[i].value >= sorted[j].value {
      assert Before(sorted[i], sorted[j], true);
    }
  }

  lemma ConcatTierSorted(a: seq<Player>, b: seq<Player>, prec: Precedence, bound: int)
    requires TierSorted(a, prec) && TierSorted(b, prec)
    requires forall i :: 0 <= i < |a| ==> Tier(a[i], prec) <= bound
    requires forall j :: 0 <= j < |b| ==> Tier(b[j], prec) > bound
    ensures TierSorted(a + b, prec)
  {
    var r := a + b;
    forall i, j | 0 <= i < j < |r|
      ensures Tier(r[i], prec) < Tier(r[j], prec) || (Tier(r[i], prec) == Tier(r[j], prec) && r[i].value >= r[j].value)
    {
      if j < |a| {
        assert r[i] == a[i] && r[j] == a[j];
      } else if i >= |a| {
        assert r[i] == b[i - |a|] && r[j] == b[j - |a|];
      } else {
        assert r[i] == a[i] && r[j] == b[j - |a|];
      }
    }
  }

  /** Within one tier, selecting by tier and value is selecting by value. */
  lemma KeyIsValueInTier(s: seq<Player>, prec: Precedence, u: int, v: real)
    requires forall i :: 0 <= i < |s| ==> Tier(s[i], prec) == u
    ensures Filter(s, SameKey(u, v, prec)) == Filter(s, ValueIs(v))
  {
    forall i | 0 <= i < |s| ensures SameKey(u, v, prec)(s[i]) == ValueIs(v)(s[i]) {
    }
    FilterSameOn(s, SameKey(u, v, prec), ValueIs(v));
  }

  /** The players of one tier with one value, in the sorted tier, are those of the input. */
  lemma TierKeySame(s: seq<Player>, prec: Precedence, u: int, v: real)
    ensures Filter(SortByValue(Filter(s, InTier(u, prec)), true), SameKey(u, v, prec)) == Filter(s, SameKey(u, v, prec))
  {
    var part := Filter(s, InTier(u, prec));
    var sorted := SortByValue(part, true);
    SortedTier(s, prec, u);
    KeyIsValueInTier(sorted, prec, u, v);
    SortByValueSpec(part, true);
    assert Filter(sorted, ValueIs(v)) == Filter(part, ValueIs(v));
    FilterMembers(s, InTier(u, prec));
    forall i | 0 <= i < |part| ensures Tier(part[i], prec) == u {
      assert part[i] in part;
    }
    KeyIsValueInTier(part, prec, u, v);
    FilterTwice(s, InTier(u, prec), SameKey(u, v, prec), SameKey(u, v, prec));
  }

  /** A sorted tier holds no player of another tier. */
  lemma TierKeyOther(s: seq<Player>, prec: Precedence, t: int, u: int, v: real)
    requires t != u
    ensures Filter(SortByValue(Filter(s, InTier(u, prec)), true), SameKey(t, v, prec)) == []
  {
    var sorted := SortByValue(Filter(s, InTier(u, prec)), true);
    SortedTier(s, prec, u);
    forall i | 0 <= i < |sorted| ensures !SameKey(t, v, prec)(sorted[i]) {
    }
    NoneSelected(sorted, SameKey(t, v, prec));
  }

  /** After the sort the roster is a permutation of the old one. */
  lemma TieredOrderPermutation(s: seq<Player>, prec: Precedence)
    ensures multiset(TieredOrder(s, prec)) == multiset(s)
  {
    SortedTier(s, prec, 1);
    SortedTier(s, prec, 2);
    SortedTier(s, prec, 3);
    FilterThree(s, prec);
  }

  /** The sorted roster is ordered by tier, and by value (highest first) within a tier. */
  lemma TieredOrderSorted(s: seq<Player>, prec: Precedence)
    ensures TierSorted(TieredOrder(s, prec), prec)
  {
    var s1 := SortByValue(Filter(s, InTier(1, prec)), true);
    var s2 := SortByValue(Filter(s, InTier(2, prec)), true);
    var s3 := SortByValue(Filter(s, InTier(3, prec)), true);
    SortedTier(s, prec, 1);
    SortedTier(s, prec, 2);
    SortedTier(s, prec, 3);
    ThreeTiersSorted(s1, s2, s3, prec);
  }

  lemma ThreeTiersSorted(s1: seq<Player>, s2: seq<Player>, s3: seq<Player>, prec: Precedence)
    requires TierSorted(s1, prec) && TierSorted(s2, prec) && TierSorted(s3, prec)
    requires forall i :: 0 <= i < |s1| ==> Tier(s1[i], prec) == 1
    requires forall i :: 0 <= i < |s2| ==> Tier(s2[i], prec) == 2
    requires forall i :: 0 <= i < |s3| ==> Tier(s3[i], prec) == 3
    ensures TierSorted(s1 + s2 + s3, prec)
  {
    ConcatTierSorted(s1, s2, prec, 1);
    forall i | 0 <= i < |s1 + s2| ensures Tier((s1 + s2)[i], prec) <= 2 {
      if i < |s1| { assert (s1 + s2)[i] == s1[i]; } else { assert (s1 + s2)[i] == s2[i - |s1|]; }
    }
    ConcatTierSorted(s1 + s2, s3, prec, 2);
  }

  /** Players with the same tier and the same value keep their input order (stability). */
  lemma TieredOrderStable(s: seq<Player>, prec: Precedence, t: int, v: real)
    ensures Filter(TieredOrder(s, prec), SameKey(t, v, prec)) == Filter(s, SameKey(t, v, prec))
  {
    var s1 := SortByValue(Filter(s, InTier(1, prec)), true);
    var s2 := SortByValue(Filter(s, InTier(2, prec)), true);
    var s3 := SortByValue(Filter(s, InTier(3, prec)), true);
    FilterAppend(s1 + s2, s3, SameKey(t, v, prec));
    FilterAppend(s1, s2, SameKey(t, v, prec));
    var k1, k2, k3 := Filter(s1, SameKey(t, v, prec)), Filter(s2, SameKey(t, v, prec)), Filter(s3, SameKey(t, v, prec));
    if t == 1 {
      TierKeySame(s, prec, 1, v);
      TierKeyOther(s, prec, t, 2, v);
      TierKeyOther(s, prec, t, 3, v);
      assert k1 + k2 + k3 == k1;
    } else if t == 2 {
      TierKeySame(s, prec, 2, v);
      TierKeyOther(s, prec, t, 1, v);
      TierKeyOther(s, prec, t, 3, v);
      assert k1 + k2 + k3 == k2;
    } else if t == 3 {
      TierKeySame(s, prec, 3, v);
      TierKeyOther(s, prec, t, 1, v);
      TierKeyOther(s, prec, t, 2, v);
      assert k1 + k2 + k3 == k3;
    } else {
      TierKeyOther(s, prec, t, 1, v);
      TierKeyOther(s, prec, t, 2, v);
      TierKeyOther(s, prec, t, 3, v);
      forall i | 0 <= i < |s| ensures !SameKey(t, v, prec)(s[i]) {
      }
      NoneSelected(s, SameKey(t, v, prec));
    }
  }

  // ---------------------------------------------------------------------
  // Sorting a sorted roster

  lemma {:induction false} InsertPosEnd(x: Player, t: seq<Player>, desc: bool)
    requires forall i :: 0 <= i < |t| ==> Before(t[i], x, desc)
    ensures InsertPos(x, t, desc) == |t|
    decreases |t|
  {
    if t != [] {
      assert forall i :: 0 <= i < |t[1..]| ==> t[1..][i] == t[i + 1];
      InsertPosEnd(x, t[1..], desc);
    }
  }

  /** A list already ordered by value sorts to itself. */
  lemma {:induction false} SortByValueFixed(s: seq<Player>, desc: bool)
    requires Ordered(s, desc)
    ensures SortByValue(s, desc) == s
    decreases |s|
  {
    if s != [] {
      var init, last := s[..|s| - 1], s[|s| - 1];
      assert s == init + [last];
      OrderedInit(init, last, desc);
      SortByValueFixed(init, desc);
      InsertPosEnd(last, init, desc);
      assert init[..|init|] == init && init[|init|..] == [];
    }
  }

  /** Dropping the last player keeps a list ordered, and every other player comes before it. */
  lemma OrderedInit(init: seq<Player>, last: Player, desc: bool)
    requires Ordered(init + [last], desc)
    ensures Ordered(init, desc)
    ensures forall i :: 0 <= i < |init| ==> Before(init[i], last, desc)
  {
    var s := init + [last];
    forall i, j | 0 <= i < j < |init| ensures Before(init[i], init[j], desc) {
      assert s[i] == init[i] && s[j] == init[j];
    }
    forall i | 0 <= i < |init| ensures Before(init[i], last, desc) {
      assert s[i] == init[i] && s[|init|] == last;
    }
  }

  /** One tier of a tier-sorted roster is ordered by value, highest first. */
  lemma {:induction false} TierOrdered(s: seq<Player>, prec: Precedence, u: int)
    requires TierSorted(s, prec)
    ensures Ordered(Filter(s, InTier(u, prec)), true)
    decreases |s|
  {
    if s != [] {
      var init, last := s[..|s| - 1], s[|s| - 1];
      assert TierSorted(init, prec);
      TierOrdered(init, prec, u);
      var f := Filter(init, InTier(u, prec));
      if Tier(last, prec) == u {
        FilterMembers(init, InTier(u, prec));
        forall i | 0 <= i < |f|
          ensures Before(f[i], last, true)
        {
          assert f[i] in init;
          var k :| 0 <= k < |init| && init[k] == f[i];
          assert s[k] == f[i];
        }
        assert Filter(s, InTier(u, prec)) == f + [last];
      }
    }
  }

  lemma NoneInTier(s: seq<Player>, prec: Precedence, bound: int, u: int)
    requires forall i :: 0 <= i < |s| ==> Tier(s[i], prec) <= bound
    requires bound < u
    ensures Filter(s, InTier(u, prec)) == []
  {
    forall i | 0 <= i < |s| ensures !InTier(u, prec)(s[i]) {
      NotInTier(s[i], prec, bound, u);
    }
    NoneSelected(s, InTier(u, prec));
  }

  lemma NotInTier(p: Player, prec: Precedence, bound: int, u: int)
    requires Tier(p, prec) <= bound < u
    ensures !InTier(u, prec)(p)
  {
  }

  /** The multiset of a tier after one more player. */
  lemma FilterLastMultiset(init: seq<Player>, last: Player, prec: Precedence, u: int)
    ensures multiset(Filter(init + [last], InTier(u, prec)))
      == multiset(Filter(init, InTier(u, prec))) + if Tier(last, prec) == u then multiset{last} else multiset{}
  {
    FilterLast(init, last, prec, u);
  }

  lemma FilterLast(init: seq<Player>, last: Player, prec: Precedence, u: int)
    ensures Filter(init + [last], InTier(u, prec))
      == if Tier(last, prec) == u then Filter(init, InTier(u, prec)) + [last] else Filter(init, InTier(u, prec))
  {
    FilterAppend(init, [last], InTier(u, prec));
    FilterSingle(last, InTier(u, prec));
  }

  /** Appending one player to the tier it belongs to, when no later tier has members yet. */
  lemma AppendToTier(f1: seq<Player>, f2: seq<Player>, f3: seq<Player>, last: Player, t: int)
    requires 1 <= t <= 3
    requires t == 1 ==> f2 == [] && f3 == []
    requires t == 2 ==> f3 == []
    ensures (if t == 1 then f1 + [last] else f1) + (if t == 2 then f2 + [last] else f2)
      + (if t == 3 then f3 + [last] else f3) == (f1 + f2 + f3) + [last]
  {
  }

  /** With every tier at most `t`, the later tiers select nobody. */
  lemma LaterTiersEmpty(init: seq<Player>, prec: Precedence, t: int)
    requires forall i :: 0 <= i < |init| ==> Tier(init[i], prec) <= t
    ensures t == 1 ==> Filter(init, InTier(2, prec)) == [] && Filter(init, InTier(3, prec)) == []
    ensures t == 2 ==> Filter(init, InTier(3, prec)) == []
  {
    if t == 1 {
      NoneInTier(init, prec, t, 2);
      NoneInTier(init, prec, t, 3);
    } else if t == 2 {
      NoneInTier(init, prec, t, 3);
    }
  }

  lemma SplitStep(init: seq<Player>, last: Player, prec: Precedence)
    requires Filter(init, InTier(1, prec)) + Filter(init, InTier(2, prec)) + Filter(init, InTier(3, prec)) == init
    requires Tier(last, prec) == 1 ==> Filter(init, InTier(2, prec)) == [] && Filter(init, InTier(3, prec)) == []
    requires Tier(last, prec) == 2 ==> Filter(init, InTier(3, prec)) == []
    ensures Filter(init + [last], InTier(1, prec)) + Filter(init + [last], InTier(2, prec))
      + Filter(init + [last], InTier(3, prec)) == init + [last]
  {
    FilterLast(init, last, prec, 1);
    FilterLast(init, last, prec, 2);
    FilterLast(init, last, prec, 3);
    AppendToTier(Filter(init, InTier(1, prec)), Filter(init, InTier(2, prec)), Filter(init, InTier(3, prec)),
      last, Tier(last, prec));
  }

  /** A tier-sorted roster is the concatenation of its three tiers. */
  lemma {:induction false} TierSortedSplit(s: seq<Player>, prec: Precedence)
    requires TierSorted(s, prec)
    ensures Filter(s, InTier(1, prec)) + Filter(s, InTier(2, prec)) + Filter(s, InTier(3, prec)) == s
    decreases |s|
  {
    if s != [] {
      var init, last := s[..|s| - 1], s[|s| - 1];
      assert s == init + [last];
      TierSortedInit(init, last, prec);
      TierSortedSplit(init, prec);
      LaterTiersEmpty(init, prec, Tier(last, prec));
      SplitStep(init, last, prec);
    }
  }

  /** Dropping the last player keeps a roster tier-sorted, and that player's tier bounds the others. */
  lemma TierSortedInit(init: seq<Player>, last: Player, prec: Precedence)
    requires TierSorted(init + [last], prec)
    ensures TierSorted(init, prec)
    ensures forall i :: 0 <= i < |init| ==> Tier(init[i], prec) <= Tier(last, prec)
  {
    var s := init + [last];
    forall i, j | 0 <= i < j < |init|
      ensures Tier(init[i], prec) < Tier(init[j], prec)
        || (Tier(init[i], prec) == Tier(init[j], prec) && init[i].value >= init[j].value)
    {
      assert s[i] == init[i] && s[j] == init[j];
    }
    forall i | 0 <= i < |init|
      ensures Tier(init[i], prec) <= Tier(last, prec)
    {
      assert s[i] == init[i] && s[|init|] == last;
    }
  }

  /** Sorting an already tier-sorted roster changes nothing. */
  lemma TieredOrderFixed(s: seq<Player>, prec: Precedence)
    requires TierSorted(s, prec)
    ensures TieredOrder(s, prec) == s
  {
    TierOrdered(s, prec, 1);
    TierOrdered(s, prec, 2);
    TierOrdered(s, prec, 3);
    SortByValueFixed(Filter(s, InTier(1, prec)), true);
    SortByValueFixed(Filter(s, InTier(2, prec)), true);
    SortByValueFixed(Filter(s, InTier(3, prec)), true);
    TierSortedSplit(s, prec);
  }
}
