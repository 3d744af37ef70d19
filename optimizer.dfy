/**
 * Optimizer: the full-rebuild lineup optimisation.  The roster is sorted by
 * tier and value, every unlocked player is reset to reserve, and one walk
 * over the sorted roster promotes each unlocked player the relaxed validator
 * accepts at its turn.
 */
module Optimizer {
  import opened Players
  import opened LineupRules
  import opened TieredSort

  // ---------------------------------------------------------------------
  // Reset

  /** A locked player is left alone; any other becomes a reserve. */
  function ResetPlayer(p: Player): Player
  {
    if p.locked then p else p.(starter := false)
  }

  /** The reset loop: every unlocked player is changed to reserve. */
  function Reset(s: seq<Player>): (r: seq<Player>)
    ensures |r| == |s|
  {
    seq(|s|, i requires 0 <= i < |s| => ResetPlayer(s[i]))
  }

  /**
   * After the reset the starters are exactly the locked starters; nothing
   * but the starter flag of an unlocked player changes.
   */
  lemma ResetStarters(s: seq<Player>)
    ensures forall i :: 0 <= i < |s| ==> (Reset(s)[i].starter <==> s[i].locked && s[i].starter)
    ensures forall i :: 0 <= i < |s| ==> Reset(s)[i].(starter := s[i].starter) == s[i]
    ensures forall i :: 0 <= i < |s| && s[i].locked ==> Reset(s)[i] == s[i]
  {
  }

  /** Resetting twice is resetting once. */
  lemma ResetIdempotent(s: seq<Player>)
    ensures Reset(Reset(s)) == Reset(s)
  {
    assert forall i :: 0 <= i < |s| ==> Reset(Reset(s))[i] == Reset(s)[i];
  }

  function AfterReset(keep: Player -> bool): Player -> bool
  {
    (x: Player) => keep(ResetPlayer(x))
  }

  lemma {:induction false} FilterReset(s: seq<Player>, keep: Player -> bool)
    ensures |Filter(Reset(s), keep)| == |Filter(s, AfterReset(keep))|
    decreases |s|
  {
    if s != [] {
      assert Reset(s)[..|s| - 1] == Reset(s[..|s| - 1]);
      FilterReset(s[..|s| - 1], keep);
    }
  }

  /** The starters left by the reset do not depend on the roster's order. */
  lemma ResetCountsPermutation(a: seq<Player>, b: seq<Player>)
    requires multiset(a) == multiset(b)
    ensures StarterCounts(Reset(a)) == StarterCounts(Reset(b))
  {
    forall p: Position
      ensures StarterCounts(Reset(a)).Get(p) == StarterCounts(Reset(b)).Get(p)
    {
      StarterCountsByPosition(Reset(a), p);
      StarterCountsByPosition(Reset(b), p);
      FilterReset(a, StarterAt(p));
      FilterReset(b, StarterAt(p));
      FilterPermutation(a, b, AfterReset(StarterAt(p)));
    }
    assert StarterCounts(Reset(a)).Get(G) == StarterCounts(Reset(b)).Get(G);
    assert StarterCounts(Reset(a)).Get(D) == StarterCounts(Reset(b)).Get(D);
    assert StarterCounts(Reset(a)).Get(M) == StarterCounts(Reset(b)).Get(M);
    assert StarterCounts(Reset(a)).Get(F) == StarterCounts(Reset(b)).Get(F);
  }

  // ---------------------------------------------------------------------
  // The promotion walk

  /** Would the relaxed validator accept proposing the unlocked player at `i`? */
  predicate Promotable(s: seq<Player>, i: nat)
    requires i < |s|
  {
    !s[i].locked && SubstitutionVerdict(s, [s[i]], true) == Accept
  }

  /** The walk's turn at `i`: promote the player when it is promotable. */
  function Step(s: seq<Player>, i: nat): (r: seq<Player>)
    requires i < |s|
    ensures |r| == |s|
  {
    if Promotable(s, i) then s[i := s[i].(starter := true)] else s
  }

  /** The roster after the walk's first `n` turns. */
  function WalkUpTo(s: seq<Player>, n: nat): (r: seq<Player>)
    requires n <= |s|
    ensures |r| == |s|
  {
    if n == 0 then s else Step(WalkUpTo(s, n - 1), n - 1)
  }

  /** The whole walk. */
  function Walk(s: seq<Player>): (r: seq<Player>)
    ensures |r| == |s|
  {
    WalkUpTo(s, |s|)
  }

  /** `optimize_lineup`: sort, reset, walk. */
  function Optimized(s: seq<Player>, prec: Precedence): seq<Player>
  {
    Walk(Reset(TieredOrder(s, prec)))
  }

  /** Proposing one unlocked player checks the relaxed limits on the counts with that player toggled. */
  lemma SingleVerdict(s: seq<Player>, p: Player)
    requires !p.locked
    ensures SubstitutionVerdict(s, [p], true) == CheckCounts(Toggle(StarterCounts(s), p), true)
  {
    var c := StarterCounts(s);
    assert [p][1..] == [];
    assert SwapVerdict(c, [p], true) == SwapVerdict(Toggle(c, p), [], true);
  }

  /**
   * The walk's turns after `n` leave the players before `n` alone, and the
   * turns before `n` leave the players from `n` on alone.
   */
  lemma {:induction false} WalkFrame(s: seq<Player>, n: nat, m: nat)
    requires n <= m <= |s|
    ensures forall j :: 0 <= j < n ==> WalkUpTo(s, m)[j] == WalkUpTo(s, n)[j]
    ensures forall j :: m <= j < |s| ==> WalkUpTo(s, m)[j] == s[j]
    decreases m
  {
    if m > 0 {
      if n < m {
        WalkFrame(s, n, m - 1);
      } else {
        WalkFrame(s, n - 1, m - 1);
      }
    }
  }

  /**
   * The walk changes no locked player, changes nothing but the starter flag,
   * and never demotes a starter.
   */
  lemma {:induction false} WalkOnlyPromotes(s: seq<Player>, n: nat)
    requires n <= |s|
    ensures forall j :: 0 <= j < |s| ==> WalkUpTo(s, n)[j].(starter := s[j].starter) == s[j]
    ensures forall j :: 0 <= j < |s| && s[j].locked ==> WalkUpTo(s, n)[j] == s[j]
    ensures forall j :: 0 <= j < |s| && s[j].starter ==> WalkUpTo(s, n)[j].starter
    decreases n
  {
    if n > 0 {
      WalkOnlyPromotes(s, n - 1);
    }
  }

  /**
   * The player at `j` ends as a starter exactly when it started as one or
   * is unlocked and the relaxed validator accepts it at its turn, on the
   * roster as the walk has left it by then.
   */
  lemma WalkDecision(s: seq<Player>, j: nat)
    requires j < |s|
    ensures Walk(s)[j].starter <==>
      s[j].starter || (!s[j].locked && SubstitutionVerdict(WalkUpTo(s, j), [s[j]], true) == Accept)
    ensures !Walk(s)[j].starter ==> Walk(s)[j] == s[j]
  {
    WalkFrame(s, j + 1, |s|);
    WalkFrame(s, j, j);
    assert WalkUpTo(s, j)[j] == s[j];
    assert Walk(s)[j] == WalkUpTo(s, j + 1)[j] == Step(WalkUpTo(s, j), j)[j];
  }

  /** Componentwise order on position counts. */
  predicate CountsLe(a: Counts, b: Counts)
  {
    a.g <= b.g && a.d <= b.d && a.m <= b.m && a.f <= b.f
  }

  /** A turn of the walk only adds starters. */
  lemma StepGrows(s: seq<Player>, i: nat)
    requires i < |s|
    ensures CountsLe(StarterCounts(s), StarterCounts(Step(s, i)))
    ensures WithinCaps(StarterCounts(s)) ==> WithinCaps(StarterCounts(Step(s, i)))
  {
    if Promotable(s, i) {
      if s[i].starter {
        assert s[i := s[i].(starter := true)] == s;
      } else {
        ToggleIsFlip(s, i);
        SingleVerdict(s, s[i]);
        CheckCountsAccepts(Toggle(StarterCounts(s), s[i]), true);
      }
    }
  }

  /** Counts only grow during the walk, and the caps, once met, stay met. */
  lemma {:induction false} WalkGrows(s: seq<Player>, n: nat, m: nat)
    requires n <= m <= |s|
    ensures CountsLe(StarterCounts(WalkUpTo(s, n)), StarterCounts(WalkUpTo(s, m)))
    ensures WithinCaps(StarterCounts(WalkUpTo(s, n))) ==> WithinCaps(StarterCounts(WalkUpTo(s, m)))
    decreases m
  {
    if n < m {
      WalkGrows(s, n, m - 1);
      StepGrows(WalkUpTo(s, m - 1), m - 1);
    }
  }

  /** Relaxed rejection of a reserve stays rejection when the counts grow. */
  lemma RejectStaysRejected(a: Counts, b: Counts, p: Player)
    requires CountsLe(a, b) && !p.starter
    requires CheckCounts(Toggle(a, p), true) != Accept
    ensures CheckCounts(Toggle(b, p), true) != Accept
  {
    CheckCountsAccepts(Toggle(a, p), true);
    CheckCountsAccepts(Toggle(b, p), true);
  }

  /** If the starters are within the caps before the walk, they are after it. */
  lemma WalkWithinCaps(s: seq<Player>)
    requires WithinCaps(StarterCounts(s))
    ensures WithinCaps(StarterCounts(Walk(s)))
  {
    WalkGrows(s, 0, |s|);
  }

  /** After the walk no unlocked reserve would pass the relaxed validator. */
  lemma WalkMaximal(s: seq<Player>, j: nat)
    requires j < |s| && !Walk(s)[j].locked && !Walk(s)[j].starter
    ensures SubstitutionVerdict(Walk(s), [Walk(s)[j]], true) != Accept
  {
    WalkDecision(s, j);
    var p := s[j];
    assert Walk(s)[j] == p;
    SingleVerdict(WalkUpTo(s, j), p);
    SingleVerdict(Walk(s), p);
    WalkGrows(s, j, |s|);
    RejectStaysRejected(StarterCounts(WalkUpTo(s, j)), StarterCounts(Walk(s)), p);
  }

  // ---------------------------------------------------------------------
  // The whole rebuild

  /**
   * The rebuilt lineup: locked players are exactly as the sort left them,
   * and every unlocked player is a starter exactly when the relaxed
   * validator accepted it at its turn (all of them having been reset).
   */
  lemma OptimizedDecision(s: seq<Player>, prec: Precedence, j: nat)
    requires j < |s|
    ensures |Optimized(s, prec)| == |TieredOrder(s, prec)| == |s|
    ensures TieredOrder(s, prec)[j].locked ==> Optimized(s, prec)[j] == TieredOrder(s, prec)[j]
    ensures !TieredOrder(s, prec)[j].locked ==>
      (Optimized(s, prec)[j].starter <==>
        SubstitutionVerdict(WalkUpTo(Reset(TieredOrder(s, prec)), j), [Reset(TieredOrder(s, prec))[j]], true) == Accept)
    ensures Optimized(s, prec)[j].(starter := TieredOrder(s, prec)[j].starter) == TieredOrder(s, prec)[j]
  {
    var t := TieredOrder(s, prec);
    TieredOrderPermutation(s, prec);
    assert |t| == |multiset(t)| == |multiset(s)| == |s|;
    ResetStarters(t);
    WalkOnlyPromotes(Reset(t), |t|);
    WalkDecision(Reset(t), j);
  }

  /** The rebuilt lineup is maximal: no unlocked reserve could still be promoted. */
  lemma OptimizedMaximal(s: seq<Player>, prec: Precedence, j: nat)
    requires j < |Optimized(s, prec)|
    requires !Optimized(s, prec)[j].locked && !Optimized(s, prec)[j].starter
    ensures SubstitutionVerdict(Optimized(s, prec), [Optimized(s, prec)[j]], true) != Accept
  {
    WalkMaximal(Reset(TieredOrder(s, prec)), j);
  }

  /**
   * If the locked starters alone (the starters the reset leaves) are within
   * the caps, the rebuilt lineup is within the caps.
   */
  lemma OptimizedWithinCaps(s: seq<Player>, prec: Precedence)
    requires WithinCaps(StarterCounts(Reset(s)))
    ensures WithinCaps(StarterCounts(Optimized(s, prec)))
  {
    TieredOrderPermutation(s, prec);
    ResetCountsPermutation(TieredOrder(s, prec), s);
    WalkWithinCaps(Reset(TieredOrder(s, prec)));
  }

  /** Changing starter flags alone keeps a roster tier-sorted. */
  lemma FlagsKeepTierSorted(x: seq<Player>, y: seq<Player>, prec: Precedence)
    requires |x| == |y|
    requires forall i :: 0 <= i < |x| ==> y[i].(starter := x[i].starter) == x[i]
    requires TierSorted(x, prec)
    ensures TierSorted(y, prec)
  {
    forall i | 0 <= i < |x|
      ensures Tier(y[i], prec) == Tier(x[i], prec) && y[i].value == x[i].value
    {
      assert y[i].statuses == x[i].statuses;
    }
  }

  /** The reset erases every choice the walk made. */
  lemma ResetAfterWalk(t: seq<Player>)
    ensures Reset(Walk(Reset(t))) == Reset(t)
  {
    var r := Reset(t);
    ResetStarters(t);
    WalkOnlyPromotes(r, |r|);
    forall j | 0 <= j < |t|
      ensures Reset(Walk(r))[j] == r[j]
    {
      var w := Walk(r)[j];
      assert w.(starter := r[j].starter) == r[j];
    }
  }

  /**
   * Running the rebuild on its own result changes nothing: the sorted order
   * is kept, the reset erases the earlier choices and the walk makes them
   * again.
   */
  lemma OptimizedIdempotent(s: seq<Player>, prec: Precedence)
    ensures Optimized(Optimized(s, prec), prec) == Optimized(s, prec)
  {
    var t := TieredOrder(s, prec);
    var r := Reset(t);
    var w := Walk(r);
    TieredOrderSorted(s, prec);
    ResetStarters(t);
    FlagsKeepTierSorted(t, r, prec);
    WalkOnlyPromotes(r, |r|);
    FlagsKeepTierSorted(r, w, prec);
    TieredOrderFixed(w, prec);
    ResetAfterWalk(t);
  }

  /** A one-player roster sorts to itself. */
  lemma TieredOrderSingle(p: Player, prec: Precedence)
    ensures TieredOrder([p], prec) == [p]
  {
    FilterSingle(p, InTier(1, prec));
    FilterSingle(p, InTier(2, prec));
    FilterSingle(p, InTier(3, prec));
    assert [p][..0] == [];
    assert SortByValue([p], true) == Insert(p, [], true) == [p];
  }

  /** A lone unlocked reserve goalkeeper is promoted. */
  lemma WalkSingleGoalkeeper(q: Player)
    requires q.position == G && !q.locked && !q.starter
    ensures Walk([q]) == [q.(starter := true)]
  {
    assert [q][..0] == [];
    assert StarterCounts([q]) == NO_STARTERS;
    assert Toggle(NO_STARTERS, q) == Counts(1, 0, 0, 0);
    assert CheckCounts(Counts(1, 0, 0, 0), true) == Accept;
    SingleVerdict([q], q);
    assert Promotable([q], 0);
    assert WalkUpTo([q], 0) == [q];
    assert Walk([q]) == Step([q], 0);
  }

  /**
   * The walk never re-checks the minimums: a roster of one unlocked
   * goalkeeper ends with that goalkeeper starting and no defender, which the
   * strict validator rejects.
   */
  lemma MinimumsNotRechecked(p: Player, prec: Precedence)
    requires p.position == G && !p.locked
    ensures Optimized([p], prec) == [p.(starter := true)]
    ensures CheckCounts(StarterCounts(Optimized([p], prec)), false) == Reject("Must have at least 3 Defenders")
  {
    TieredOrderSingle(p, prec);
    var r := [p.(starter := false)];
    assert Reset([p]) == r;
    WalkSingleGoalkeeper(r[0]);
    var w := [p.(starter := true)];
    assert w[..0] == [];
    assert StarterCounts(w) == Counts(1, 0, 0, 0);
  }
}
