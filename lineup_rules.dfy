/**
 * LineupRules: the roster filters (starters, reserves, at-risk starters,
 * playable reserves, starters by position), the per-position starter counts
 * and the toggle-and-check substitution validator shared by the roster copies.
 */
module LineupRules {
  import opened Wrappers
  import opened Players

  // Limits of the lineup, as the roster manager writes them out
  // (services/fantrax_roster_manager.py:199-229); the domain copies read them
  // from a constants module, whose cap on starters is named MIN_STARTERS.
  const MAX_STARTERS: int := 11
  const MIN_DEFENDERS: int := 3
  const MIN_MIDFIELDERS: int := 3
  const MIN_FORWARDS: int := 1
  const MAX_GOALKEEPERS: int := 1
  const MAX_DEFENDERS: int := 5
  const MAX_MIDFIELDERS: int := 5
  const MAX_FORWARDS: int := 3

  // ---------------------------------------------------------------------
  // Order-preserving selection

  /** The players of `s` that satisfy `keep`, in roster order. */
  function Filter(s: seq<Player>, keep: Player -> bool): (r: seq<Player>)
    ensures |r| <= |s|
  {
    if s == [] then []
    else Filter(s[..|s| - 1], keep) + (if keep(s[|s| - 1]) then [s[|s| - 1]] else [])
  }

  /** The selection holds exactly the players of `s` that satisfy `keep`. */
  lemma {:induction false} FilterMembers(s: seq<Player>, keep: Player -> bool)
    ensures forall x :: x in Filter(s, keep) <==> x in s && keep(x)
    decreases |s|
  {
    if s != [] {
      FilterMembers(s[..|s| - 1], keep);
      assert s == s[..|s| - 1] + [s[|s| - 1]];
    }
  }

  lemma {:induction false} FilterAppend(s: seq<Player>, t: seq<Player>, keep: Player -> bool)
    ensures Filter(s + t, keep) == Filter(s, keep) + Filter(t, keep)
    decreases |t|
  {
    if t == [] {
      assert s + t == s;
    } else {
      assert (s + t)[..|s + t| - 1] == s + t[..|t| - 1];
      FilterAppend(s, t[..|t| - 1], keep);
    }
  }

  /** Filters that agree on every player select the same players. */
  lemma {:induction false} FilterSame(s: seq<Player>, keep: Player -> bool, keep2: Player -> bool)
    requires forall x :: keep(x) == keep2(x)
    ensures Filter(s, keep) == Filter(s, keep2)
    decreases |s|
  {
    if s != [] {
      FilterSame(s[..|s| - 1], keep, keep2);
    }
  }

  /** Selecting twice is selecting once by both conditions. */
  lemma {:induction false} FilterTwice(s: seq<Player>, keep: Player -> bool, keep2: Player -> bool, both: Player -> bool)
    requires forall x :: both(x) == (keep(x) && keep2(x))
    ensures Filter(Filter(s, keep), keep2) == Filter(s, both)
    decreases |s|
  {
    if s != [] {
      var init, last := s[..|s| - 1], s[|s| - 1];
      FilterTwice(init, keep, keep2, both);
      FilterAppend(Filter(init, keep), if keep(last) then [last] else [], keep2);
      if keep(last) {
        assert [last][..0] == [];
      }
    }
  }

  /** A selection and its complement together hold every player of the roster once. */
  lemma {:induction false} FilterSplit(s: seq<Player>, keep: Player -> bool, drop: Player -> bool)
    requires forall x :: drop(x) == !keep(x)
    ensures multiset(Filter(s, keep)) + multiset(Filter(s, drop)) == multiset(s)
    decreases |s|
  {
    if s != [] {
      FilterSplit(s[..|s| - 1], keep, drop);
      assert s == s[..|s| - 1] + [s[|s| - 1]];
    }
  }

  /** How often a player occurs in a selection: as often as in the roster if selected, else never. */
  lemma {:induction false} FilterCount(s: seq<Player>, keep: Player -> bool, x: Player)
    ensures multiset(Filter(s, keep))[x] == if keep(x) then multiset(s)[x] else 0
    decreases |s|
  {
    if s != [] {
      FilterCount(s[..|s| - 1], keep, x);
      assert s == s[..|s| - 1] + [s[|s| - 1]];
    }
  }

  /** Rosters holding the same players in any order give selections of the same size. */
  lemma FilterPermutation(a: seq<Player>, b: seq<Player>, keep: Player -> bool)
    requires multiset(a) == multiset(b)
    ensures |Filter(a, keep)| == |Filter(b, keep)|
  {
    forall x
      ensures multiset(Filter(a, keep))[x] == multiset(Filter(b, keep))[x]
    {
      FilterCount(a, keep, x);
      FilterCount(b, keep, x);
    }
    assert multiset(Filter(a, keep)) == multiset(Filter(b, keep));
    assert |Filter(a, keep)| == |multiset(Filter(a, keep))|;
  }

  predicate IsStarter(p: Player) { p.starter }

  predicate IsReserve(p: Player) { !p.starter }

  function Starters(s: seq<Player>): seq<Player> { Filter(s, IsStarter) }

  function Reserves(s: seq<Player>): seq<Player> { Filter(s, IsReserve) }

  /** `starters` and `reserves` split the roster: disjoint, and together every player once. */
  lemma StartersReservesPartition(s: seq<Player>)
    ensures multiset(Starters(s)) + multiset(Reserves(s)) == multiset(s)
    ensures forall x :: x in Starters(s) ==> x.starter
    ensures forall x :: x in Reserves(s) ==> !x.starter
  {
    FilterSplit(s, IsStarter, IsReserve);
    FilterMembers(s, IsStarter);
    FilterMembers(s, IsReserve);
  }

  predicate AtRiskStatus(p: Player) { BenchedOrOut(p.statuses) || Uncertain(p.statuses) }

  predicate AtRiskStarter(p: Player) { p.starter && AtRiskStatus(p) }

  /** `get_starters_at_risk_not_playing_in_gameweek`: the starters that may not play. */
  function AtRisk(s: seq<Player>): seq<Player> { Filter(Starters(s), AtRiskStatus) }

  /** The at-risk list is exactly the flagged starters, in roster order. */
  lemma AtRiskExactly(s: seq<Player>)
    ensures AtRisk(s) == Filter(s, AtRiskStarter)
    ensures forall x :: x in AtRisk(s) <==> x in s && x.starter && (BenchedOrOut(x.statuses) || Uncertain(x.statuses))
  {
    FilterTwice(s, IsStarter, AtRiskStatus, AtRiskStarter);
    FilterMembers(s, AtRiskStarter);
  }

  predicate Playable(p: Player) { ExpectedToPlay(p.statuses) || Starting(p.statuses) }

  predicate PlayableUnlocked(p: Player) { Playable(p) && !p.locked }

  predicate PlayableUnlockedReserve(p: Player) { !p.starter && PlayableUnlocked(p) }

  /**
   * `get_reserves_starting_or_expected_to_play`; the team-manager copies also
   * drop locked reserves, the lineup-manager copy does not (`skipLocked`).
   */
  function PlayableReserves(s: seq<Player>, skipLocked: bool): seq<Player>
  {
    if skipLocked then Filter(Reserves(s), PlayableUnlocked) else Filter(Reserves(s), Playable)
  }

  /** Exactly the reserves flagged starting or expected (and unlocked when asked), in roster order. */
  lemma PlayableReservesExactly(s: seq<Player>, skipLocked: bool)
    ensures skipLocked ==> PlayableReserves(s, skipLocked) == Filter(s, PlayableUnlockedReserve)
    ensures forall x :: x in PlayableReserves(s, skipLocked) <==>
      x in s && !x.starter && (ExpectedToPlay(x.statuses) || Starting(x.statuses)) && (skipLocked ==> !x.locked)
  {
    FilterMembers(s, IsReserve);
    FilterMembers(Reserves(s), PlayableUnlocked);
    FilterMembers(Reserves(s), Playable);
    if skipLocked {
      FilterTwice(s, IsReserve, PlayableUnlocked, PlayableUnlockedReserve);
    }
  }

  // ---------------------------------------------------------------------
  // Starter counts per position

  datatype Counts = Counts(g: int, d: int, m: int, f: int)
  {
    function Get(p: Position): int
    {
      match p
      case G => g
      case D => d
      case M => m
      case F => f
    }

    function Add(p: Position, delta: int): (c: Counts)
      ensures c.Get(p) == Get(p) + delta
      ensures forall q :: q != p ==> c.Get(q) == Get(q)
    {
      match p
      case G => this.(g := g + delta)
      case D => this.(d := d + delta)
      case M => this.(m := m + delta)
      case F => this.(f := f + delta)
    }

    function Total(): int { g + d + m + f }
  }

  const NO_STARTERS: Counts := Counts(0, 0, 0, 0)

  /** The number of starters at each position. */
  function StarterCounts(s: seq<Player>): Counts
  {
    if s == [] then NO_STARTERS
    else
      var c := StarterCounts(s[..|s| - 1]);
      if s[|s| - 1].starter then c.Add(s[|s| - 1].position, 1) else c
  }

  function StarterAt(p: Position): Player -> bool
  {
    (x: Player) => x.starter && x.position == p
  }

  function ReserveAt(p: Position): Player -> bool
  {
    (x: Player) => !x.starter && x.position == p
  }

  function HasShortName(name: string): Player -> bool
  {
    (x: Player) => ShortName(x.position) == name
  }

  function StartersAt(s: seq<Player>, p: Position): seq<Player>
  {
    Filter(s, StarterAt(p))
  }

  /**
   * The count of a position is the number of starters there, and the counts
   * add up to the number of starters.
   */
  lemma {:induction false} StarterCountsByPosition(s: seq<Player>, p: Position)
    ensures StarterCounts(s).Get(p) == |StartersAt(s, p)|
    ensures StarterCounts(s).Total() == |Starters(s)|
    decreases |s|
  {
    if s != [] {
      StarterCountsByPosition(s[..|s| - 1], p);
    }
  }

  /** The starter counts depend only on which players the roster holds, not on their order. */
  lemma CountsPermutation(a: seq<Player>, b: seq<Player>)
    requires multiset(a) == multiset(b)
    ensures StarterCounts(a) == StarterCounts(b)
  {
    forall p: Position
      ensures StarterCounts(a).Get(p) == StarterCounts(b).Get(p)
    {
      StarterCountsByPosition(a, p);
      StarterCountsByPosition(b, p);
      FilterPermutation(a, b, StarterAt(p));
    }
    assert StarterCounts(a).Get(G) == StarterCounts(b).Get(G);
    assert StarterCounts(a).Get(D) == StarterCounts(b).Get(D);
    assert StarterCounts(a).Get(M) == StarterCounts(b).Get(M);
    assert StarterCounts(a).Get(F) == StarterCounts(b).Get(F);
  }

  // ---------------------------------------------------------------------
  // The substitution validator

  /** `(True, None)` or `(False, reason)`. */
  datatype Verdict = Accept | Reject(reason: string)

  function LockedReason(p: Player): string
  {
    "Player " + p.name + " is disabled from lineup changes"
  }

  /** Moving a starter to the bench removes one at its position, promoting a reserve adds one. */
  function Toggle(c: Counts, p: Player): Counts
  {
    c.Add(p.position, if p.starter then -1 else 1)
  }

  /** The limits, checked in the source's order; the first broken one gives the reason. */
  function CheckCounts(c: Counts, relaxMinimums: bool): Verdict
  {
    if c.Total() > MAX_STARTERS then Reject("Must have at most 11 starters")
    else if !relaxMinimums && c.d < MIN_DEFENDERS then Reject("Must have at least 3 Defenders")
    else if !relaxMinimums && c.m < MIN_MIDFIELDERS then Reject("Must have at least 3 Midfielders")
    else if !relaxMinimums && c.f < MIN_FORWARDS then Reject("Must have at least 1 Forward")
    else if c.g > MAX_GOALKEEPERS then Reject("Must have at most 1 Goalkeeper")
    else if c.d > MAX_DEFENDERS then Reject("Must have at most 5 Defenders")
    else if c.m > MAX_MIDFIELDERS then Reject("Must have at most 5 Midfielders")
    else if c.f > MAX_FORWARDS then Reject("Must have at most 3 Forwards")
    else Accept
  }

  /** The walk over the proposed players: the first locked one stops it, the others toggle the counts. */
  function SwapVerdict(c: Counts, swaps: seq<Player>, relaxMinimums: bool): Verdict
    decreases |swaps|
  {
    if swaps == [] then CheckCounts(c, relaxMinimums)
    else if swaps[0].locked then Reject(LockedReason(swaps[0]))
    else SwapVerdict(Toggle(c, swaps[0]), swaps[1..], relaxMinimums)
  }

  /** `valid_substitutions(swaps, relaxMinimums)` on the roster `s`. */
  function SubstitutionVerdict(s: seq<Player>, swaps: seq<Player>, relaxMinimums: bool): Verdict
  {
    SwapVerdict(StarterCounts(s), swaps, relaxMinimums)
  }

  /** Within the caps: the conditions every relaxed acceptance guarantees. */
  predicate WithinCaps(c: Counts)
  {
    c.Total() <= MAX_STARTERS && c.g <= MAX_GOALKEEPERS && c.d <= MAX_DEFENDERS
    && c.m <= MAX_MIDFIELDERS && c.f <= MAX_FORWARDS
  }

  predicate MeetsMinimums(c: Counts)
  {
    c.d >= MIN_DEFENDERS && c.m >= MIN_MIDFIELDERS && c.f >= MIN_FORWARDS
  }

  /**
   * The counts pass exactly when they are within the caps and, unless
   * relaxed, meet the minimums; there is no goalkeeper minimum.
   */
  lemma CheckCountsAccepts(c: Counts, relaxMinimums: bool)
    ensures CheckCounts(c, relaxMinimums) == Accept <==> WithinCaps(c) && (relaxMinimums || MeetsMinimums(c))
    ensures c.g >= 0 && CheckCounts(c, relaxMinimums) == Accept ==> CheckCounts(c.(g := 0), relaxMinimums) == Accept
  {
  }

  /**
   * Relaxing switches off the minimum checks and nothing else: the verdicts
   * differ only where the strict check fails on a minimum, and a total or
   * maximum failure is reported the same way in both modes.
   */
  lemma RelaxSkipsOnlyMinimums(c: Counts)
    ensures CheckCounts(c, true) != CheckCounts(c, false) ==>
      CheckCounts(c, false).Reject? && !MeetsMinimums(c) && c.Total() <= MAX_STARTERS
    ensures CheckCounts(c, true).Reject? ==> CheckCounts(c, false).Reject?
    ensures MeetsMinimums(c) ==> CheckCounts(c, true) == CheckCounts(c, false)
  {
  }

  /** The counts after toggling every proposed player, in order. */
  function ToggleAll(c: Counts, swaps: seq<Player>): Counts
    decreases |swaps|
  {
    if swaps == [] then c else ToggleAll(Toggle(c, swaps[0]), swaps[1..])
  }

  /**
   * With a locked player in the list the verdict is the locked-player
   * rejection for the first one in list order, whatever the counts.
   */
  lemma {:induction false} FirstLockedRejects(c: Counts, swaps: seq<Player>, relaxMinimums: bool, k: nat)
    requires k < |swaps| && swaps[k].locked
    requires forall j :: 0 <= j < k ==> !swaps[j].locked
    ensures SwapVerdict(c, swaps, relaxMinimums) == Reject(LockedReason(swaps[k]))
    decreases k
  {
    if k > 0 {
      FirstLockedRejects(Toggle(c, swaps[0]), swaps[1..], relaxMinimums, k - 1);
    }
  }

  /** Without a locked player the verdict is the limit check on the counts after every toggle. */
  lemma {:induction false} UnlockedSwapVerdict(c: Counts, swaps: seq<Player>, relaxMinimums: bool)
    requires forall j :: 0 <= j < |swaps| ==> !swaps[j].locked
    ensures SwapVerdict(c, swaps, relaxMinimums) == CheckCounts(ToggleAll(c, swaps), relaxMinimums)
    decreases |swaps|
  {
    if swaps != [] {
      UnlockedSwapVerdict(Toggle(c, swaps[0]), swaps[1..], relaxMinimums);
    }
  }

  lemma FilterSingle(a: Player, keep: Player -> bool)
    ensures Filter([a], keep) == if keep(a) then [a] else []
  {
    assert [a][..0] == [];
  }

  /**
   * After the toggles each position's count has moved by the number of
   * listed reserves there minus the number of listed starters there.
   */
  lemma {:induction false} ToggleAllAt(c: Counts, swaps: seq<Player>, p: Position)
    ensures ToggleAll(c, swaps).Get(p) == c.Get(p) + |Filter(swaps, ReserveAt(p))| - |Filter(swaps, StarterAt(p))|
    decreases |swaps|
  {
    if swaps != [] {
      var a, rest := swaps[0], swaps[1..];
      assert ToggleAll(c, swaps) == ToggleAll(Toggle(c, a), rest);
      ToggleAllAt(Toggle(c, a), rest, p);
      assert swaps == [a] + rest;
      FilterAppend([a], rest, ReserveAt(p));
      FilterAppend([a], rest, StarterAt(p));
      ToggleAt(c, a, p);
    }
  }

  /** One toggle moves a position's count by the player's one-element selections. */
  lemma ToggleAt(c: Counts, a: Player, p: Position)
    ensures Toggle(c, a).Get(p) == c.Get(p) + |Filter([a], ReserveAt(p))| - |Filter([a], StarterAt(p))|
  {
    FilterSingle(a, ReserveAt(p));
    FilterSingle(a, StarterAt(p));
  }

  /**
   * Proposing one unlocked player asks about the roster with that player's
   * starter flag flipped: the counts are that roster's starter counts.
   */
  lemma AddCommutes(c: Counts, p: Position, x: int, q: Position, y: int)
    ensures c.Add(p, x).Add(q, y) == c.Add(q, y).Add(p, x)
  {
    assert c.Add(p, x).Add(q, y).Get(G) == c.Add(q, y).Add(p, x).Get(G);
    assert c.Add(p, x).Add(q, y).Get(D) == c.Add(q, y).Add(p, x).Get(D);
    assert c.Add(p, x).Add(q, y).Get(M) == c.Add(q, y).Add(p, x).Get(M);
    assert c.Add(p, x).Add(q, y).Get(F) == c.Add(q, y).Add(p, x).Get(F);
  }

  /** Counts that agree at every position are equal. */
  lemma CountsExt(a: Counts, b: Counts)
    requires a.Get(G) == b.Get(G) && a.Get(D) == b.Get(D) && a.Get(M) == b.Get(M) && a.Get(F) == b.Get(F)
    ensures a == b
  {
  }

  /** The counts of a roster with one more player at the end. */
  lemma CountsLast(init: seq<Player>, last: Player)
    ensures StarterCounts(init + [last]) == if last.starter then StarterCounts(init).Add(last.position, 1) else StarterCounts(init)
  {
    assert (init + [last])[..|init|] == init;
  }

  lemma {:induction false} ToggleIsFlip(s: seq<Player>, i: nat)
    requires i < |s|
    ensures Toggle(StarterCounts(s), s[i]) == StarterCounts(s[i := s[i].(starter := !s[i].starter)])
    decreases |s|
  {
    var init, last := s[..|s| - 1], s[|s| - 1];
    var flipped := s[i].(starter := !s[i].starter);
    var t := s[i := flipped];
    assert s == init + [last];
    CountsLast(init, last);
    var c := StarterCounts(init);
    if i < |s| - 1 {
      var ti := init[i := flipped];
      assert t == ti + [last];
      ToggleIsFlip(init, i);
      CountsLast(ti, last);
      if last.starter {
        AddCommutes(c, last.position, 1, s[i].position, if s[i].starter then -1 else 1);
      }
    } else {
      assert t == init + [flipped];
      CountsLast(init, flipped);
      var p := last.position;
      if last.starter {
        CountsExt(c.Add(p, 1).Add(p, -1), c);
      }
    }
  }


  /**
   * `valid_substitutions`: counts the current starters per position, walks
   * the proposed players (stopping at a locked one) and checks the limits.
   * It only reads the roster.
   */
  method ValidSubstitutions(s: seq<Player>, swaps: seq<Player>, relaxMinimums: bool) returns (v: Verdict)
    ensures v == SubstitutionVerdict(s, swaps, relaxMinimums)
  {
    var counts := NO_STARTERS;
    var i := 0;
    while i < |s|
      invariant 0 <= i <= |s|
      invariant counts == StarterCounts(s[..i])
    {
      assert s[..i + 1][..i] == s[..i];
      if s[i].starter {
        counts := counts.Add(s[i].position, 1);
      }
      i := i + 1;
    }
    assert s[..|s|] == s;
    var j := 0;
    while j < |swaps|
      invariant 0 <= j <= |swaps|
      invariant SwapVerdict(counts, swaps[j..], relaxMinimums) == SubstitutionVerdict(s, swaps, relaxMinimums)
    {
      if swaps[j].locked {
        return Reject(LockedReason(swaps[j]));
      }
      counts := Toggle(counts, swaps[j]);
      assert swaps[j..][1..] == swaps[j + 1..];
      j := j + 1;
    }
    v := CheckCounts(counts, relaxMinimums);
  }

  // ---------------------------------------------------------------------
  // Starters by position

  lemma ShortNameInjective(p: Position, q: Position)
    ensures ShortName(p) == ShortName(q) <==> p == q
  {
    if p != q {
      assert ShortName(p)[0] != ShortName(q)[0];
    }
  }

  /** `get_starters_by_position_short_name`: an unknown short name raises. */
  function StartersByShortName(s: seq<Player>, name: string): (r: Result<seq<Player>>)
    ensures r.Err? <==> name !in {"G", "D", "M", "F"}
    ensures r.Ok? ==> forall x :: x in r.value <==> x in s && x.starter && ShortName(x.position) == name
  {
    if name !in {"G", "D", "M", "F"} then Err("Invalid position: " + name)
    else
      FilterMembers(s, IsStarter);
      FilterMembers(Starters(s), HasShortName(name));
      Ok(Filter(Starters(s), HasShortName(name)))
  }

  /** For a valid short name the list has exactly as many players as that position's starter count. */
  lemma StartersByShortNameCount(s: seq<Player>, p: Position)
    ensures StartersByShortName(s, ShortName(p)) == Ok(StartersAt(s, p))
    ensures |StartersByShortName(s, ShortName(p)).value| == StarterCounts(s).Get(p)
  {
    forall x: Player
      ensures StarterAt(p)(x) == (IsStarter(x) && HasShortName(ShortName(p))(x))
    {
      ShortNameInjective(x.position, p);
    }
    FilterTwice(s, IsStarter, HasShortName(ShortName(p)), StarterAt(p));
    StarterCountsByPosition(s, p);
  }
}
