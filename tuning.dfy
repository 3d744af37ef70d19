/**
 * Tuning: the best lineup a past gameweek actually allowed, the yardstick
 * for the value calculator's parameters.  Every player of a copy of the
 * roster is unlocked and valued at the points it scored that gameweek; the
 * copy is then benched entirely and walked once with the relaxed validator.
 */
module Tuning {
  import opened Wrappers
  import opened Players
  import opened LineupRules
  import opened TieredSort
  import opened Optimizer
  import opened Rosters

  /** Python's `xs[i]`: a negative index counts from the end; one out of range raises. */
  function PyIndex(xs: seq<real>, i: int): (r: Option<real>)
    ensures r.Some? <==> -|xs| <= i < |xs|
    ensures r.Some? ==> r.value in xs
  {
    if 0 <= i < |xs| then Some(xs[i])
    else if -|xs| <= i < 0 then Some(xs[|xs| + i])
    else None
  }

  /** The points of gameweek `gameweek`, read at index `1 - gameweek` of the player's history. */
  function GameweekPoints(p: Player, gameweek: int): Option<real>
  {
    PyIndex(p.history, 1 - gameweek)
  }

  /**
   * Gameweek 1 reads the first entry of the history; gameweeks 2, 3, ...
   * count back from the last one; a gameweek beyond the history raises.
   */
  lemma GameweekPointsIndex(p: Player, gameweek: int)
    ensures p.history != [] && gameweek == 1 ==> GameweekPoints(p, gameweek) == Some(p.history[0])
    ensures 2 <= gameweek <= |p.history| + 1 ==>
      GameweekPoints(p, gameweek) == Some(p.history[|p.history| + 1 - gameweek])
    ensures gameweek > |p.history| + 1 || gameweek < 2 - |p.history| ==> GameweekPoints(p, gameweek).None?
  {
  }

  const INDEX_ERROR: string := "list index out of range"

  predicate HasPoints(s: seq<Player>, gameweek: int)
  {
    forall i :: 0 <= i < |s| ==> GameweekPoints(s[i], gameweek).Some?
  }

  /** The copy of a player: unlocked and valued at its points for the gameweek. */
  function ForGameweek(p: Player, gameweek: int): Player
    requires GameweekPoints(p, gameweek).Some?
  {
    p.(locked := false, value := GameweekPoints(p, gameweek).value)
  }

  function Prepared(s: seq<Player>, gameweek: int): (r: seq<Player>)
    requires HasPoints(s, gameweek)
    ensures |r| == |s|
  {
    seq(|s|, i requires 0 <= i < |s| => ForGameweek(s[i], gameweek))
  }

  /** Every player changed to reserve, locked or not. */
  function AllReserves(s: seq<Player>): (r: seq<Player>)
    ensures |r| == |s|
  {
    seq(|s|, i requires 0 <= i < |s| => s[i].(starter := false))
  }

  /** `actual_best_lineup_for_gameweek`: the walked copy, or the index error of a missing gameweek. */
  function ActualBest(s: seq<Player>, gameweek: int): Result<seq<Player>>
  {
    if HasPoints(s, gameweek) then Ok(Walk(AllReserves(Prepared(s, gameweek)))) else Err(INDEX_ERROR)
  }

  /** A roster of reserves has no starters at any position. */
  lemma {:induction false} AllReservesCounts(s: seq<Player>)
    ensures StarterCounts(AllReserves(s)) == NO_STARTERS
    decreases |s|
  {
    if s != [] {
      AllReservesCounts(s[..|s| - 1]);
      assert AllReserves(s)[..|s| - 1] == AllReserves(s[..|s| - 1]);
    }
  }

  /**
   * The best lineup keeps each player's identity and fields but for the
   * lock (now off), the value (the gameweek's points) and the starter flag,
   * which is set exactly when the relaxed validator accepted the player at
   * its turn, in the copy's original order.
   */
  lemma ActualBestDecision(s: seq<Player>, gameweek: int, j: nat)
    requires HasPoints(s, gameweek) && j < |s|
    ensures |ActualBest(s, gameweek).value| == |s|
    ensures ActualBest(s, gameweek).value[j] ==
      s[j].(locked := false, value := GameweekPoints(s[j], gameweek).value,
            starter := ActualBest(s, gameweek).value[j].starter)
    ensures ActualBest(s, gameweek).value[j].starter <==>
      SubstitutionVerdict(WalkUpTo(AllReserves(Prepared(s, gameweek)), j),
        [AllReserves(Prepared(s, gameweek))[j]], true) == Accept
  {
    var t := AllReserves(Prepared(s, gameweek));
    WalkOnlyPromotes(t, |t|);
    WalkDecision(t, j);
  }

  /** The best lineup never breaks a cap: the walk starts from no starters at all. */
  lemma ActualBestWithinCaps(s: seq<Player>, gameweek: int)
    requires HasPoints(s, gameweek)
    ensures WithinCaps(StarterCounts(ActualBest(s, gameweek).value))
  {
    var t := AllReserves(Prepared(s, gameweek));
    AllReservesCounts(Prepared(s, gameweek));
    WalkWithinCaps(t);
  }

  /** No reserve of the best lineup could still be promoted. */
  lemma ActualBestMaximal(s: seq<Player>, gameweek: int, j: nat)
    requires HasPoints(s, gameweek) && j < |s|
    requires !ActualBest(s, gameweek).value[j].starter
    ensures SubstitutionVerdict(ActualBest(s, gameweek).value, [ActualBest(s, gameweek).value[j]], true) != Accept
  {
    var t := AllReserves(Prepared(s, gameweek));
    WalkOnlyPromotes(t, |t|);
    assert !Walk(t)[j].locked;
    WalkMaximal(t, j);
  }

  /**
   * `actual_best_lineup_for_gameweek`: the copy is prepared player by
   * player (a missing gameweek raises before anything else happens), the
   * caller's roster, not the copy, is then sorted, and the copy is benched
   * and walked in its original order.
   */
  method ActualBestLineupForGameweek(roster: Roster, gameweek: int) returns (best: Result<seq<Player>>)
    modifies roster
    ensures best == ActualBest(old(roster.players), gameweek)
    ensures best.Ok? ==> roster.players == TieredOrder(old(roster.players), UncertainFirst)
    ensures best.Err? ==> roster.players == old(roster.players)
  {
    var prepared := PrepareForGameweek(roster.players, gameweek);
    if prepared.Err? {
      return Err(prepared.error);
    }
    roster.SortPlayers(UncertainFirst);
    var benched := BenchAll(prepared.value);
    var copy := new Roster(benched);
    copy.PromoteWalk();
    best := Ok(copy.players);
  }

  /**
   * The copy's players in turn are unlocked and given their points for the
   * gameweek; the first player without them raises.
   */
  method PrepareForGameweek(s: seq<Player>, gameweek: int) returns (r: Result<seq<Player>>)
    ensures r == if HasPoints(s, gameweek) then Ok(Prepared(s, gameweek)) else Err(INDEX_ERROR)
  {
    var players := s;
    var i := 0;
    while i < |players|
      invariant 0 <= i <= |players| == |s|
      invariant forall j :: 0 <= j < i ==> GameweekPoints(s[j], gameweek).Some? && players[j] == ForGameweek(s[j], gameweek)
      invariant forall j :: i <= j < |players| ==> players[j] == s[j]
    {
      var p := players[i];
      var points := PyIndex(p.history, 1 - gameweek);
      if points.None? {
        return Err(INDEX_ERROR);
      }
      players := players[i := p.(locked := false, value := points.value)];
      i := i + 1;
    }
    assert players == Prepared(s, gameweek);
    r := Ok(players);
  }

  /** Every player in turn is changed to reserve. */
  method BenchAll(s: seq<Player>) returns (players: seq<Player>)
    ensures players == AllReserves(s)
  {
    players := s;
    var i := 0;
    while i < |players|
      invariant 0 <= i <= |players| == |s|
      invariant forall j :: 0 <= j < i ==> players[j] == s[j].(starter := false)
      invariant forall j :: i <= j < |players| ==> players[j] == s[j]
    {
      players := players[i := players[i].(starter := false)];
      i := i + 1;
    }
  }


  // ---------------------------------------------------------------------
  // Total points

  /** The sum of the values of all players. */
  function ValueSum(s: seq<Player>): real
  {
    if s == [] then 0.0 else ValueSum(s[..|s| - 1]) + s[|s| - 1].value
  }

  /** The accumulator of the total: each starter's value is added, in roster order. */
  function StarterPoints(s: seq<Player>): real
  {
    if s == [] then 0.0
    else StarterPoints(s[..|s| - 1]) + (if s[|s| - 1].starter then s[|s| - 1].value else 0.0)
  }

  /** The accumulated total is the sum of the values over the starters. */
  lemma {:induction false} StarterPointsIsSum(s: seq<Player>)
    ensures StarterPoints(s) == ValueSum(Starters(s))
    decreases |s|
  {
    if s != [] {
      StarterPointsIsSum(s[..|s| - 1]);
      var init, last := s[..|s| - 1], s[|s| - 1];
      if last.starter {
        assert Starters(s) == Starters(init) + [last];
        assert (Starters(init) + [last])[..|Starters(init)|] == Starters(init);
      } else {
        assert Starters(s) == Starters(init);
      }
    }
  }

  /**
   * `actual_best_lineup_total_points_for_gameweek`: the best lineup's
   * starters' values, added up in a loop; a missing gameweek raises.
   */
  method ActualBestLineupTotalPoints(roster: Roster, gameweek: int) returns (total: Result<real>)
    modifies roster
    ensures total.Err? <==> !HasPoints(old(roster.players), gameweek)
    ensures total.Err? ==> total.error == INDEX_ERROR
    ensures total.Ok? ==> total.value == ValueSum(Starters(ActualBest(old(roster.players), gameweek).value))
    ensures roster.players == if total.Ok? then TieredOrder(old(roster.players), UncertainFirst) else old(roster.players)
  {
    var best := ActualBestLineupForGameweek(roster, gameweek);
    if best.Err? {
      return Err(best.error);
    }
    var lineup := best.value;
    var sum := 0.0;
    var i := 0;
    while i < |lineup|
      invariant 0 <= i <= |lineup|
      invariant sum == StarterPoints(lineup[..i])
    {
      assert lineup[..i + 1][..i] == lineup[..i];
      if lineup[i].starter {
        sum := sum + lineup[i].value;
      }
      i := i + 1;
    }
    assert lineup[..|lineup|] == lineup;
    StarterPointsIsSum(lineup);
    total := Ok(sum);
  }
}
