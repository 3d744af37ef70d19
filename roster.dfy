/**
 * Rosters: the roster object whose player list the sort, the reset and the
 * promotion walk change in place.
 */
module Rosters {
  import opened Wrappers
  import opened Players
  import opened LineupRules
  import opened TieredSort
  import opened Optimizer

  /** The first position in the roster of a player with the id, if any. */
  function IndexOfId(s: seq<Player>, id: string): (r: Option<nat>)
    ensures r.Some? ==>
      && r.value < |s| && s[r.value].id == id
      && forall j :: 0 <= j < r.value ==> s[j].id != id
    ensures r.None? ==> forall j :: 0 <= j < |s| ==> s[j].id != id
  {
    if s == [] then None
    else if s[0].id == id then Some(0)
    else
      match IndexOfId(s[1..], id)
      case None => None
      case Some(k) => Some(k + 1)
  }

  function NotFound(id: string): string
  {
    "Player not found: " + id
  }

  /** An ordered list of players, changed in place by the lineup operations. */
  class Roster {
    var players: seq<Player>

    constructor (players: seq<Player>)
      ensures this.players == players
    {
      this.players := players;
    }

    /** `get_roster_player` / `get_player`: the first player with the id, else an error. */
    method GetPlayer(id: string) returns (r: Result<Player>)
      ensures IndexOfId(players, id).Some? ==> r == Ok(players[IndexOfId(players, id).value])
      ensures IndexOfId(players, id).None? ==> r == Err(NotFound(id))
    {
      var i := 0;
      while i < |players|
        invariant 0 <= i <= |players|
        invariant forall j :: 0 <= j < i ==> players[j].id != id
      {
        if players[i].id == id {
          return Ok(players[i]);
        }
        i := i + 1;
      }
      return Err(NotFound(id));
    }

    /**
     * `sort_players_by_gameweek_status_and_fantasy_value`: one pass splits
     * the players into the three tiers, each tier is sorted by value (highest
     * first, stable) and the list is replaced by their concatenation.
     */
    method SortPlayers(prec: Precedence)
      modifies this
      ensures players == TieredOrder(old(players), prec)
    {
      var s := players;
      var playing, uncertain, out := [], [], [];
      var i := 0;
      while i < |s|
        invariant 0 <= i <= |s|
        invariant playing == Filter(s[..i], InTier(1, prec))
        invariant uncertain == Filter(s[..i], InTier(2, prec))
        invariant out == Filter(s[..i], InTier(3, prec))
      {
        var p := s[i];
        assert s[..i + 1] == s[..i] + [p];
        FilterLast(s[..i], p, prec, 1);
        FilterLast(s[..i], p, prec, 2);
        FilterLast(s[..i], p, prec, 3);
        var tier := Tier(p, prec);
        if tier == 1 {
          playing := playing + [p];
        } else if tier == 2 {
          uncertain := uncertain + [p];
        } else {
          out := out + [p];
        }
        i := i + 1;
      }
      assert s[..|s|] == s;
      players := SortByValue(playing, true) + SortByValue(uncertain, true) + SortByValue(out, true);
    }

    /** Every unlocked player is changed to reserve; locked players are skipped. */
    method ResetLineup()
      modifies this
      ensures players == Reset(old(players))
    {
      var i := 0;
      while i < |players|
        invariant 0 <= i <= |players| == |old(players)|
        invariant forall j :: 0 <= j < i ==> players[j] == ResetPlayer(old(players)[j])
        invariant forall j :: i <= j < |players| ==> players[j] == old(players)[j]
      {
        if !players[i].locked {
          players := players[i := players[i].(starter := false)];
        }
        i := i + 1;
      }
    }

    /**
     * The promotion walk: each unlocked player in list order is changed to
     * starter when the validator, with minimums relaxed, accepts proposing it.
     */
    method PromoteWalk()
      modifies this
      ensures players == Walk(old(players))
    {
      var i := 0;
      while i < |players|
        invariant |players| == |old(players)|
        invariant 0 <= i <= |players|
        invariant players == WalkUpTo(old(players), i)
      {
        if !players[i].locked {
          var verdict := ValidSubstitutions(players, [players[i]], true);
          if verdict == Accept {
            players := players[i := players[i].(starter := true)];
          }
        }
        i := i + 1;
      }
    }

    /** `optimize_lineup`: sort, reset, promote. */
    method OptimizeLineup(prec: Precedence)
      modifies this
      ensures players == Optimized(old(players), prec)
    {
      SortPlayers(prec);
      ResetLineup();
      PromoteWalk();
    }
  }

  /**
   * `run` of the roster manager: every cycle refreshes the roster from the
   * server (the `fetched` rosters, one per cycle) and optimizes it with the
   * playing-first tiers.  With `runOnce` exactly one cycle runs and the
   * method returns; otherwise the loop only stops from outside, so the
   * model follows it through as many cycles as `fetched` holds.  At least
   * the first refresh is answered.
   */
  method Run(roster: Roster, runOnce: bool, fetched: seq<seq<Player>>) returns (cycles: nat)
    requires fetched != []
    modifies roster
    ensures cycles == if runOnce then 1 else |fetched|
    ensures 1 <= cycles <= |fetched|
    ensures roster.players == Optimized(fetched[cycles - 1], PlayingFirst)
  {
    if runOnce {
      roster.players := fetched[0];
      roster.OptimizeLineup(PlayingFirst);
      return 1;
    }
    cycles := 0;
    while cycles < |fetched|
      invariant 0 <= cycles <= |fetched|
      invariant cycles > 0 ==> roster.players == Optimized(fetched[cycles - 1], PlayingFirst)
    {
      roster.players := fetched[cycles];
      roster.OptimizeLineup(PlayingFirst);
      cycles := cycles + 1;
    }
  }
}
