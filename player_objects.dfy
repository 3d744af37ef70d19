/**
 * PlayerObjects: the player objects whose methods change a field in place.
 * The domain roster players hold a starter flag that may be unset; the
 * service-layer player holds Fantrax status and position ids and a small
 * integer value; the domain player accumulates its gameweek value.
 */
module PlayerObjects {
  import opened Wrappers
  import opened Players
  import opened ValueCalculator

  // ---------------------------------------------------------------------
  // Domain roster players (FantasyRosterPlayer, FantraxRosterPlayer)

  /**
   * A roster player of the domain layer.  The starter flag may be unset
   * (None), which reads as a reserve.  No method of this class changes the
   * locked flag; the tuning copy unlocks its players on the record instead
   * (Tuning.PrepareForGameweek).
   */
  class RosterPlayer {
    var starter: Option<bool>
    var position: Option<string>
    const locked: bool

    /** The constructor stores the flag, the position and the lock as given. */
    constructor (starter: Option<bool>, position: Option<string>, locked: bool)
      ensures this.starter == starter && this.position == position && this.locked == locked
    {
      this.starter := starter;
      this.position := position;
      this.locked := locked;
    }

    /** Without a lock argument the player is not locked. */
    constructor Unlocked(starter: Option<bool>, position: Option<string>)
      ensures this.starter == starter && this.position == position && !locked
    {
      this.starter := starter;
      this.position := position;
      this.locked := false;
    }

    /** The flag read as a truth value: only a set True is a starter. */
    predicate IsStarter()
      reads this
    {
      starter == Some(true)
    }

    method ChangeToStarter()
      modifies this
      ensures starter == Some(true) && position == old(position)
    {
      starter := Some(true);
    }

    method ChangeToReserve()
      modifies this
      ensures starter == Some(false) && position == old(position)
    {
      starter := Some(false);
    }

    /** A starter becomes a reserve; anything else, an unset flag included, becomes a starter. */
    method SwapStartingStatus()
      modifies this
      ensures starter == SwappedStarterFlag(old(starter)) && position == old(position)
      ensures IsStarter() == !old(IsStarter())
    {
      if starter == Some(true) {
        ChangeToReserve();
      } else {
        ChangeToStarter();
      }
    }

    /** Swapping twice gives back a flag that was set; an unset one ends as False. */
    method SwapTwice()
      modifies this
      ensures old(starter).Some? ==> starter == old(starter)
      ensures old(starter).None? ==> starter == Some(false)
    {
      SwapStartingStatus();
      SwapStartingStatus();
      SwapStarterFlagTwice(old(starter));
    }
  }

  // ---------------------------------------------------------------------
  // Service-layer players (services FantraxPlayer, FantraxRosterPlayer)

  /**
   * A player as the service layer holds it: its roster status id ("1"
   * starter, "2" reserve), its roster position id (unset after an unknown
   * short name), its icon statuses and a small integer gameweek value.
   */
  class StatusIdPlayer {
    var statusId: string
    var positionId: Option<string>
    var value: int
    const statuses: set<string>

    /**
     * Built from a roster row: the icon statuses keep only known icon ids,
     * the value starts at 0 and then receives the status bonus once.
     */
    constructor (statusId: string, positionId: string, iconTypeIds: seq<string>)
      ensures this.statusId == statusId && this.positionId == Some(positionId)
      ensures statuses == IconStatuses(iconTypeIds)
      ensures value == StatusBonus(statuses)
      ensures 0 <= value <= 3
    {
      this.statusId := statusId;
      this.positionId := Some(positionId);
      this.statuses := IconStatuses(iconTypeIds);
      this.value := 0;
      new;
      UpdateValueForGameweek();
    }

    /** The player is a starter exactly when the status id is the starter id. */
    predicate IsStarter()
      reads this
    {
      IsStarterStatusId(statusId)
    }

    /** The short name of the position id, unset for an unknown id. */
    function PositionShortName(): (r: Option<string>)
      reads this
      ensures r.Some? ==> r.value in {"G", "D", "M", "F"}
    {
      if positionId.None? then None else PositionShortNameOfId(positionId.value)
    }

    /**
     * The id looked up by short name is stored, unset when the name is
     * unknown; for G, D, M and F the short name reads back unchanged.
     */
    method ChangePositionByShortName(name: string)
      modifies this
      ensures positionId == PositionIdOfShortName(name)
      ensures positionId.Some? <==> name in {"G", "D", "M", "F"}
      ensures name in {"G", "D", "M", "F"} ==> PositionShortName() == Some(name)
      ensures statusId == old(statusId) && value == old(value)
    {
      positionId := PositionIdOfShortName(name);
      if positionId.Some? {
        PositionMapsInverse(positionId.value, name);
      } else {
        PositionMapsInverse("704", name);
      }
    }

    method ChangeToStarter()
      modifies this
      ensures statusId == STATUS_ID_STARTER && IsStarter()
      ensures positionId == old(positionId) && value == old(value)
    {
      statusId := STATUS_ID_STARTER;
    }

    method ChangeToReserve()
      modifies this
      ensures statusId == STATUS_ID_RESERVE && !IsStarter()
      ensures positionId == old(positionId) && value == old(value)
    {
      statusId := STATUS_ID_RESERVE;
    }

    /** The starter flag is negated; any id other than the starter id becomes the starter id. */
    method SwapStartingStatus()
      modifies this
      ensures statusId == SwappedStatusId(old(statusId))
      ensures IsStarter() == !old(IsStarter())
      ensures positionId == old(positionId) && value == old(value)
    {
      if IsStarter() {
        ChangeToReserve();
      } else {
        ChangeToStarter();
      }
    }

    /** `update_value_for_gameweek`: adds 3 if starting, else 2 if expected, else 1 if uncertain. */
    method UpdateValueForGameweek()
      modifies this
      ensures value == old(value) + StatusBonus(statuses)
      ensures statusId == old(statusId) && positionId == old(positionId)
    {
      if Starting(statuses) {
        value := value + 3;
      } else if ExpectedToPlay(statuses) {
        value := value + 2;
      } else if Uncertain(statuses) {
        value := value + 1;
      }
    }
  }

  // ---------------------------------------------------------------------
  // Domain players and their gameweek value

  /**
   * A domain player with the inputs of its gameweek value: recent points,
   * team, next opponent and the league table.  Both fantasy values start
   * at 0.
   */
  class FormPlayer {
    var valueForGameweek: real
    var valueForFutureGameweeks: real
    const team: string
    const opponent: string
    const history: seq<real>
    const table: LeagueTable

    constructor (team: string, opponent: string, history: seq<real>, table: LeagueTable)
      ensures valueForGameweek == 0.0 && valueForFutureGameweeks == 0.0
      ensures this.team == team && this.opponent == opponent
      ensures this.history == history && this.table == table
    {
      this.team := team;
      this.opponent := opponent;
      this.history := history;
      this.table := table;
      valueForGameweek := 0.0;
      valueForFutureGameweeks := 0.0;
    }

    /**
     * `_update_fantasy_value_for_gameweek`: the mean of the points, when
     * there are any, is added onto the current value, which is then
     * multiplied by the standings coefficient.  A failed table lookup stops
     * it after the addition.
     */
    method UpdateFantasyValueForGameweek(k: real, a: real) returns (error: Option<string>)
      modifies this
      ensures error.None? <==> StandingsCoefficient(team, opponent, table, k, a).Ok?
      ensures error.Some? ==>
        && error.value == StandingsCoefficient(team, opponent, table, k, a).error
        && valueForGameweek == old(valueForGameweek) + Mean(history)
      ensures error.None? ==>
        valueForGameweek == (old(valueForGameweek) + Mean(history)) * StandingsCoefficient(team, opponent, table, k, a).value
      ensures valueForFutureGameweeks == old(valueForFutureGameweeks)
    {
      if history != [] {
        valueForGameweek := valueForGameweek + Mean(history);
      }
      var coefficient := StandingsCoefficient(team, opponent, table, k, a);
      if coefficient.Err? {
        return Some(coefficient.error);
      }
      valueForGameweek := valueForGameweek * coefficient.value;
      error := None;
    }
  }

  /**
   * The domain update accumulates: it agrees with the calculator's value,
   * which overwrites, only when it starts from 0 or the coefficient is 0.
   */
  lemma AccumulateVersusOverwrite(start: real, history: seq<real>, c: real)
    ensures (start + Mean(history)) * c == Mean(history) * c <==> start == 0.0 || c == 0.0
  {
    assert (start + Mean(history)) * c == start * c + Mean(history) * c;
  }
}
