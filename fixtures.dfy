/**
 * Fixtures: the gameweek's matches as seen from the roster, and the lookup
 * of the booking-odds record for a player's next game.
 */
module Fixtures {
  import opened Wrappers
  import opened Players
  import opened ValueCalculator

  // ---------------------------------------------------------------------
  // Odds lookup

  /** Does the record cover the fixture of `team` against `opponent`, whichever side is home? */
  predicate CoversFixture(o: BookingOdds, team: string, opponent: string)
  {
    || (o.homeTeam == Some(opponent) && o.awayTeam == Some(team))
    || (o.awayTeam == Some(opponent) && o.homeTeam == Some(team))
  }

  /** The first record of the list that covers the fixture. */
  function OddsFor(odds: seq<BookingOdds>, team: string, opponent: string): Option<BookingOdds>
  {
    if odds == [] then None
    else if CoversFixture(odds[0], team, opponent) then Some(odds[0])
    else OddsFor(odds[1..], team, opponent)
  }

  /**
   * The lookup finds nothing exactly when no record covers the fixture, and
   * otherwise returns the earliest record that does.
   */
  lemma {:induction false} OddsForFirstMatch(odds: seq<BookingOdds>, team: string, opponent: string)
    ensures OddsFor(odds, team, opponent).None? <==>
      forall i :: 0 <= i < |odds| ==> !CoversFixture(odds[i], team, opponent)
    ensures OddsFor(odds, team, opponent).Some? ==>
      exists k :: 0 <= k < |odds| && odds[k] == OddsFor(odds, team, opponent).value
        && CoversFixture(odds[k], team, opponent)
        && forall i :: 0 <= i < k ==> !CoversFixture(odds[i], team, opponent)
  {
    if odds != [] && !CoversFixture(odds[0], team, opponent) {
      OddsForFirstMatch(odds[1..], team, opponent);
      if OddsFor(odds, team, opponent).Some? {
        var k :| 0 <= k < |odds[1..]| && odds[1..][k] == OddsFor(odds[1..], team, opponent).value
          && CoversFixture(odds[1..][k], team, opponent)
          && forall i :: 0 <= i < k ==> !CoversFixture(odds[1..][i], team, opponent);
        assert odds[k + 1] == odds[1..][k];
        forall i | 0 <= i < k + 1
          ensures !CoversFixture(odds[i], team, opponent)
        {
          if i > 0 {
            assert odds[i] == odds[1..][i - 1];
          }
        }
      } else {
        forall i | 0 <= i < |odds|
          ensures !CoversFixture(odds[i], team, opponent)
        {
          if i > 0 {
            assert odds[i] == odds[1..][i - 1];
          }
        }
      }
    } else if odds != [] {
      assert CoversFixture(odds[0], team, opponent);
    }
  }

  /** The odds record for a player's next game, scanning the list front to back. */
  method FindOdds(odds: seq<BookingOdds>, team: string, opponent: string) returns (r: Option<BookingOdds>)
    ensures r == OddsFor(odds, team, opponent)
  {
    r := None;
    if odds != [] {
      var i := 0;
      while i < |odds|
        invariant 0 <= i <= |odds|
        invariant OddsFor(odds[i..], team, opponent) == OddsFor(odds, team, opponent)
      {
        if CoversFixture(odds[i], team, opponent) {
          r := Some(odds[i]);
          return;
        }
        assert odds[i..][1..] == odds[i + 1..];
        i := i + 1;
      }
    }
  }

  // ---------------------------------------------------------------------
  // Matches of the gameweek

  /**
   * The (home, away) pair of the player's next game.  The player's team is
   * the home side only when the home/away field is exactly "home".
   */
  function MatchOf(p: Player): (string, string)
  {
    if p.homeOrAway == "home" then (p.team, p.opponent) else (p.opponent, p.team)
  }

  /**
   * Two players on opposite sides of the same game, one marked "home" and the
   * other not, name the same match; and a match always pairs the player's
   * team with its opponent.
   */
  lemma MatchOfOpponents(p: Player, q: Player)
    ensures MatchOf(p) in {(p.team, p.opponent), (p.opponent, p.team)}
    ensures p.team == q.opponent && p.opponent == q.team && p.homeOrAway == "home" && q.homeOrAway != "home"
      ==> MatchOf(p) == MatchOf(q)
    ensures p.team != p.opponent && MatchOf(p) == (p.team, p.opponent) ==> p.homeOrAway == "home"
  {
  }

  /** The set of matches of the players whose lineup can still change. */
  method GetMatches(players: seq<Player>) returns (matches: set<(string, string)>)
    ensures forall m :: m in matches <==>
      exists i :: 0 <= i < |players| && !players[i].locked && MatchOf(players[i]) == m
  {
    matches := {};
    var i := 0;
    while i < |players|
      invariant 0 <= i <= |players|
      invariant forall m :: m in matches <==>
        exists j :: 0 <= j < i && !players[j].locked && MatchOf(players[j]) == m
    {
      var p := players[i];
      if !p.locked {
        if p.homeOrAway == "home" {
          matches := matches + {(p.team, p.opponent)};
        } else {
          matches := matches + {(p.opponent, p.team)};
        }
      }
      i := i + 1;
    }
  }
}
