/**
 * LineupOptimizer: the service-level `optimize_lineup`.  Each player's
 * gameweek value is recomputed (with the first odds record covering its
 * game, if any), then the roster is rebuilt with the uncertain-first tiers.
 */
module LineupOptimizer {
  import opened Wrappers
  import opened Players
  import opened TieredSort
  import opened Optimizer
  import opened ValueCalculator
  import opened Fixtures
  import opened Rosters

  /** The calculator's value for the player, with the odds record found for its game. */
  function PlayerValue(p: Player, table: LeagueTable, odds: seq<BookingOdds>): Result<real>
  {
    GameweekValue(p, table, OddsFor(odds, p.team, p.opponent))
  }

  /** The new value replaces the old one: it does not depend on it, nor on the starter flag. */
  lemma ValueOverwritten(p: Player, x: real, b: bool, table: LeagueTable, odds: seq<BookingOdds>)
    ensures PlayerValue(p.(value := x), table, odds) == PlayerValue(p, table, odds)
    ensures PlayerValue(p.(starter := b), table, odds) == PlayerValue(p, table, odds)
  {
    GameweekValueFields(p.(value := x), p, table, OddsFor(odds, p.team, p.opponent));
    GameweekValueFields(p.(starter := b), p, table, OddsFor(odds, p.team, p.opponent));
  }

  predicate AllValued(s: seq<Player>, table: LeagueTable, odds: seq<BookingOdds>)
  {
    forall i :: 0 <= i < |s| ==> PlayerValue(s[i], table, odds).Ok?
  }

  /** The roster with every player's value overwritten by the calculator's. */
  function Revalued(s: seq<Player>, table: LeagueTable, odds: seq<BookingOdds>): (r: seq<Player>)
    requires AllValued(s, table, odds)
    ensures |r| == |s|
  {
    seq(|s|, i requires 0 <= i < |s| => s[i].(value := PlayerValue(s[i], table, odds).value))
  }

  /** The calculator fails on player `k`, with error `e`, and on none before it. */
  predicate FirstFailure(s: seq<Player>, table: LeagueTable, odds: seq<BookingOdds>, k: int, e: string)
  {
    && 0 <= k < |s|
    && PlayerValue(s[k], table, odds) == Err(e)
    && forall j :: 0 <= j < k ==> PlayerValue(s[j], table, odds).Ok?
  }

  /** `y` is `x` carrying the calculator's value for `x`. */
  predicate HasValue(x: Player, y: Player, table: LeagueTable, odds: seq<BookingOdds>)
  {
    PlayerValue(x, table, odds).Ok? && y == x.(value := PlayerValue(x, table, odds).value)
  }

  /**
   * `t` is `s` with the players before `k` revalued by the calculator and
   * the players from `k` on untouched.
   */
  predicate RevaluedBefore(s: seq<Player>, t: seq<Player>, table: LeagueTable, odds: seq<BookingOdds>, k: int)
  {
    && |t| == |s|
    && (forall j :: 0 <= j < k && j < |s| ==> HasValue(s[j], t[j], table, odds))
    && (forall j :: k <= j < |s| && 0 <= j ==> t[j] == s[j])
  }

  /**
   * `optimize_lineup(roster, table, odds)`: a loop overwrites each player's
   * value; an error from the calculator stops it there, with the earlier
   * players already revalued and nothing sorted.  Otherwise the roster is
   * sorted (uncertain first), reset and walked.
   */
  method OptimizeWithValues(roster: Roster, table: LeagueTable, odds: seq<BookingOdds>) returns (error: Option<string>)
    modifies roster
    ensures error.None? <==> AllValued(old(roster.players), table, odds)
    ensures error.None? ==>
      roster.players == Optimized(Revalued(old(roster.players), table, odds), UncertainFirst)
    ensures error.Some? ==>
      exists k :: FirstFailure(old(roster.players), table, odds, k, error.value)
        && RevaluedBefore(old(roster.players), roster.players, table, odds, k)
  {
    var players;
    players, error := RevalueEach(roster.players, table, odds);
    roster.players := players;
    if error.None? {
      roster.OptimizeLineup(UncertainFirst);
    }
  }

  /** The calculator's value for one player, with the first odds record found for its game. */
  method ValuePlayer(p: Player, table: LeagueTable, odds: seq<BookingOdds>) returns (value: Result<real>)
    ensures value == PlayerValue(p, table, odds)
  {
    var found := FindOdds(odds, p.team, p.opponent);
    value := GameweekValue(p, table, found);
  }

  /**
   * The revaluation loop: each player's value is overwritten in turn; the
   * first error stops it, with the players before it already revalued.
   */
  method RevalueEach(s: seq<Player>, table: LeagueTable, odds: seq<BookingOdds>) returns (players: seq<Player>, error: Option<string>)
    ensures error.None? <==> AllValued(s, table, odds)
    ensures error.None? ==> players == Revalued(s, table, odds)
    ensures error.Some? ==>
      exists k :: FirstFailure(s, table, odds, k, error.value) && RevaluedBefore(s, players, table, odds, k)
  {
    players := s;
    var i := 0;
    while i < |players|
      invariant 0 <= i <= |players| == |s|
      invariant forall j :: 0 <= j < i ==> HasValue(s[j], players[j], table, odds)
      invariant forall j :: i <= j < |players| ==> players[j] == s[j]
    {
      var p := players[i];
      var value := ValuePlayer(p, table, odds);
      if value.Err? {
        assert FirstFailure(s, table, odds, i, value.error) && RevaluedBefore(s, players, table, odds, i);
        return players, Some(value.error);
      }
      players := players[i := p.(value := value.value)];
      i := i + 1;
    }
    assert players == Revalued(s, table, odds);
    error := None;
  }

  /** Does the player already carry the value the calculator gives it? */
  predicate HasOwnValue(p: Player, table: LeagueTable, odds: seq<BookingOdds>)
  {
    PlayerValue(p, table, odds).Ok? && PlayerValue(p, table, odds).value == p.value
  }

  lemma RevaluedHasOwnValues(s: seq<Player>, table: LeagueTable, odds: seq<BookingOdds>)
    requires AllValued(s, table, odds)
    ensures forall y :: y in Revalued(s, table, odds) ==> HasOwnValue(y, table, odds)
  {
    forall y | y in Revalued(s, table, odds)
      ensures HasOwnValue(y, table, odds)
    {
      var i :| 0 <= i < |s| && Revalued(s, table, odds)[i] == y;
      ValueOverwritten(s[i], PlayerValue(s[i], table, odds).value, true, table, odds);
    }
  }

  /** Every player of the rebuilt roster is a player of the input with at most its starter flag changed. */
  lemma OptimizedMembers(s: seq<Player>, prec: Precedence, j: nat)
    requires j < |Optimized(s, prec)|
    ensures exists y :: y in s && Optimized(s, prec)[j] == y.(starter := Optimized(s, prec)[j].starter)
  {
    var t := TieredOrder(s, prec);
    var o := Optimized(s, prec)[j];
    TieredOrderPermutation(s, prec);
    assert |t| == |multiset(t)| == |s|;
    OptimizedDecision(s, prec, j);
    FlagOnly(o, t[j]);
    assert t[j] in multiset(s);
  }

  /** Two players equal up to the starter flag. */
  lemma FlagOnly(o: Player, y: Player)
    requires o.(starter := y.starter) == y
    ensures o == y.(starter := o.starter)
  {
  }

  /** A roster whose players already carry their own values is left alone by the revaluation. */
  lemma RevaluedFixed(s: seq<Player>, table: LeagueTable, odds: seq<BookingOdds>)
    requires forall i :: 0 <= i < |s| ==> HasOwnValue(s[i], table, odds)
    ensures AllValued(s, table, odds)
    ensures Revalued(s, table, odds) == s
  {
  }

  /**
   * Running the service twice on unchanged inputs gives the same roster:
   * the values are recomputed to the same numbers, the sorted order is kept,
   * and the reset erases the earlier choices before the walk repeats them.
   */
  lemma OptimizeTwice(s: seq<Player>, table: LeagueTable, odds: seq<BookingOdds>)
    requires AllValued(s, table, odds)
    ensures AllValued(Optimized(Revalued(s, table, odds), UncertainFirst), table, odds)
    ensures Optimized(Revalued(Optimized(Revalued(s, table, odds), UncertainFirst), table, odds), UncertainFirst)
      == Optimized(Revalued(s, table, odds), UncertainFirst)
  {
    var v := Revalued(s, table, odds);
    var w := Optimized(v, UncertainFirst);
    RevaluedHasOwnValues(s, table, odds);
    forall j | 0 <= j < |w|
      ensures HasOwnValue(w[j], table, odds)
    {
      OptimizedMembers(v, UncertainFirst, j);
      var y :| y in v && w[j] == y.(starter := w[j].starter);
      ValueOverwritten(y, y.value, w[j].starter, table, odds);
    }
    RevaluedFixed(w, table, odds);
    OptimizedIdempotent(v, UncertainFirst);
  }
}
