/**
 * ValueCalculator: the fantasy value of a player for the gameweek, the mean
 * of recent points times a fixture-difficulty coefficient taken either from
 * head-to-head booking odds or from the league standings.
 */
module ValueCalculator {
  import opened Wrappers
  import opened Players

  /** One head-to-head booking-odds record; every field may be missing. */
  datatype BookingOdds = BookingOdds(
    homeTeam: Option<string>,
    awayTeam: Option<string>,
    homePrice: Option<real>,
    awayPrice: Option<real>,
    drawPrice: Option<real>)

  /** The league table: team name to rank (1 is top). */
  type LeagueTable = map<string, int>

  const K_STANDINGS: real := 0.8
  const A_STANDINGS: real := 0.4
  const K_ODDS: real := 0.3

  // ---------------------------------------------------------------------
  // Base value

  function Sum(points: seq<real>): real
  {
    if points == [] then 0.0 else Sum(points[..|points| - 1]) + points[|points| - 1]
  }

  /** The arithmetic mean of the recent points, 0.0 without history. */
  function Mean(points: seq<real>): real
  {
    if points == [] then 0.0 else Sum(points) / (|points| as real)
  }

  lemma {:induction false} SumBounds(points: seq<real>, lo: real, hi: real)
    requires forall i :: 0 <= i < |points| ==> lo <= points[i] <= hi
    ensures lo * (|points| as real) <= Sum(points) <= hi * (|points| as real)
    decreases |points|
  {
    if points != [] {
      SumBounds(points[..|points| - 1], lo, hi);
    }
  }

  /** The mean lies between the smallest and the largest of the points. */
  lemma MeanBounds(points: seq<real>, lo: real, hi: real)
    requires forall i :: 0 <= i < |points| ==> lo <= points[i] <= hi
    ensures points != [] ==> lo <= Mean(points) <= hi
    ensures points == [] ==> Mean(points) == 0.0
  {
    if points != [] {
      SumBounds(points, lo, hi);
      var n := |points| as real;
      assert lo * n <= Sum(points) <= hi * n;
      DivBounds(Sum(points), n, lo, hi);
    }
  }

  lemma DivBounds(total: real, n: real, lo: real, hi: real)
    requires n > 0.0 && lo * n <= total <= hi * n
    ensures lo <= total / n <= hi
  {
  }

  /** Cross-multiplication for positive denominators. */
  lemma FracLt(a: real, b: real, c: real, d: real)
    requires b > 0.0 && d > 0.0 && a * d < c * b
    ensures a / b < c / d
  {
    assert a / b == (a * d) / (b * d);
    assert c / d == (c * b) / (b * d);
  }

  // ---------------------------------------------------------------------
  // Standings coefficient

  function Abs(x: real): real { if x < 0.0 then -x else x }

  /**
   * Stand-in for `math.tanh`: the algebraic sigmoid x / (1 + |x|).  It shares
   * the properties the coefficient relies on: odd, strictly increasing and
   * strictly between -1 and 1 (see TanhBounds, TanhMonotone).
   */
  function Tanh(x: real): real
  {
    x / (1.0 + Abs(x))
  }

  lemma TanhBounds(x: real)
    ensures -1.0 < Tanh(x) < 1.0
    ensures Tanh(-x) == -Tanh(x)
    ensures x > 0.0 ==> Tanh(x) > 0.0
    ensures x == 0.0 ==> Tanh(x) == 0.0
  {
    var d := 1.0 + Abs(x);
    FracLt(x, d, 1.0, 1.0);
    FracLt(-1.0, 1.0, x, d);
  }

  lemma TanhMonotoneNonNeg(x: real, y: real)
    requires 0.0 <= x < y
    ensures Tanh(x) < Tanh(y)
  {
    assert x * (1.0 + y) < y * (1.0 + x);
    FracLt(x, 1.0 + x, y, 1.0 + y);
  }

  /** Strictly increasing on the whole line. */
  lemma TanhMonotone(x: real, y: real)
    requires x < y
    ensures Tanh(x) < Tanh(y)
  {
    TanhBounds(x);
    TanhBounds(y);
    if 0.0 <= x {
      TanhMonotoneNonNeg(x, y);
    } else if y <= 0.0 {
      TanhMonotoneNonNeg(-y, -x);
      TanhBounds(-x);
      TanhBounds(-y);
    } else {
      TanhBounds(-x);
    }
  }

  /** `1 + k * tanh(a * (team_rank - opponent_rank) / (total_teams - 1))`. */
  function StandingsFormula(k: real, a: real, teamRank: int, opponentRank: int, teams: int): real
    requires teams != 1
  {
    1.0 + k * Tanh(a * ((teamRank - opponentRank) as real) / ((teams - 1) as real))
  }

  /**
   * The standings coefficient: a missing team raises first, then a missing
   * opponent; a one-team table divides by zero.
   */
  function StandingsCoefficient(team: string, opponent: string, table: LeagueTable, k: real, a: real): (r: Result<real>)
    ensures r.Err? <==> team !in table || opponent !in table || |table| == 1
    ensures team !in table ==> r == Err("Team " + team + " not found in Premier League team stats")
    ensures team in table && opponent !in table ==> r == Err("Opponent " + opponent + " not found in Premier League team stats")
  {
    if team !in table then Err("Team " + team + " not found in Premier League team stats")
    else if opponent !in table then Err("Opponent " + opponent + " not found in Premier League team stats")
    else if |table| == 1 then Err("float division by zero")
    else Ok(StandingsFormula(k, a, table[team], table[opponent], |table|))
  }

  /** With k > 0 the coefficient lies strictly between 1 - k and 1 + k. */
  lemma StandingsBounds(k: real, a: real, teamRank: int, opponentRank: int, teams: int)
    requires teams != 1 && k > 0.0
    ensures 1.0 - k < StandingsFormula(k, a, teamRank, opponentRank, teams) < 1.0 + k
  {
    var x := a * ((teamRank - opponentRank) as real) / ((teams - 1) as real);
    TanhBounds(x);
    assert k * Tanh(x) < k * 1.0;
    assert k * Tanh(x) > k * -1.0;
  }

  /** For a, k >= 0 and at least two teams the coefficient never decreases as the rank difference grows. */
  lemma StandingsMonotone(k: real, a: real, r1: int, o1: int, r2: int, o2: int, teams: int)
    requires teams >= 2 && k >= 0.0 && a >= 0.0
    requires r1 - o1 <= r2 - o2
    ensures StandingsFormula(k, a, r1, o1, teams) <= StandingsFormula(k, a, r2, o2, teams)
  {
    var n := (teams - 1) as real;
    var x1 := a * ((r1 - o1) as real) / n;
    var x2 := a * ((r2 - o2) as real) / n;
    assert a * ((r1 - o1) as real) <= a * ((r2 - o2) as real);
    assert x1 <= x2;
    if x1 < x2 {
      TanhMonotone(x1, x2);
      assert k * Tanh(x1) <= k * Tanh(x2);
    }
  }

  /**
   * With ranks between 1 and N the coefficient lies in the logged range:
   * from rank 1 against rank N up to rank N against rank 1.
   */
  lemma StandingsRange(k: real, a: real, teamRank: int, opponentRank: int, teams: int)
    requires teams >= 2 && k >= 0.0 && a >= 0.0
    requires 1 <= teamRank <= teams && 1 <= opponentRank <= teams
    ensures StandingsFormula(k, a, 1, teams, teams) <= StandingsFormula(k, a, teamRank, opponentRank, teams)
    ensures StandingsFormula(k, a, teamRank, opponentRank, teams) <= StandingsFormula(k, a, teams, 1, teams)
  {
    StandingsMonotone(k, a, 1, teams, teamRank, opponentRank, teams);
    StandingsMonotone(k, a, teamRank, opponentRank, teams, 1, teams);
  }

  // ---------------------------------------------------------------------
  // Booking-odds coefficient

  function LowerChar(c: char): char
  {
    if 'A' <= c <= 'Z' then (c as int - 'A' as int + 'a' as int) as char else c
  }

  /** ASCII lower-casing, standing in for `str.lower`. */
  function Lower(s: string): (r: string)
    ensures |r| == |s|
    ensures forall i :: 0 <= i < |s| ==> r[i] == LowerChar(s[i])
  {
    if s == [] then [] else [LowerChar(s[0])] + Lower(s[1..])
  }

  /** A character lowers to a given lower-case letter exactly when it is that letter in either case. */
  lemma LowerCharIs(c: char, lower: char, upper: char)
    requires 'a' <= lower <= 'z' && upper as int == lower as int - 32
    ensures LowerChar(c) == lower <==> c == lower || c == upper
  {
  }

  /** The home/away field reads "home" in any mix of cases. */
  lemma LowerIsHome(s: string)
    ensures Lower(s) == "home" <==>
      |s| == 4 && (s[0] == 'h' || s[0] == 'H') && (s[1] == 'o' || s[1] == 'O')
      && (s[2] == 'm' || s[2] == 'M') && (s[3] == 'e' || s[3] == 'E')
  {
    if |s| == 4 {
      LowerCharIs(s[0], 'h', 'H');
      LowerCharIs(s[1], 'o', 'O');
      LowerCharIs(s[2], 'm', 'M');
      LowerCharIs(s[3], 'e', 'E');
      var l := Lower(s);
      assert l[0] == LowerChar(s[0]) && l[1] == LowerChar(s[1]) && l[2] == LowerChar(s[2]) && l[3] == LowerChar(s[3]);
      SpellsHome(l);
    }
  }

  lemma SpellsHome(l: string)
    requires |l| == 4
    ensures l == "home" <==> l[0] == 'h' && l[1] == 'o' && l[2] == 'm' && l[3] == 'e'
  {
  }

  /**
   * Is the player's team the home side?  The record's home team decides
   * first, then its away team, then the player's own home/away field.
   */
  predicate IsHomeSide(odds: BookingOdds, team: string, homeOrAway: string)
  {
    if odds.homeTeam == Some(team) then true
    else if odds.awayTeam == Some(team) then false
    else homeOrAway != "" && Lower(homeOrAway) == "home"
  }

  /** The prices of the player's team and of its opponent. */
  function SidePrices(odds: BookingOdds, team: string, homeOrAway: string): (Option<real>, Option<real>)
  {
    if IsHomeSide(odds, team, homeOrAway) then (odds.homePrice, odds.awayPrice)
    else (odds.awayPrice, odds.homePrice)
  }

  /**
   * The booking-odds coefficient: 1.0 without a record, without either team
   * price, or when the prices add up to zero; otherwise
   * `1 + k * (p - 0.5) * 2` with p the team's share of the total (a missing
   * draw price counts as zero).
   */
  function OddsCoefficient(odds: Option<BookingOdds>, team: string, homeOrAway: string, k: real): real
  {
    if odds.None? then 1.0
    else
      var sides := SidePrices(odds.value, team, homeOrAway);
      var mine := sides.0;
      var theirs := sides.1;
      if mine.None? || theirs.None? then 1.0
      else
        var draw := if odds.value.drawPrice.Some? then odds.value.drawPrice.value else 0.0;
        var total := mine.value + theirs.value + draw;
        if total == 0.0 then 1.0
        else 1.0 + k * (mine.value / total - 0.5) * 2.0
  }

  predicate NonNegativePrices(odds: BookingOdds)
  {
    && (odds.homePrice.Some? ==> odds.homePrice.value >= 0.0)
    && (odds.awayPrice.Some? ==> odds.awayPrice.value >= 0.0)
    && (odds.drawPrice.Some? ==> odds.drawPrice.value >= 0.0)
  }

  lemma ShareBounds(mine: real, total: real)
    requires 0.0 <= mine <= total && total > 0.0
    ensures 0.0 <= mine / total <= 1.0
  {
  }

  /**
   * With non-negative prices the coefficient lies in [1 - k, 1 + k], and it
   * is the neutral 1.0 in each fallback case.
   */
  lemma OddsCoefficientBounds(odds: Option<BookingOdds>, team: string, homeOrAway: string, k: real)
    requires k >= 0.0
    requires odds.Some? ==> NonNegativePrices(odds.value)
    ensures 1.0 - k <= OddsCoefficient(odds, team, homeOrAway, k) <= 1.0 + k
    ensures odds.None? ==> OddsCoefficient(odds, team, homeOrAway, k) == 1.0
    ensures odds.Some? && (SidePrices(odds.value, team, homeOrAway).0.None?
                          || SidePrices(odds.value, team, homeOrAway).1.None?)
      ==> OddsCoefficient(odds, team, homeOrAway, k) == 1.0
  {
    if odds.Some? {
      var sides := SidePrices(odds.value, team, homeOrAway);
      var mine := sides.0;
      var theirs := sides.1;
      if mine.Some? && theirs.Some? {
        var draw := if odds.value.drawPrice.Some? then odds.value.drawPrice.value else 0.0;
        var total := mine.value + theirs.value + draw;
        if total != 0.0 {
          ShareBounds(mine.value, total);
          var p := mine.value / total;
          assert -1.0 <= (p - 0.5) * 2.0 <= 1.0;
          assert k * ((p - 0.5) * 2.0) <= k * 1.0;
          assert k * ((p - 0.5) * 2.0) >= k * -1.0;
        }
      }
    }
  }

  /**
   * When the record names both teams, the record alone decides the sides:
   * the team and its opponent take opposite prices whatever their home/away
   * fields say, and without a draw price their two coefficients add up to 2.
   */
  lemma OpposingSides(o: BookingOdds, team: string, opponent: string, h1: string, h2: string, k: real)
    requires o.homeTeam == Some(team) && o.awayTeam == Some(opponent) && team != opponent
    ensures SidePrices(o, team, h1) == (o.homePrice, o.awayPrice)
    ensures SidePrices(o, opponent, h2) == (o.awayPrice, o.homePrice)
    ensures o.drawPrice.None? ==> OddsCoefficient(Some(o), team, h1, k) + OddsCoefficient(Some(o), opponent, h2, k) == 2.0
  {
    if o.drawPrice.None? && o.homePrice.Some? && o.awayPrice.Some? {
      var a, b := o.homePrice.value, o.awayPrice.value;
      assert SidePrices(o, opponent, h2) == (o.awayPrice, o.homePrice);
      if a + b + 0.0 != 0.0 {
        var t := a + b + 0.0;
        assert b + a + 0.0 == t;
        assert a / t + b / t == (a + b) / t;
        assert (a + b) / t == 1.0;
        assert OddsCoefficient(Some(o), team, h1, k) == 1.0 + k * (a / t - 0.5) * 2.0;
        assert OddsCoefficient(Some(o), opponent, h2, k) == 1.0 + k * (b / (b + a + 0.0) - 0.5) * 2.0;
        calc {
          (1.0 + k * (a / t - 0.5) * 2.0) + (1.0 + k * (b / t - 0.5) * 2.0);
          2.0 + 2.0 * k * (a / t + b / t - 1.0);
          2.0;
        }
      }
    }
  }

  // ---------------------------------------------------------------------
  // The gameweek value

  /**
   * `calculate_fantasy_value_for_gameweek`: the mean of the recent points
   * times the odds coefficient when a record is given, else times the
   * standings coefficient (whose lookup errors propagate).
   */
  function GameweekValue(p: Player, table: LeagueTable, odds: Option<BookingOdds>): Result<real>
  {
    var base := Mean(p.history);
    if odds.Some? then Ok(base * OddsCoefficient(odds, p.team, p.homeOrAway, K_ODDS))
    else
      var c := StandingsCoefficient(p.team, p.opponent, table, K_STANDINGS, A_STANDINGS);
      if c.Err? then Err(c.error) else Ok(base * c.value)
  }

  /**
   * Only one coefficient is ever applied: with odds the value cannot fail and
   * uses the odds coefficient; without, it fails exactly when the standings
   * lookup fails.  A player without history is worth 0.
   */
  lemma GameweekValueModes(p: Player, table: LeagueTable, odds: Option<BookingOdds>)
    ensures odds.Some? ==>
      && GameweekValue(p, table, odds).Ok?
      && GameweekValue(p, table, odds).value == Mean(p.history) * OddsCoefficient(odds, p.team, p.homeOrAway, K_ODDS)
    ensures odds.None? ==> (GameweekValue(p, table, odds).Err?
      <==> p.team !in table || p.opponent !in table || |table| == 1)
    ensures odds.None? && GameweekValue(p, table, odds).Ok? ==>
      GameweekValue(p, table, odds).value
        == Mean(p.history) * StandingsFormula(K_STANDINGS, A_STANDINGS, table[p.team], table[p.opponent], |table|)
    ensures p.history == [] && GameweekValue(p, table, odds).Ok? ==> GameweekValue(p, table, odds).value == 0.0
  {
  }

  /**
   * The value is a function of the player's points history, team, opponent
   * and home/away field only: its current value and starter flag play no part.
   */
  lemma GameweekValueFields(p: Player, q: Player, table: LeagueTable, odds: Option<BookingOdds>)
    requires p.history == q.history && p.team == q.team && p.opponent == q.opponent
    requires p.homeOrAway == q.homeOrAway
    ensures GameweekValue(p, table, odds) == GameweekValue(q, table, odds)
  {
    var a, b := GameweekValue(p, table, odds), GameweekValue(q, table, odds);
    if odds.None? {
      var c := StandingsCoefficient(p.team, p.opponent, table, K_STANDINGS, A_STANDINGS);
      assert c == StandingsCoefficient(q.team, q.opponent, table, K_STANDINGS, A_STANDINGS);
      if c.Err? {
        assert a == Err(c.error) == b;
        return;
      }
    }
    assert a.Ok? && b.Ok? && a.value == b.value;
  }
}
