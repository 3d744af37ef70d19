/**
 * Substitutions: the lineup manager's targeted substitutions.  A swap
 * exchanges one starter with one reserve and must leave a complete lineup;
 * the at-risk starters are paired greedily with the best playable reserves,
 * every pair judged against the unchanged roster, and the pairs are then
 * applied one by one, each judged again against the roster as it stands.
 */
module Substitutions {
  import opened Wrappers
  import opened Players
  import opened LineupRules
  import opened TieredSort
  import opened Rosters

  const EXACT_STARTERS: int := 11
  const EXACT_GOALKEEPERS: int := 1

  /** The lineup a swap must leave: 11 starters, one goalkeeper, every outfield position within its bounds. */
  predicate CompleteLineup(c: Counts)
  {
    c.Total() == EXACT_STARTERS && c.g == EXACT_GOALKEEPERS && MeetsMinimums(c)
    && c.d <= MAX_DEFENDERS && c.m <= MAX_MIDFIELDERS && c.f <= MAX_FORWARDS
  }

  /** The checks of the exact-swap validator, in the source's order; the first broken one gives the reason. */
  function ExactCheck(c: Counts): (v: Verdict)
    ensures v == Accept <==> CompleteLineup(c)
    ensures c.Total() != EXACT_STARTERS ==> v == Reject("Must have exactly 11 starters")
    ensures c.Total() == EXACT_STARTERS && c.g != EXACT_GOALKEEPERS ==> v == Reject("Must have exactly 1 Goalkeeper")
  {
    if c.Total() != EXACT_STARTERS then Reject("Must have exactly 11 starters")
    else if c.g != EXACT_GOALKEEPERS then Reject("Must have exactly 1 Goalkeeper")
    else if c.d < MIN_DEFENDERS then Reject("Must have at least 3 Defenders")
    else if c.m < MIN_MIDFIELDERS then Reject("Must have at least 3 Midfielders")
    else if c.f < MIN_FORWARDS then Reject("Must have at least 1 Forward")
    else if c.d > MAX_DEFENDERS then Reject("Must have at most 5 Defenders")
    else if c.m > MAX_MIDFIELDERS then Reject("Must have at most 5 Midfielders")
    else if c.f > MAX_FORWARDS then Reject("Must have at most 3 Forwards")
    else Accept
  }

  function BothSameReason(p1: Player, p2: Player): string
  {
    "Player " + p1.name + " and " + p2.name + " are both starters or reserves"
  }

  /**
   * `valid_substitution(id1, id2)`: an unknown id raises (the first id is
   * looked up first); the two players must be one starter and one reserve;
   * the counts with the starter benched and the reserve promoted must form
   * a complete lineup.  The locked flag plays no part.
   */
  function ExactSwapVerdict(s: seq<Player>, id1: string, id2: string): (r: Result<Verdict>)
    ensures r.Err? <==> IndexOfId(s, id1).None? || IndexOfId(s, id2).None?
    ensures IndexOfId(s, id1).None? ==> r == Err(NotFound(id1))
    ensures IndexOfId(s, id1).Some? && IndexOfId(s, id2).None? ==> r == Err(NotFound(id2))
  {
    match (IndexOfId(s, id1), IndexOfId(s, id2))
    case (None, _) => Err(NotFound(id1))
    case (_, None) => Err(NotFound(id2))
    case (Some(i), Some(j)) =>
      var p1, p2 := s[i], s[j];
      if p1.starter == p2.starter then Ok(Reject(BothSameReason(p1, p2)))
      else
        var starter, reserve := if p1.starter then p1 else p2, if p1.starter then p2 else p1;
        Ok(ExactCheck(StarterCounts(s).Add(starter.position, -1).Add(reserve.position, 1)))
  }

  function Flip(p: Player): Player
  {
    p.(starter := !p.starter)
  }

  /** The roster after both players' starter flags are swapped. */
  function SwapPair(s: seq<Player>, i: nat, j: nat): (r: seq<Player>)
    requires i < |s| && j < |s|
    ensures |r| == |s|
  {
    s[i := Flip(s[i])][j := Flip(s[j])]
  }

  /** The counts the validator checks are the starter counts of the swapped roster. */
  lemma SwapPairCounts(s: seq<Player>, i: nat, j: nat)
    requires i < |s| && j < |s| && i != j && s[i].starter != s[j].starter
    ensures StarterCounts(SwapPair(s, i, j)) ==
      var starter, reserve := if s[i].starter then s[i] else s[j], if s[i].starter then s[j] else s[i];
      StarterCounts(s).Add(starter.position, -1).Add(reserve.position, 1)
    ensures StarterCounts(SwapPair(s, i, j)).Total() == StarterCounts(s).Total()
  {
    var s1 := s[i := Flip(s[i])];
    ToggleIsFlip(s, i);
    ToggleIsFlip(s1, j);
    assert s1[j] == s[j];
    assert SwapPair(s, i, j) == s1[j := Flip(s1[j])];
    TwoToggles(StarterCounts(s), s[i], s[j]);
  }

  /** Toggling one starter and one reserve benches the first and promotes the second, in either order. */
  lemma TwoToggles(c: Counts, x: Player, y: Player)
    requires x.starter != y.starter
    ensures Toggle(Toggle(c, x), y) ==
      var starter, reserve := if x.starter then x else y, if x.starter then y else x;
      c.Add(starter.position, -1).Add(reserve.position, 1)
    ensures Toggle(Toggle(c, x), y).Total() == c.Total()
  {
    if !x.starter {
      AddCommutes(c, x.position, 1, y.position, -1);
    }
  }

  /**
   * The exact swap accepts precisely when both ids are found, one of the
   * players starts and the other does not, and swapping their flags leaves
   * a complete lineup; so it only accepts on a roster that already has 11
   * starters.
   */
  lemma ExactSwapAccepts(s: seq<Player>, id1: string, id2: string)
    ensures ExactSwapVerdict(s, id1, id2) == Ok(Accept) <==>
      && IndexOfId(s, id1).Some? && IndexOfId(s, id2).Some?
      && s[IndexOfId(s, id1).value].starter != s[IndexOfId(s, id2).value].starter
      && CompleteLineup(StarterCounts(SwapPair(s, IndexOfId(s, id1).value, IndexOfId(s, id2).value)))
    ensures ExactSwapVerdict(s, id1, id2) == Ok(Accept) ==> |Starters(s)| == EXACT_STARTERS
  {
    if IndexOfId(s, id1).Some? && IndexOfId(s, id2).Some? {
      var i, j := IndexOfId(s, id1).value, IndexOfId(s, id2).value;
      StarterCountsByPosition(s, G);
      if s[i].starter != s[j].starter {
        SwapPairCounts(s, i, j);
      }
    }
  }

  /**
   * `substitute_players(id1, id2)`: the verdict's error or reason when the
   * swap is refused, else the roster with exactly the two players' starter
   * flags negated.  A swap keeps the number of starters.
   */
  function Substituted(s: seq<Player>, id1: string, id2: string): (r: Result<seq<Player>>)
    ensures r.Ok? <==> ExactSwapVerdict(s, id1, id2) == Ok(Accept)
    ensures ExactSwapVerdict(s, id1, id2).Err? ==> r == Err(ExactSwapVerdict(s, id1, id2).error)
    ensures ExactSwapVerdict(s, id1, id2).Ok? && ExactSwapVerdict(s, id1, id2).value.Reject? ==>
      r == Err(ExactSwapVerdict(s, id1, id2).value.reason)
    ensures r.Ok? ==>
      && |r.value| == |s|
      && CompleteLineup(StarterCounts(r.value))
      && |Starters(r.value)| == |Starters(s)|
      && forall k :: 0 <= k < |s| ==> r.value[k].(starter := s[k].starter) == s[k]
  {
    match ExactSwapVerdict(s, id1, id2)
    case Err(e) => Err(e)
    case Ok(Reject(reason)) => Err(reason)
    case Ok(Accept) =>
      AcceptedSwap(s, id1, id2);
      Ok(SwapPair(s, IndexOfId(s, id1).value, IndexOfId(s, id2).value))
  }

  /** An accepted swap flips exactly two flags, into a complete lineup with as many starters. */
  lemma AcceptedSwap(s: seq<Player>, id1: string, id2: string)
    requires ExactSwapVerdict(s, id1, id2) == Ok(Accept)
    ensures IndexOfId(s, id1).Some? && IndexOfId(s, id2).Some?
    ensures var t := SwapPair(s, IndexOfId(s, id1).value, IndexOfId(s, id2).value);
      && CompleteLineup(StarterCounts(t))
      && |Starters(t)| == |Starters(s)|
      && forall k :: 0 <= k < |s| ==> t[k].(starter := s[k].starter) == s[k]
  {
    var i, j := IndexOfId(s, id1).value, IndexOfId(s, id2).value;
    ExactSwapAccepts(s, id1, id2);
    SwapPairKeeps(s, i, j);
  }

  /** Swapping a starter's and a reserve's flags keeps the number of starters and changes nothing else. */
  lemma SwapPairKeeps(s: seq<Player>, i: nat, j: nat)
    requires i < |s| && j < |s| && s[i].starter != s[j].starter
    ensures |Starters(SwapPair(s, i, j))| == |Starters(s)|
    ensures forall k :: 0 <= k < |s| ==> SwapPair(s, i, j)[k].(starter := s[k].starter) == s[k]
  {
    SwapPairCounts(s, i, j);
    StarterCountsByPosition(s, G);
    StarterCountsByPosition(SwapPair(s, i, j), G);
  }

  /**
   * `substitute_players`: looks both players up, asks the validator and,
   * when it accepts, swaps the two players' flags in place.  A refusal
   * raises and leaves the roster as it was.
   */
  method SubstitutePlayers(roster: Roster, id1: string, id2: string) returns (error: Option<string>)
    modifies roster
    ensures error.None? <==> Substituted(old(roster.players), id1, id2).Ok?
    ensures error.None? ==> roster.players == Substituted(old(roster.players), id1, id2).value
    ensures error.Some? ==>
      roster.players == old(roster.players) && error.value == Substituted(old(roster.players), id1, id2).error
  {
    var player1 := roster.GetPlayer(id1);
    if player1.Err? {
      return Some(player1.error);
    }
    var player2 := roster.GetPlayer(id2);
    if player2.Err? {
      return Some(player2.error);
    }
    var verdict := ExactSwapVerdict(roster.players, id1, id2);
    if verdict != Ok(Accept) {
      return Some(verdict.value.reason);
    }
    var i, j := IndexOfId(roster.players, id1).value, IndexOfId(roster.players, id2).value;
    roster.players := roster.players[i := Flip(roster.players[i])];
    roster.players := roster.players[j := Flip(roster.players[j])];
    error := None;
  }

  // ---------------------------------------------------------------------
  // Greedy pairing

  /** The first candidate from position `k` on that satisfies `ok`. */
  function FirstWhere(cands: seq<Player>, ok: Player -> bool, k: nat): (r: Option<nat>)
    requires k <= |cands|
    ensures r.Some? ==> k <= r.value < |cands| && ok(cands[r.value]) && forall n :: k <= n < r.value ==> !ok(cands[n])
    ensures r.None? ==> forall n :: k <= n < |cands| ==> !ok(cands[n])
    decreases |cands| - k
  {
    if k == |cands| then None
    else if ok(cands[k]) then Some(k)
    else FirstWhere(cands, ok, k + 1)
  }

  /** The candidates the exact-swap validator accepts as partner of `starter`. */
  function AcceptedPartner(s: seq<Player>, starter: Player): Player -> bool
  {
    (c: Player) => ExactSwapVerdict(s, starter.id, c.id) == Ok(Accept)
  }

  /** The first candidate from position `k` on that the validator accepts as partner for `starter`. */
  function FirstValid(s: seq<Player>, starter: Player, cands: seq<Player>, k: nat): (r: Option<nat>)
    requires k <= |cands|
    ensures r.Some? ==>
      && k <= r.value < |cands|
      && ExactSwapVerdict(s, starter.id, cands[r.value].id) == Ok(Accept)
      && forall n :: k <= n < r.value ==> ExactSwapVerdict(s, starter.id, cands[n].id) != Ok(Accept)
    ensures r.None? ==> forall n :: k <= n < |cands| ==> ExactSwapVerdict(s, starter.id, cands[n].id) != Ok(Accept)
  {
    FirstWhere(cands, AcceptedPartner(s, starter), k)
  }


  function Remove(cands: seq<Player>, k: nat): (r: seq<Player>)
    requires k < |cands|
    ensures multiset(r) + multiset{cands[k]} == multiset(cands)
  {
    assert cands == cands[..k] + [cands[k]] + cands[k + 1..];
    cands[..k] + cands[k + 1..]
  }

  /**
   * The pairing loop: each starter in turn takes the first candidate the
   * validator accepts with it, and that candidate is no longer offered.
   */
  function Greedy(s: seq<Player>, starters: seq<Player>, cands: seq<Player>): seq<(Player, Player)>
    decreases |starters|
  {
    if starters == [] then []
    else
      match FirstValid(s, starters[0], cands, 0)
      case None => Greedy(s, starters[1..], cands)
      case Some(k) => [(starters[0], cands[k])] + Greedy(s, starters[1..], Remove(cands, k))
  }

  /** At-risk starters, lowest value first, against playable reserves, highest value first. */
  function OptimalSubstitutions(s: seq<Player>): seq<(Player, Player)>
  {
    Greedy(s, SortByValue(AtRisk(s), false), SortByValue(PlayableReserves(s, false), true))
  }

  function Firsts(pairs: seq<(Player, Player)>): (r: seq<Player>)
    ensures |r| == |pairs|
  {
    seq(|pairs|, n requires 0 <= n < |pairs| => pairs[n].0)
  }

  function Seconds(pairs: seq<(Player, Player)>): (r: seq<Player>)
    ensures |r| == |pairs|
  {
    seq(|pairs|, n requires 0 <= n < |pairs| => pairs[n].1)
  }

  /**
   * Every pair of the greedy list is a swap the validator accepts on the
   * unchanged roster, and no starter and no candidate is used more often
   * than it was offered.
   */
  lemma {:induction false} GreedyPairs(s: seq<Player>, starters: seq<Player>, cands: seq<Player>)
    ensures forall n :: 0 <= n < |Greedy(s, starters, cands)| ==>
      ExactSwapVerdict(s, Greedy(s, starters, cands)[n].0.id, Greedy(s, starters, cands)[n].1.id) == Ok(Accept)
    ensures multiset(Firsts(Greedy(s, starters, cands))) <= multiset(starters)
    ensures multiset(Seconds(Greedy(s, starters, cands))) <= multiset(cands)
    decreases |starters|
  {
    if starters != [] {
      assert starters == [starters[0]] + starters[1..];
      match FirstValid(s, starters[0], cands, 0)
      case None =>
        GreedyPairs(s, starters[1..], cands);
      case Some(k) =>
        GreedyPairs(s, starters[1..], Remove(cands, k));
        GreedyStep(s, starters[0], cands[k], Greedy(s, starters[1..], Remove(cands, k)), starters[1..], Remove(cands, k));
    }
  }

  /** One pairing step: a validated pair in front of a list whose pairs are all validated. */
  lemma GreedyStep(s: seq<Player>, a: Player, b: Player, rest: seq<(Player, Player)>, others: seq<Player>, left: seq<Player>)
    requires ExactSwapVerdict(s, a.id, b.id) == Ok(Accept)
    requires forall n :: 0 <= n < |rest| ==> ExactSwapVerdict(s, rest[n].0.id, rest[n].1.id) == Ok(Accept)
    requires multiset(Firsts(rest)) <= multiset(others)
    requires multiset(Seconds(rest)) <= multiset(left)
    ensures forall n :: 0 <= n < |[(a, b)] + rest| ==>
      ExactSwapVerdict(s, ([(a, b)] + rest)[n].0.id, ([(a, b)] + rest)[n].1.id) == Ok(Accept)
    ensures multiset(Firsts([(a, b)] + rest)) <= multiset([a] + others)
    ensures multiset(Seconds([(a, b)] + rest)) <= multiset(left) + multiset{b}
  {
    PrependAccepted(s, a, b, rest);
    PrependUses(a, b, rest, others, left);
  }

  lemma PrependUses(a: Player, b: Player, rest: seq<(Player, Player)>, others: seq<Player>, left: seq<Player>)
    requires multiset(Firsts(rest)) <= multiset(others)
    requires multiset(Seconds(rest)) <= multiset(left)
    ensures multiset(Firsts([(a, b)] + rest)) <= multiset([a] + others)
    ensures multiset(Seconds([(a, b)] + rest)) <= multiset(left) + multiset{b}
  {
    var pairs := [(a, b)] + rest;
    assert Firsts(pairs) == [a] + Firsts(rest);
    assert Seconds(pairs) == [b] + Seconds(rest);
  }

  lemma PrependAccepted(s: seq<Player>, a: Player, b: Player, rest: seq<(Player, Player)>)
    requires ExactSwapVerdict(s, a.id, b.id) == Ok(Accept)
    requires forall n :: 0 <= n < |rest| ==> ExactSwapVerdict(s, rest[n].0.id, rest[n].1.id) == Ok(Accept)
    ensures forall n :: 0 <= n < |[(a, b)] + rest| ==>
      ExactSwapVerdict(s, ([(a, b)] + rest)[n].0.id, ([(a, b)] + rest)[n].1.id) == Ok(Accept)
  {
    var pairs := [(a, b)] + rest;
    forall n | 0 <= n < |pairs|
      ensures ExactSwapVerdict(s, pairs[n].0.id, pairs[n].1.id) == Ok(Accept)
    {
      if n > 0 {
        assert pairs[n] == rest[n - 1];
      }
    }
  }

  /** The pairs the service returns: at-risk starters paired with playable reserves, each validated. */
  lemma OptimalSubstitutionsPairs(s: seq<Player>)
    ensures forall n :: 0 <= n < |OptimalSubstitutions(s)| ==>
      && ExactSwapVerdict(s, OptimalSubstitutions(s)[n].0.id, OptimalSubstitutions(s)[n].1.id) == Ok(Accept)
      && OptimalSubstitutions(s)[n].0 in AtRisk(s)
      && OptimalSubstitutions(s)[n].1 in PlayableReserves(s, false)
    ensures multiset(Firsts(OptimalSubstitutions(s))) <= multiset(AtRisk(s))
    ensures multiset(Seconds(OptimalSubstitutions(s))) <= multiset(PlayableReserves(s, false))
  {
    var a, b := SortByValue(AtRisk(s), false), SortByValue(PlayableReserves(s, false), true);
    SortByValueSpec(AtRisk(s), false);
    SortByValueSpec(PlayableReserves(s, false), true);
    GreedyPairs(s, a, b);
    var g := OptimalSubstitutions(s);
    forall n | 0 <= n < |g|
      ensures g[n].0 in AtRisk(s) && g[n].1 in PlayableReserves(s, false)
    {
      assert Firsts(g)[n] in multiset(Firsts(g));
      assert Seconds(g)[n] in multiset(Seconds(g));
    }
  }

  /**
   * The inner loop of `get_optimal_substitutions`: the candidates are tried
   * in order and the first one the validator accepts ends the search;
   * `|cands|` means none was accepted.
   */
  method FindPartner(s: seq<Player>, starter: Player, cands: seq<Player>) returns (k: nat)
    ensures k <= |cands|
    ensures FirstValid(s, starter, cands, 0) == if k < |cands| then Some(k) else None
  {
    k := 0;
    while k < |cands|
      invariant 0 <= k <= |cands|
      invariant FirstValid(s, starter, cands, k) == FirstValid(s, starter, cands, 0)
    {
      if ExactSwapVerdict(s, starter.id, cands[k].id) == Ok(Accept) {
        break;
      }
      k := k + 1;
    }
  }

  /** One round of the greedy pairing, for the partner the inner search found. */
  lemma GreedyUnfold(s: seq<Player>, starters: seq<Player>, i: nat, cands: seq<Player>, k: nat)
    requires i < |starters| && k <= |cands|
    requires FirstValid(s, starters[i], cands, 0) == if k < |cands| then Some(k) else None
    ensures Greedy(s, starters[i..], cands) ==
      if k < |cands| then [(starters[i], cands[k])] + Greedy(s, starters[i + 1..], Remove(cands, k))
      else Greedy(s, starters[i + 1..], cands)
  {
    assert starters[i..][1..] == starters[i + 1..];
    assert starters[i..][0] == starters[i];
  }

  lemma ConcatAssoc<T>(a: seq<T>, b: seq<T>, c: seq<T>)
    ensures a + b + c == a + (b + c)
  {
  }

  /**
   * `get_optimal_substitutions`: the at-risk starters and the playable
   * reserves are sorted, then a nested loop pairs each starter with the
   * first reserve the validator accepts, removing that reserve from the
   * list.  It only reads the roster.
   */
  method GetOptimalSubstitutions(roster: Roster) returns (subs: seq<(Player, Player)>)
    ensures subs == OptimalSubstitutions(roster.players)
  {
    var s := roster.players;
    var starters := SortByValue(AtRisk(s), false);
    var cands := SortByValue(PlayableReserves(s, false), true);
    subs := PairGreedily(s, starters, cands);
  }

  /**
   * The loop of `get_optimal_substitutions`: each starter in turn takes the
   * first candidate left that the validator accepts on the unchanged
   * roster, and that candidate is removed from the list.
   */
  method PairGreedily(s: seq<Player>, starters: seq<Player>, cands0: seq<Player>) returns (subs: seq<(Player, Player)>)
    ensures subs == Greedy(s, starters, cands0)
  {
    var cands := cands0;
    assert starters[0..] == starters;
    subs := [];
    var i := 0;
    while i < |starters|
      invariant 0 <= i <= |starters|
      invariant subs + Greedy(s, starters[i..], cands) == Greedy(s, starters, cands0)
    {
      var starter := starters[i];
      var k := FindPartner(s, starter, cands);
      GreedyUnfold(s, starters, i, cands, k);
      if k < |cands| {
        ConcatAssoc(subs, [(starter, cands[k])], Greedy(s, starters[i + 1..], Remove(cands, k)));
        subs := subs + [(starter, cands[k])];
        cands := Remove(cands, k);
      }
      i := i + 1;
    }
  }


  // ---------------------------------------------------------------------
  // Applying the pairs

  /**
   * `make_substitutions` after the pairs are found: each pair is applied
   * through `substitute_players(reserve id, starter id)` against the roster
   * as changed so far; the first refusal stops it, with the earlier swaps
   * kept.  The result is the roster reached and the error, if any.
   */
  function ApplyPairs(s: seq<Player>, subs: seq<(Player, Player)>): (seq<Player>, Option<string>)
    decreases |subs|
  {
    if subs == [] then (s, None)
    else
      match Substituted(s, subs[0].1.id, subs[0].0.id)
      case Err(e) => (s, Some(e))
      case Ok(t) => ApplyPairs(t, subs[1..])
  }

  /**
   * Applying pairs never changes the number of starters or anything but
   * starter flags, and a roster any swap reached is a complete lineup.
   */
  lemma {:induction false} ApplyPairsKeeps(s: seq<Player>, subs: seq<(Player, Player)>)
    ensures |ApplyPairs(s, subs).0| == |s|
    ensures |Starters(ApplyPairs(s, subs).0)| == |Starters(s)|
    ensures forall k :: 0 <= k < |s| ==> ApplyPairs(s, subs).0[k].(starter := s[k].starter) == s[k]
    ensures ApplyPairs(s, subs).0 == s || CompleteLineup(StarterCounts(ApplyPairs(s, subs).0))
    decreases |subs|
  {
    if subs != [] {
      var r := Substituted(s, subs[0].1.id, subs[0].0.id);
      if r.Ok? {
        var t := r.value;
        ApplyPairsKeeps(t, subs[1..]);
        forall k | 0 <= k < |s|
          ensures ApplyPairs(s, subs).0[k].(starter := s[k].starter) == s[k]
        {
          assert ApplyPairs(t, subs[1..]).0[k].(starter := t[k].starter) == t[k];
          assert t[k].(starter := s[k].starter) == s[k];
        }
      }
    }
  }

  /** The loop of `make_substitutions` over the pairs, in list order. */
  method ApplySubstitutions(roster: Roster, subs: seq<(Player, Player)>) returns (error: Option<string>)
    modifies roster
    ensures (roster.players, error) == ApplyPairs(old(roster.players), subs)
  {
    var i := 0;
    while i < |subs|
      invariant 0 <= i <= |subs|
      invariant ApplyPairs(roster.players, subs[i..]) == ApplyPairs(old(roster.players), subs)
    {
      assert subs[i..][1..] == subs[i + 1..];
      error := SubstitutePlayers(roster, subs[i].1.id, subs[i].0.id);
      if error.Some? {
        return;
      }
      i := i + 1;
    }
    error := None;
  }

  /**
   * `make_substitutions`: find the pairs on the current roster, then apply
   * them.  Refreshing the roster from the server first is not modelled.
   */
  method MakeSubstitutions(roster: Roster) returns (error: Option<string>)
    modifies roster
    ensures (roster.players, error) == ApplyPairs(old(roster.players), OptimalSubstitutions(old(roster.players)))
  {
    var subs := GetOptimalSubstitutions(roster);
    error := ApplySubstitutions(roster, subs);
  }

  // ---------------------------------------------------------------------
  // Pairs validated against the unchanged roster

  /** Changing starter flags does not move any id: the lookup finds the same index. */
  lemma IndexOfIdFlags(s: seq<Player>, t: seq<Player>, id: string)
    requires |t| == |s| && forall k :: 0 <= k < |s| ==> t[k].id == s[k].id
    ensures IndexOfId(t, id) == IndexOfId(s, id)
  {
    if IndexOfId(s, id).Some? {
      assert t[IndexOfId(s, id).value].id == id;
    }
    if IndexOfId(t, id).Some? {
      assert s[IndexOfId(t, id).value].id == id;
    }
  }

  /**
   * A swap of a starting defender for a forward reserve, both found at
   * their own index: the validator judges the counts with one defender
   * fewer and one forward more, whichever id comes first.
   */
  lemma DefenderForForward(s: seq<Player>, i: nat, j: nat)
    requires i < |s| && j < |s|
    requires IndexOfId(s, s[i].id) == Some(i) && IndexOfId(s, s[j].id) == Some(j)
    requires s[i].starter && s[i].position == D && !s[j].starter && s[j].position == F
    ensures ExactSwapVerdict(s, s[i].id, s[j].id) == Ok(ExactCheck(StarterCounts(s).Add(D, -1).Add(F, 1)))
    ensures ExactSwapVerdict(s, s[j].id, s[i].id) == Ok(ExactCheck(StarterCounts(s).Add(D, -1).Add(F, 1)))
    ensures StarterCounts(SwapPair(s, j, i)) == StarterCounts(s).Add(D, -1).Add(F, 1)
  {
    SwapPairCounts(s, j, i);
  }

  /**
   * A complete 1-4-4-2 lineup with two starting defenders (at `i1`, `i2`)
   * and two forward reserves (at `j1`, `j2`), every id found at its own
   * index.
   */
  predicate TwoDefendersTwoForwards(s: seq<Player>, i1: nat, j1: nat, i2: nat, j2: nat)
  {
    && i1 < |s| && j1 < |s| && i2 < |s| && j2 < |s| && i1 != i2 && j1 != j2
    && IndexOfId(s, s[i1].id) == Some(i1) && IndexOfId(s, s[j1].id) == Some(j1)
    && IndexOfId(s, s[i2].id) == Some(i2) && IndexOfId(s, s[j2].id) == Some(j2)
    && s[i1].starter && s[i1].position == D && s[i2].starter && s[i2].position == D
    && !s[j1].starter && s[j1].position == F && !s[j2].starter && s[j2].position == F
    && StarterCounts(s) == Counts(1, 4, 4, 2)
  }

  /**
   * On such a lineup the first swap is accepted, and afterwards the second
   * one is refused: three defenders start, and it would leave two.
   */
  lemma SecondSwapRefused(s: seq<Player>, i1: nat, j1: nat, i2: nat, j2: nat)
    requires TwoDefendersTwoForwards(s, i1, j1, i2, j2)
    ensures Substituted(s, s[j1].id, s[i1].id) == Ok(SwapPair(s, j1, i1))
    ensures Substituted(SwapPair(s, j1, i1), s[j2].id, s[i2].id) == Err("Must have at least 3 Defenders")
  {
    SwapAcceptedFrom442(s, i1, j1);
    var t := SwapPair(s, j1, i1);
    IndexOfIdFlags(s, t, s[j2].id);
    IndexOfIdFlags(s, t, s[i2].id);
    assert t[j2] == s[j2] && t[i2] == s[i2];
    SwapRefusedFrom343(t, i2, j2);
  }

  /** From 1-4-4-2, a forward for a defender leaves a complete 1-3-4-3 lineup. */
  lemma SwapAcceptedFrom442(s: seq<Player>, i: nat, j: nat)
    requires i < |s| && j < |s|
    requires IndexOfId(s, s[i].id) == Some(i) && IndexOfId(s, s[j].id) == Some(j)
    requires s[i].starter && s[i].position == D && !s[j].starter && s[j].position == F
    requires StarterCounts(s) == Counts(1, 4, 4, 2)
    ensures Substituted(s, s[j].id, s[i].id) == Ok(SwapPair(s, j, i))
    ensures StarterCounts(SwapPair(s, j, i)) == Counts(1, 3, 4, 3)
  {
    DefenderForForward(s, i, j);
    assert ExactCheck(Counts(1, 3, 4, 3)) == Accept;
  }

  /** From 1-3-4-3, a forward for a defender would leave two defenders. */
  lemma SwapRefusedFrom343(t: seq<Player>, i: nat, j: nat)
    requires i < |t| && j < |t|
    requires IndexOfId(t, t[i].id) == Some(i) && IndexOfId(t, t[j].id) == Some(j)
    requires t[i].starter && t[i].position == D && !t[j].starter && t[j].position == F
    requires StarterCounts(t) == Counts(1, 3, 4, 3)
    ensures Substituted(t, t[j].id, t[i].id) == Err("Must have at least 3 Defenders")
  {
    DefenderForForward(t, i, j);
    assert ExactCheck(Counts(1, 2, 4, 4)) == Reject("Must have at least 3 Defenders");
  }


  /**
   * Every pair the greedy pairing returns was accepted against the roster
   * before any swap, but the swaps are applied one after the other.  With
   * the two defenders at risk and the two forwards the playable reserves,
   * both pairs are returned, and applying them stops at the second.
   */
  lemma StaleValidation(s: seq<Player>, i1: nat, j1: nat, i2: nat, j2: nat)
    requires TwoDefendersTwoForwards(s, i1, j1, i2, j2)
    ensures Greedy(s, [s[i1], s[i2]], [s[j1], s[j2]]) == [(s[i1], s[j1]), (s[i2], s[j2])]
    ensures ApplyPairs(s, [(s[i1], s[j1]), (s[i2], s[j2])]).1 == Some("Must have at least 3 Defenders")
  {
    StaleGreedy(s, i1, j1, i2, j2);
    SecondSwapRefused(s, i1, j1, i2, j2);
    var pairs := [(s[i1], s[j1]), (s[i2], s[j2])];
    assert pairs[1..] == [(s[i2], s[j2])];
    assert pairs[0] == (s[i1], s[j1]);
  }

  /**
   * The lineup of the stale validation as the service sees it: the two
   * defenders are the only at-risk starters, the lower value first, and the
   * two forwards the only playable reserves, the higher value first.
   */
  predicate StaleRoster(s: seq<Player>, i1: nat, j1: nat, i2: nat, j2: nat)
  {
    && TwoDefendersTwoForwards(s, i1, j1, i2, j2)
    && AtRisk(s) == [s[i1], s[i2]] && s[i1].value <= s[i2].value
    && PlayableReserves(s, false) == [s[j1], s[j2]] && s[j1].value >= s[j2].value
  }

  /**
   * `get_optimal_substitutions` on that roster returns both pairs, and
   * `make_substitutions` applying them is refused at the second.
   */
  lemma StaleOptimalSubstitutions(s: seq<Player>, i1: nat, j1: nat, i2: nat, j2: nat)
    requires StaleRoster(s, i1, j1, i2, j2)
    ensures OptimalSubstitutions(s) == [(s[i1], s[j1]), (s[i2], s[j2])]
    ensures ApplyPairs(s, OptimalSubstitutions(s)).1 == Some("Must have at least 3 Defenders")
  {
    StaleSorted(s, i1, j1, i2, j2);
    StaleValidation(s, i1, j1, i2, j2);
  }

  /** On that roster both sorts leave their lists as they are. */
  lemma StaleSorted(s: seq<Player>, i1: nat, j1: nat, i2: nat, j2: nat)
    requires StaleRoster(s, i1, j1, i2, j2)
    ensures SortByValue(AtRisk(s), false) == [s[i1], s[i2]]
    ensures SortByValue(PlayableReserves(s, false), true) == [s[j1], s[j2]]
  {
    SortByValueFixed([s[i1], s[i2]], false);
    SortByValueFixed([s[j1], s[j2]], true);
  }

  /** Both pairs are accepted against the unchanged lineup, so the greedy pairing returns both. */
  lemma StaleGreedy(s: seq<Player>, i1: nat, j1: nat, i2: nat, j2: nat)
    requires TwoDefendersTwoForwards(s, i1, j1, i2, j2)
    ensures Greedy(s, [s[i1], s[i2]], [s[j1], s[j2]]) == [(s[i1], s[j1]), (s[i2], s[j2])]
  {
    AcceptedFrom442(s, i1, j1);
    AcceptedFrom442(s, i2, j2);
    GreedyBothAccepted(s, s[i1], s[i2], s[j1], s[j2]);
  }

  /** On the unchanged 1-4-4-2 lineup, each forward is an accepted partner for each defender. */
  lemma AcceptedFrom442(s: seq<Player>, i: nat, j: nat)
    requires i < |s| && j < |s|
    requires IndexOfId(s, s[i].id) == Some(i) && IndexOfId(s, s[j].id) == Some(j)
    requires s[i].starter && s[i].position == D && !s[j].starter && s[j].position == F
    requires StarterCounts(s) == Counts(1, 4, 4, 2)
    ensures ExactSwapVerdict(s, s[i].id, s[j].id) == Ok(Accept)
  {
    DefenderForForward(s, i, j);
    assert ExactCheck(Counts(1, 3, 4, 3)) == Accept;
  }

  /** Two starters, two candidates, each pair accepted on its own: the greedy pairing takes both. */
  lemma GreedyBothAccepted(s: seq<Player>, a1: Player, a2: Player, b1: Player, b2: Player)
    requires ExactSwapVerdict(s, a1.id, b1.id) == Ok(Accept)
    requires ExactSwapVerdict(s, a2.id, b2.id) == Ok(Accept)
    ensures Greedy(s, [a1, a2], [b1, b2]) == [(a1, b1), (a2, b2)]
  {
    var rest, left := [a2], [b1, b2][1..];
    assert left == [b2];
    GreedyOne(s, a2, b2);
    assert [a1] + rest == [a1, a2];
    GreedyTakesFirst(s, a1, rest, [b1, b2]);
  }

  lemma GreedyOne(s: seq<Player>, a: Player, b: Player)
    requires ExactSwapVerdict(s, a.id, b.id) == Ok(Accept)
    ensures Greedy(s, [a], [b]) == [(a, b)]
  {
    var none: seq<Player> := [];
    assert [a] + none == [a];
    assert [b][1..] == none;
    GreedyTakesFirst(s, a, none, [b]);
    assert Greedy(s, none, none) == [];
  }


  /** A starter the validator accepts with the first candidate is paired with it. */
  lemma GreedyTakesFirst(s: seq<Player>, starter: Player, rest: seq<Player>, cands: seq<Player>)
    requires cands != [] && ExactSwapVerdict(s, starter.id, cands[0].id) == Ok(Accept)
    ensures Greedy(s, [starter] + rest, cands) == [(starter, cands[0])] + Greedy(s, rest, cands[1..])
  {
    assert FirstValid(s, starter, cands, 0) == Some(0);
    assert ([starter] + rest)[1..] == rest;
    assert Remove(cands, 0) == cands[1..];
  }

  /** The candidates that can be swapped in for `starter` on the roster as it stands. */
  function ApplicablePartner(s: seq<Player>, starter: Player): Player -> bool
  {
    (c: Player) => Substituted(s, c.id, starter.id).Ok?
  }

  /** The first candidate from position `k` on whose swap with `starter` the roster as it stands accepts. */
  function FirstApplicable(s: seq<Player>, starter: Player, cands: seq<Player>, k: nat): (r: Option<nat>)
    requires k <= |cands|
    ensures r.Some? ==> k <= r.value < |cands| && Substituted(s, cands[r.value].id, starter.id).Ok?
    ensures r.None? ==> forall n :: k <= n < |cands| ==> Substituted(s, cands[n].id, starter.id).Err?
  {
    FirstWhere(cands, ApplicablePartner(s, starter), k)
  }


  /**
   * The pairing with each pair judged against the roster with the earlier
   * pairs already swapped, the way they will be applied.
   */
  function SequentialGreedy(s: seq<Player>, starters: seq<Player>, cands: seq<Player>): seq<(Player, Player)>
    decreases |starters|
  {
    if starters == [] then []
    else
      match FirstApplicable(s, starters[0], cands, 0)
      case None => SequentialGreedy(s, starters[1..], cands)
      case Some(k) =>
        [(starters[0], cands[k])]
          + SequentialGreedy(Substituted(s, cands[k].id, starters[0].id).value, starters[1..], Remove(cands, k))
  }

  /** At-risk starters, lowest value first, against playable reserves, highest value first, judged in sequence. */
  function CorrectedSubstitutions(s: seq<Player>): seq<(Player, Player)>
  {
    SequentialGreedy(s, SortByValue(AtRisk(s), false), SortByValue(PlayableReserves(s, false), true))
  }

  /** Pairs judged in sequence are applied without a refusal. */
  lemma {:induction false} SequentialGreedyApplies(s: seq<Player>, starters: seq<Player>, cands: seq<Player>)
    ensures ApplyPairs(s, SequentialGreedy(s, starters, cands)).1 == None
    decreases |starters|
  {
    if starters != [] {
      match FirstApplicable(s, starters[0], cands, 0)
      case None =>
        SequentialGreedyApplies(s, starters[1..], cands);
      case Some(k) =>
        var t := Substituted(s, cands[k].id, starters[0].id).value;
        var rest := SequentialGreedy(t, starters[1..], Remove(cands, k));
        SequentialGreedyApplies(t, starters[1..], Remove(cands, k));
        assert ([(starters[0], cands[k])] + rest)[1..] == rest;
    }
  }

  /** The corrected substitutions never stop midway. */
  lemma CorrectedSubstitutionsApply(s: seq<Player>)
    ensures ApplyPairs(s, CorrectedSubstitutions(s)).1 == None
  {
    SequentialGreedyApplies(s, SortByValue(AtRisk(s), false), SortByValue(PlayableReserves(s, false), true));
  }

  /** On the lineup of the stale validation only the first pair is kept, and it applies. */
  lemma CorrectedOnStaleExample(s: seq<Player>, i1: nat, j1: nat, i2: nat, j2: nat)
    requires TwoDefendersTwoForwards(s, i1, j1, i2, j2)
    ensures SequentialGreedy(s, [s[i1], s[i2]], [s[j1], s[j2]]) == [(s[i1], s[j1])]
    ensures ApplyPairs(s, [(s[i1], s[j1])]).1 == None
  {
    SecondSwapRefused(s, i1, j1, i2, j2);
    SequentialFirstOnly(s, s[i1], s[i2], s[j1], s[j2]);
    ApplyOne(s, s[i1], s[j1]);
  }

  /** The corrected service on the roster of the stale validation keeps the first pair only, and applies it. */
  lemma CorrectedOnStaleRoster(s: seq<Player>, i1: nat, j1: nat, i2: nat, j2: nat)
    requires StaleRoster(s, i1, j1, i2, j2)
    ensures CorrectedSubstitutions(s) == [(s[i1], s[j1])]
    ensures ApplyPairs(s, CorrectedSubstitutions(s)).1 == None
  {
    StaleSorted(s, i1, j1, i2, j2);
    CorrectedOnStaleExample(s, i1, j1, i2, j2);
  }

  /** The first pair applies and the second is then refused: only the first is kept. */
  lemma SequentialFirstOnly(s: seq<Player>, a1: Player, a2: Player, b1: Player, b2: Player)
    requires Substituted(s, b1.id, a1.id).Ok?
    requires Substituted(Substituted(s, b1.id, a1.id).value, b2.id, a2.id).Err?
    ensures SequentialGreedy(s, [a1, a2], [b1, b2]) == [(a1, b1)]
  {
    SequentialOneRefused(Substituted(s, b1.id, a1.id).value, a2, b2);
    var rest, left := [a2], [b1, b2][1..];
    assert left == [b2];
    assert [a1] + rest == [a1, a2];
    SequentialTakesFirst(s, a1, rest, [b1, b2]);
  }

  /** A single refused candidate leaves the lone starter unpaired. */
  lemma SequentialOneRefused(t: seq<Player>, a: Player, b: Player)
    requires Substituted(t, b.id, a.id).Err?
    ensures SequentialGreedy(t, [a], [b]) == []
  {
    var none: seq<Player> := [];
    assert [a] + none == [a];
    SequentialSkips(t, a, none, [b]);
    assert SequentialGreedy(t, none, [b]) == [];
  }

  /** One accepted pair applies without error. */
  lemma ApplyOne(s: seq<Player>, a: Player, b: Player)
    requires Substituted(s, b.id, a.id).Ok?
    ensures ApplyPairs(s, [(a, b)]).1 == None
  {
    var pairs := [(a, b)];
    assert pairs[0] == (a, b) && pairs[1..] == [];
    assert ApplyPairs(Substituted(s, b.id, a.id).value, []).1 == None;
  }


  /** A starter whose swap with the first candidate applies is paired with it, on the swapped roster. */
  lemma SequentialTakesFirst(s: seq<Player>, starter: Player, rest: seq<Player>, cands: seq<Player>)
    requires cands != [] && Substituted(s, cands[0].id, starter.id).Ok?
    ensures SequentialGreedy(s, [starter] + rest, cands) ==
      [(starter, cands[0])] + SequentialGreedy(Substituted(s, cands[0].id, starter.id).value, rest, cands[1..])
  {
    assert FirstApplicable(s, starter, cands, 0) == Some(0);
    assert ([starter] + rest)[1..] == rest;
    assert Remove(cands, 0) == cands[1..];
  }

  /** A starter whose swap with the only candidate is refused is left unpaired. */
  lemma SequentialSkips(s: seq<Player>, starter: Player, rest: seq<Player>, cands: seq<Player>)
    requires |cands| == 1 && Substituted(s, cands[0].id, starter.id).Err?
    ensures SequentialGreedy(s, [starter] + rest, cands) == SequentialGreedy(s, rest, cands)
  {
    assert FirstApplicable(s, starter, cands, 1) == None;
    assert FirstApplicable(s, starter, cands, 0) == None;
    assert ([starter] + rest)[1..] == rest;
  }

  /** `make_substitutions` with the pairs judged in sequence: every pair found is applied. */
  method MakeSequentialSubstitutions(roster: Roster) returns (error: Option<string>)
    modifies roster
    ensures error.None?
    ensures roster.players == ApplyPairs(old(roster.players), CorrectedSubstitutions(old(roster.players))).0
  {
    CorrectedSubstitutionsApply(roster.players);
    error := ApplySubstitutions(roster, CorrectedSubstitutions(roster.players));
  }

  /**
   * `run` of the gameweek manager: every cycle refreshes the roster (the
   * server's answers are the `fetched` rosters, one per cycle) and makes
   * the substitutions; an error in one cycle is logged and the next cycle
   * runs regardless.  The loop only stops from outside, so the model
   * follows it through as many cycles as `fetched` holds.
   */
  method RunGameweekManager(roster: Roster, fetched: seq<seq<Player>>) returns (errors: seq<Option<string>>)
    modifies roster
    ensures |errors| == |fetched|
    ensures forall i :: 0 <= i < |fetched| ==>
      errors[i] == ApplyPairs(fetched[i], OptimalSubstitutions(fetched[i])).1
    ensures fetched != [] ==>
      roster.players == ApplyPairs(fetched[|fetched| - 1], OptimalSubstitutions(fetched[|fetched| - 1])).0
    ensures fetched == [] ==> roster.players == old(roster.players)
  {
    errors := [];
    var i := 0;
    while i < |fetched|
      invariant 0 <= i <= |fetched| && |errors| == i
      invariant forall j :: 0 <= j < i ==>
        errors[j] == ApplyPairs(fetched[j], OptimalSubstitutions(fetched[j])).1
      invariant i > 0 ==>
        roster.players == ApplyPairs(fetched[i - 1], OptimalSubstitutions(fetched[i - 1])).0
      invariant i == 0 ==> roster.players == old(roster.players)
    {
      roster.players := fetched[i];
      var error := MakeSubstitutions(roster);
      errors := errors + [error];
      i := i + 1;
    }
  }
}
