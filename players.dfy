/**
 * Players: the shared player record, the four gameweek status predicates,
 * the position and status-icon id maps and the small status bonus.
 */
module Players {
  import opened Wrappers

  /** Roster positions: goalkeeper, defender, midfielder, forward. */
  datatype Position = G | D | M | F

  /** The short name the roster code uses for a position. */
  function ShortName(p: Position): string
  {
    match p
    case G => "G"
    case D => "D"
    case M => "M"
    case F => "F"
  }

  /**
   * One rostered player as the lineup code sees it.  `statuses` holds the
   * status names of the player's icons, `value` is the fantasy value for the
   * gameweek and `history` the points of the recent gameweeks, in the order
   * of the stats table they are read from.
   */
  datatype Player = Player(
    id: string,
    name: string,
    team: string,
    opponent: string,
    homeOrAway: string,
    position: Position,
    starter: bool,
    locked: bool,
    statuses: set<string>,
    value: real,
    history: seq<real>)

  const STARTING: string := "starting"
  const BENCHED: string := "benched"
  const OUT: string := "out"
  const EXPECTED_TO_PLAY: string := "expected-to-play"
  const OUT_FOR_NEXT_GAME: string := "out-for-next-game"
  const UNCERTAIN: string := "uncertain-gametime-decision"
  const SUSPENDED: string := "suspended"

  /** The statuses that mean the player will not play. */
  const NOT_PLAYING: set<string> := {BENCHED, SUSPENDED, OUT, OUT_FOR_NEXT_GAME}

  predicate BenchedOrOut(statuses: set<string>) { statuses * NOT_PLAYING != {} }

  predicate Uncertain(statuses: set<string>) { UNCERTAIN in statuses }

  predicate Starting(statuses: set<string>) { STARTING in statuses }

  /** A player without any status counts as expected to play. */
  predicate ExpectedToPlay(statuses: set<string>) { statuses == {} || EXPECTED_TO_PLAY in statuses }

  /**
   * The default "expected to play" applies only to a player with no status at
   * all: a player carrying any flag but `expected-to-play` is not expected.
   */
  lemma ExpectedOnlyWithoutFlags(statuses: set<string>)
    ensures ExpectedToPlay(statuses) && EXPECTED_TO_PLAY !in statuses
      <==> statuses == {}
    ensures statuses == {} ==> !Starting(statuses) && !Uncertain(statuses) && !BenchedOrOut(statuses)
  {
  }

  // ---------------------------------------------------------------------
  // Position ids

  const POSITION_MAP_BY_ID: map<string, string> :=
    map["704" := "G", "703" := "D", "702" := "M", "701" := "F"]

  /** Written out as the inversion of POSITION_MAP_BY_ID; PositionMapsInverse proves it is one. */
  const POSITION_MAP_BY_SHORT_NAME: map<string, string> :=
    map["G" := "704", "D" := "703", "M" := "702", "F" := "701"]

  /** `POSITION_MAP_BY_ID.get(id)`. */
  function PositionShortNameOfId(id: string): Option<string>
  {
    if id in POSITION_MAP_BY_ID then Some(POSITION_MAP_BY_ID[id]) else None
  }

  /** `POSITION_MAP_BY_SHORT_NAME.get(name)`. */
  function PositionIdOfShortName(name: string): Option<string>
  {
    if name in POSITION_MAP_BY_SHORT_NAME then Some(POSITION_MAP_BY_SHORT_NAME[name]) else None
  }

  /** The short-name map is exactly the inverse of the id map. */
  lemma PositionMapsInverse(id: string, name: string)
    ensures PositionShortNameOfId(id) == Some(name) <==> PositionIdOfShortName(name) == Some(id)
    ensures PositionShortNameOfId(id).Some? <==> id in {"704", "703", "702", "701"}
    ensures PositionIdOfShortName(name).Some? <==> name in {"G", "D", "M", "F"}
  {
  }

  /** Changing the position by short name and reading it back gives the same letter. */
  lemma PositionRoundTrip(p: Position)
    ensures PositionIdOfShortName(ShortName(p)).Some?
    ensures PositionShortNameOfId(PositionIdOfShortName(ShortName(p)).value) == Some(ShortName(p))
  {
    match p
    case G => PositionMapsInverse("704", "G");
    case D => PositionMapsInverse("703", "D");
    case M => PositionMapsInverse("702", "M");
    case F => PositionMapsInverse("701", "F");
  }

  // ---------------------------------------------------------------------
  // Status icons

  const STATUS_ICON_MAP_BY_ID: map<string, string> :=
    map["12" := STARTING, "34" := BENCHED, "15" := OUT, "32" := EXPECTED_TO_PLAY,
        "30" := OUT_FOR_NEXT_GAME, "1" := UNCERTAIN, "6" := SUSPENDED]

  /** The status names of the icons whose type id is known; unknown ids are dropped. */
  function IconStatuses(iconTypeIds: seq<string>): set<string>
  {
    set i | 0 <= i < |iconTypeIds| && iconTypeIds[i] in STATUS_ICON_MAP_BY_ID
      :: STATUS_ICON_MAP_BY_ID[iconTypeIds[i]]
  }

  /** Is some icon of the list one of `ids`? */
  predicate HasIcon(iconTypeIds: seq<string>, ids: set<string>)
  {
    exists i :: 0 <= i < |iconTypeIds| && iconTypeIds[i] in ids
  }

  /** No two icon type ids map to the same status, so a status names its icon. */
  lemma IconMapInjective(a: string, b: string)
    requires a in STATUS_ICON_MAP_BY_ID && b in STATUS_ICON_MAP_BY_ID
    ensures STATUS_ICON_MAP_BY_ID[a] == STATUS_ICON_MAP_BY_ID[b] <==> a == b
  {
  }

  lemma HasStatus(iconTypeIds: seq<string>, typeId: string, status: string)
    requires typeId in STATUS_ICON_MAP_BY_ID && STATUS_ICON_MAP_BY_ID[typeId] == status
    ensures status in IconStatuses(iconTypeIds) <==> HasIcon(iconTypeIds, {typeId})
  {
    if status in IconStatuses(iconTypeIds) {
      var i :| 0 <= i < |iconTypeIds| && iconTypeIds[i] in STATUS_ICON_MAP_BY_ID
        && STATUS_ICON_MAP_BY_ID[iconTypeIds[i]] == status;
      IconMapInjective(iconTypeIds[i], typeId);
    }
    if HasIcon(iconTypeIds, {typeId}) {
      var i :| 0 <= i < |iconTypeIds| && iconTypeIds[i] in {typeId};
      assert STATUS_ICON_MAP_BY_ID[iconTypeIds[i]] in IconStatuses(iconTypeIds);
    }
  }

  /**
   * The status predicates of a player built from its icons, stated on the
   * icon type ids: "12" starting, "1" uncertain, one of "34", "15", "30", "6"
   * not playing, and "32" or no known icon at all expected to play.
   */
  lemma IconStatusPredicates(iconTypeIds: seq<string>)
    ensures Starting(IconStatuses(iconTypeIds)) <==> HasIcon(iconTypeIds, {"12"})
    ensures Uncertain(IconStatuses(iconTypeIds)) <==> HasIcon(iconTypeIds, {"1"})
    ensures BenchedOrOut(IconStatuses(iconTypeIds)) <==> HasIcon(iconTypeIds, {"34", "15", "30", "6"})
    ensures ExpectedToPlay(IconStatuses(iconTypeIds)) <==>
      HasIcon(iconTypeIds, {"32"}) || !HasIcon(iconTypeIds, STATUS_ICON_MAP_BY_ID.Keys)
  {
    HasStatus(iconTypeIds, "12", STARTING);
    HasStatus(iconTypeIds, "1", UNCERTAIN);
    BenchedOrOutIcons(iconTypeIds);
    ExpectedIcons(iconTypeIds);
  }

  /** Benched or out exactly when one of the four not-playing icons is present. */
  lemma BenchedOrOutIcons(iconTypeIds: seq<string>)
    ensures BenchedOrOut(IconStatuses(iconTypeIds)) <==> HasIcon(iconTypeIds, {"34", "15", "30", "6"})
  {
    var s := IconStatuses(iconTypeIds);
    if HasIcon(iconTypeIds, {"34", "15", "30", "6"}) {
      var i :| 0 <= i < |iconTypeIds| && iconTypeIds[i] in {"34", "15", "30", "6"};
      assert STATUS_ICON_MAP_BY_ID[iconTypeIds[i]] in s * NOT_PLAYING;
    }
    if BenchedOrOut(s) {
      var x :| x in s * NOT_PLAYING;
      var id := if x == BENCHED then "34" else if x == OUT then "15" else if x == OUT_FOR_NEXT_GAME then "30" else "6";
      HasStatus(iconTypeIds, id, x);
      var i :| 0 <= i < |iconTypeIds| && iconTypeIds[i] in {id};
      assert iconTypeIds[i] in {"34", "15", "30", "6"};
    }
  }

  /** Expected to play with the expected icon, or with no known icon at all. */
  lemma ExpectedIcons(iconTypeIds: seq<string>)
    ensures ExpectedToPlay(IconStatuses(iconTypeIds)) <==>
      HasIcon(iconTypeIds, {"32"}) || !HasIcon(iconTypeIds, STATUS_ICON_MAP_BY_ID.Keys)
  {
    var s := IconStatuses(iconTypeIds);
    HasStatus(iconTypeIds, "32", EXPECTED_TO_PLAY);
    if HasIcon(iconTypeIds, STATUS_ICON_MAP_BY_ID.Keys) {
      var i :| 0 <= i < |iconTypeIds| && iconTypeIds[i] in STATUS_ICON_MAP_BY_ID.Keys;
      assert STATUS_ICON_MAP_BY_ID[iconTypeIds[i]] in s;
    }
  }


  /** The bonus `update_value_for_gameweek` adds: 3 starting, else 2 expected, else 1 uncertain, else 0. */
  function StatusBonus(statuses: set<string>): (b: int)
    ensures 0 <= b <= 3
    ensures b == 3 <==> Starting(statuses)
    ensures b == 0 <==> !Starting(statuses) && !ExpectedToPlay(statuses) && !Uncertain(statuses)
  {
    if Starting(statuses) then 3
    else if ExpectedToPlay(statuses) then 2
    else if Uncertain(statuses) then 1
    else 0
  }

  // ---------------------------------------------------------------------
  // Roster status ids

  const STATUS_ID_STARTER: string := "1"
  const STATUS_ID_RESERVE: string := "2"

  predicate IsStarterStatusId(statusId: string) { statusId == STATUS_ID_STARTER }

  /** The status id after `swap_starting_status`. */
  function SwappedStatusId(statusId: string): string
  {
    if IsStarterStatusId(statusId) then STATUS_ID_RESERVE else STATUS_ID_STARTER
  }

  /**
   * A swap always negates the starter flag, and swapping twice gives the
   * original id back exactly when that id was "1" or "2".
   */
  lemma SwapStatusIdTwice(statusId: string)
    ensures IsStarterStatusId(SwappedStatusId(statusId)) == !IsStarterStatusId(statusId)
    ensures SwappedStatusId(SwappedStatusId(statusId)) == statusId
      <==> statusId in {STATUS_ID_STARTER, STATUS_ID_RESERVE}
  {
  }

  /** `swap_starting_status` on a flag that may be None (falsy): None becomes True. */
  function SwappedStarterFlag(flag: Option<bool>): Option<bool>
  {
    if flag == Some(true) then Some(false) else Some(true)
  }

  /** The flag after a swap is always set; swapping twice restores every set flag. */
  lemma SwapStarterFlagTwice(flag: Option<bool>)
    ensures SwappedStarterFlag(flag).Some?
    ensures SwappedStarterFlag(flag) == Some(!(flag == Some(true)))
    ensures SwappedStarterFlag(SwappedStarterFlag(flag)) == flag <==> flag.Some?
  {
    match flag
    case None =>
    case Some(b) =>
  }
}
