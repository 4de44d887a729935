/** The feature encoding of the pick model: 72 numbers per pick of the season (or per imagined
    game), the rule deciding which players get a classifier, and the row a classifier is asked
    about. Training columns and prediction rows are both tied to one encoding, `SlotValue`. */
module Features {
  import opened Seqs
  import opened Strings
  import opened Records

  const ALL_TEAMS: seq<Team> := [
    "ARI", "ATL", "BAL", "BUF", "CAR", "CHI", "CIN", "CLE", "DAL", "DEN",
    "DET", "GB", "HOU", "IND", "JAX", "KC", "LAC", "LAR", "LV", "MIA",
    "MIN", "NE", "NO", "NYG", "NYJ", "PHI", "PIT", "SEA", "SF", "TB",
    "TEN", "WAS"]

  /** A player needs this many pick rows before a classifier is fitted for them. */
  const MIN_ROWS: nat := 20

  /** The values the training data uses for a missing temperature and a missing wind speed. */
  const DEFAULT_TEMP: real := 65.0
  const DEFAULT_WIND: real := 5.0

  const LEADING: seq<string> := ["spread", "spread_abs", "week"]
  const TRAILING: seq<string> := ["cross_conference", "indoor", "temp", "wind", "rain_snow"]

  function HomeSlot(t: Team): string { "home_" + t }
  function AwaySlot(t: Team): string { "away_" + t }

  /** `home_T` and `away_T` for every team of `ts`, interleaved, in the order of `ts`. */
  function TeamSlots(ts: seq<Team>): (r: seq<string>)
    ensures |r| == 2 * |ts|
    ensures forall i :: 0 <= i < |ts| ==> r[2 * i] == HomeSlot(ts[i]) && r[2 * i + 1] == AwaySlot(ts[i])
  {
    if ts == [] then [] else TeamSlots(ts[..|ts| - 1]) + [HomeSlot(ts[|ts| - 1]), AwaySlot(ts[|ts| - 1])]
  }

  /** The column order of the feature matrix. */
  function FeatureNames(): seq<string>
  {
    LEADING + TeamSlots(ALL_TEAMS) + TRAILING
  }

  /** No fixed feature name is a team slot, a home slot is never an away slot, and a slot names
      its team. */
  lemma SlotNames(t: Team, u: Team)
    ensures HomeSlot(t) !in LEADING + TRAILING && AwaySlot(t) !in LEADING + TRAILING
    ensures HomeSlot(t) != AwaySlot(u)
    ensures HomeSlot(t) == HomeSlot(u) <==> t == u
    ensures AwaySlot(t) == AwaySlot(u) <==> t == u
  {
    assert HomeSlot(t)[0] == 'h' && AwaySlot(t)[0] == 'a' && AwaySlot(u)[0] == 'a';
    assert HomeSlot(t)[5..] == t && HomeSlot(u)[5..] == u;
    assert AwaySlot(t)[5..] == t && AwaySlot(u)[5..] == u;
  }

  lemma TeamSlotsNoDup(ts: seq<Team>)
    requires NoDup(ts)
    ensures NoDup(TeamSlots(ts))
  {
    var r := TeamSlots(ts);
    forall k, l | 0 <= k < l < |r| ensures r[k] != r[l] {
      var i, j := k / 2, l / 2;
      assert k == 2 * i || k == 2 * i + 1;
      assert l == 2 * j || l == 2 * j + 1;
      SlotNames(ts[i], ts[j]);
      SlotNames(ts[j], ts[i]);
    }
  }

  /** A name is in the team slots exactly when it is the home or the away slot of one of the teams. */
  lemma TeamSlotsMembers(ts: seq<Team>, t: Team)
    ensures HomeSlot(t) in TeamSlots(ts) <==> t in ts
    ensures AwaySlot(t) in TeamSlots(ts) <==> t in ts
  {
    var r := TeamSlots(ts);
    if t in ts {
      var i :| 0 <= i < |ts| && ts[i] == t;
      assert r[2 * i] == HomeSlot(t) && r[2 * i + 1] == AwaySlot(t);
    }
    if HomeSlot(t) in r {
      var k :| 0 <= k < |r| && r[k] == HomeSlot(t);
      var i := k / 2;
      SlotNames(t, ts[i]);
      assert k == 2 * i || k == 2 * i + 1;
      assert ts[i] in ts;
    }
    if AwaySlot(t) in r {
      var k :| 0 <= k < |r| && r[k] == AwaySlot(t);
      var i := k / 2;
      SlotNames(ts[i], t);
      assert k == 2 * i || k == 2 * i + 1;
      assert ts[i] in ts;
    }
  }

  lemma AllTeamsDistinct()
    ensures NoDup(ALL_TEAMS)
  {
  }

  /** The feature order: 3 + 64 + 5 = 72 distinct names, with a home and an away slot for exactly
      the teams of `ALL_TEAMS`. */
  lemma FeatureNamesShape()
    ensures |FeatureNames()| == 72
    ensures NoDup(FeatureNames())
    ensures forall t :: HomeSlot(t) in FeatureNames() <==> t in ALL_TEAMS
    ensures forall t :: AwaySlot(t) in FeatureNames() <==> t in ALL_TEAMS
  {
    AllTeamsDistinct();
    TeamSlotsNoDup(ALL_TEAMS);
    var slots := TeamSlots(ALL_TEAMS);
    forall n | n in slots ensures n !in LEADING && n !in TRAILING {
      var k :| 0 <= k < |slots| && slots[k] == n;
      var i := k / 2;
      assert k == 2 * i || k == 2 * i + 1;
      SlotNames(ALL_TEAMS[i], ALL_TEAMS[i]);
    }
    NoDupAppend(LEADING, slots);
    NoDupAppend(LEADING + slots, TRAILING);
    forall t ensures HomeSlot(t) in FeatureNames() <==> t in ALL_TEAMS {
      SlotNames(t, t);
      TeamSlotsMembers(ALL_TEAMS, t);
    }
    forall t ensures AwaySlot(t) in FeatureNames() <==> t in ALL_TEAMS {
      SlotNames(t, t);
      TeamSlotsMembers(ALL_TEAMS, t);
    }
  }

  // ---------------------------------------------------------------------------
  // The encoding

  /** The conditions of one game as the model sees them. The spread is in half-points, negative
      when the home team is favoured. */
  datatype Scenario = Scenario(home: Team, away: Team, spread: int, week: int, indoor: bool,
                               temp: real, wind: real, rainSnow: bool, crossConf: bool)

  function Flag(b: bool): real { if b then 1.0 else 0.0 }

  /** A spread of `h` half-points, in points. */
  function Points(h: int): real { h as real / 2.0 }

  /** The value of feature `name` for a scenario. A team slot is 1 when it is the home team's home
      slot or the away team's away slot and 0 otherwise; every name the encoding does not know is 0.
      Team slots are told apart by their first letter, which no other feature name shares. */
  function SlotValue(name: string, sc: Scenario): real
  {
    if |name| > 0 && (name[0] == 'h' || name[0] == 'a') then
      Flag(name == HomeSlot(sc.home) || name == AwaySlot(sc.away))
    else FixedValue(name, sc)
  }

  function FixedValue(name: string, sc: Scenario): real
  {
    if name == "spread" then Points(sc.spread)
    else if name == "spread_abs" then Points(Abs(sc.spread))
    else if name == "week" then sc.week as real
    else if name == "cross_conference" then Flag(sc.crossConf)
    else if name == "indoor" then Flag(sc.indoor)
    else if name == "temp" then sc.temp
    else if name == "wind" then sc.wind
    else if name == "rain_snow" then Flag(sc.rainSnow)
    else 0.0
  }

  /** One-hot slots: `home_T` is 1 exactly for the home team and `away_T` exactly for the away team. */
  lemma SlotValueTeams(t: Team, sc: Scenario)
    ensures SlotValue(HomeSlot(t), sc) == Flag(t == sc.home)
    ensures SlotValue(AwaySlot(t), sc) == Flag(t == sc.away)
  {
    SlotNames(t, sc.home);
    SlotNames(t, sc.away);
    SlotNames(sc.home, t);
  }

  /** A team outside `ALL_TEAMS` has no slot, so its one-hot entry is dropped from the row. */
  lemma UnknownTeamHasNoSlot(t: Team)
    requires t !in ALL_TEAMS
    ensures HomeSlot(t) !in FeatureNames() && AwaySlot(t) !in FeatureNames()
  {
    FeatureNamesShape();
  }

  function IsHomeHot(sc: Scenario): Team -> bool
  {
    t => SlotValue(HomeSlot(t), sc) == 1.0
  }

  function IsAwayHot(sc: Scenario): Team -> bool
  {
    t => SlotValue(AwaySlot(t), sc) == 1.0
  }

  /** Exactly one home slot and one away slot are hot when both teams are known; none when unknown. */
  lemma OneHot(sc: Scenario)
    ensures Count(ALL_TEAMS, IsHomeHot(sc)) == if sc.home in ALL_TEAMS then 1 else 0
    ensures Count(ALL_TEAMS, IsAwayHot(sc)) == if sc.away in ALL_TEAMS then 1 else 0
  {
    AllTeamsDistinct();
    OneHotAmong(ALL_TEAMS, sc);
  }

  lemma HomeHotIff(t: Team, sc: Scenario)
    ensures IsHomeHot(sc)(t) == (t == sc.home)
  {
    SlotValueTeams(t, sc);
  }

  lemma AwayHotIff(t: Team, sc: Scenario)
    ensures IsAwayHot(sc)(t) == (t == sc.away)
  {
    var v := SlotValue(AwaySlot(t), sc);
    SlotValueTeams(t, sc);
    assert v == 1.0 <==> t == sc.away;
  }

  lemma OneHotAmong(ts: seq<Team>, sc: Scenario)
    requires NoDup(ts)
    ensures Count(ts, IsHomeHot(sc)) == if sc.home in ts then 1 else 0
    ensures Count(ts, IsAwayHot(sc)) == if sc.away in ts then 1 else 0
  {
    HomeHotCount(ts, sc);
    AwayHotCount(ts, sc);
  }

  lemma HomeHotCount(ts: seq<Team>, sc: Scenario)
    requires NoDup(ts)
    ensures Count(ts, IsHomeHot(sc)) == if sc.home in ts then 1 else 0
  {
    forall t ensures IsHomeHot(sc)(t) == (t == sc.home) {
      HomeHotIff(t, sc);
    }
    CountSingle(ts, IsHomeHot(sc), sc.home);
  }

  lemma AwayHotCount(ts: seq<Team>, sc: Scenario)
    requires NoDup(ts)
    ensures Count(ts, IsAwayHot(sc)) == if sc.away in ts then 1 else 0
  {
    forall t ensures IsAwayHot(sc)(t) == (t == sc.away) {
      AwayHotIff(t, sc);
    }
    CountSingle(ts, IsAwayHot(sc), sc.away);
  }

  /** The row of values a classifier is given for a scenario, in the order of `names`. */
  function Vector(names: seq<string>, sc: Scenario): (x: seq<real>)
    ensures |x| == |names|
  {
    seq(|names|, i requires 0 <= i < |names| => SlotValue(names[i], sc))
  }

  // ---------------------------------------------------------------------------
  // Training rows

  /** A pick joined with the row of its game. */
  type Merged = (Pick, Game)

  /** The picks joined with the first row of every (week, game) of the games table, in pick order;
      a pick whose game is absent is dropped. */
  function Merge(picks: seq<Pick>, games: seq<Game>): (rows: seq<Merged>)
    ensures |rows| <= |picks|
    ensures forall q :: q in rows ==> q.0 in picks && q.1 in games && PickKey(q.0) == GameKey(q.1)
  {
    var uniq := DedupBy(games, GameKey);
    JoinUniqueLength(picks, uniq, PickKey, GameKey);
    Join(picks, uniq, PickKey, GameKey)
  }

  function TeamIdOf(m: TeamMeta): Team { m.teamId }

  predicate HasDivision(m: TeamMeta) { m.division.Some? }

  /** The current teams: the first metadata row of every team id, of those the ones with a division. */
  function CurrentTeams(meta: seq<TeamMeta>): (kept: seq<TeamMeta>)
    ensures UniqueKeys(kept, TeamIdOf)
    ensures forall m :: m in kept <==> m in DedupBy(meta, TeamIdOf) && m.division.Some?
  {
    var d := DedupBy(meta, TeamIdOf);
    var kept := Filter(d, HasDivision);
    assert UniqueKeys(kept, TeamIdOf) by {
      forall i, j | 0 <= i < j < |kept| ensures kept[i].teamId != kept[j].teamId {
        FilterKeepsOrder(d, HasDivision, i, j);
      }
    }
    kept
  }

  /** Rows at positions i < j of a filtered sequence come from positions a < b of the original. */
  lemma {:induction false} FilterKeepsOrder<T(!new)>(s: seq<T>, p: T -> bool, i: nat, j: nat)
    requires i < j < |Filter(s, p)|
    ensures exists a, b :: 0 <= a < b < |s| && s[a] == Filter(s, p)[i] && s[b] == Filter(s, p)[j]
  {
    var init := s[..|s| - 1];
    var f := Filter(init, p);
    if j < |f| {
      FilterKeepsOrder(init, p, i, j);
      var a, b :| 0 <= a < b < |init| && init[a] == f[i] && init[b] == f[j];
      assert s[a] == init[a] && s[b] == init[b];
    } else {
      assert Filter(s, p)[j] == s[|s| - 1];
      assert Filter(s, p)[i] == f[i] && f[i] in f;
      var a :| 0 <= a < |init| && init[a] == f[i];
      assert s[a] == init[a];
    }
  }

  /** `conf_map`: the conference of every current team id. */
  function ConfMap(meta: seq<TeamMeta>): (cm: map<Team, Option<string>>)
    ensures forall t :: t in cm <==> t in Map(CurrentTeams(meta), TeamIdOf)
    ensures forall m :: m in CurrentTeams(meta) ==> m.teamId in cm && cm[m.teamId] == m.conference
  {
    ConfEntries(CurrentTeams(meta))
  }

  /** The id-to-conference dictionary of rows with distinct ids. */
  function ConfEntries(kept: seq<TeamMeta>): (cm: map<Team, Option<string>>)
    requires UniqueKeys(kept, TeamIdOf)
    ensures forall t :: t in cm <==> t in Map(kept, TeamIdOf)
    ensures forall m :: m in kept ==> m.teamId in cm && cm[m.teamId] == m.conference
  {
    if kept == [] then map[] else
    var init := kept[..|kept| - 1];
    var last := kept[|kept| - 1];
    LastKeyIsNew(kept);
    var cm0 := ConfEntries(init);
    assert Map(kept, TeamIdOf) == Map(init, TeamIdOf) + [last.teamId];
    assert forall m :: m in kept ==> m in init || m == last by {
      assert kept == init + [last];
    }
    cm0[last.teamId := last.conference]
  }

  /** Without its last row, a table with distinct ids still has distinct ids, none of them the
      last row's. */
  lemma LastKeyIsNew(kept: seq<TeamMeta>)
    requires UniqueKeys(kept, TeamIdOf) && kept != []
    ensures UniqueKeys(kept[..|kept| - 1], TeamIdOf)
    ensures kept[|kept| - 1].teamId !in Map(kept[..|kept| - 1], TeamIdOf)
    ensures forall m :: m in kept[..|kept| - 1] ==> m.teamId != kept[|kept| - 1].teamId
  {
    var init := kept[..|kept| - 1];
    forall i, j | 0 <= i < j < |init| ensures init[i].teamId != init[j].teamId {
      assert init[i] == kept[i] && init[j] == kept[j];
    }
    forall i | 0 <= i < |init| ensures init[i].teamId != kept[|kept| - 1].teamId {
      assert init[i] == kept[i];
    }
  }

  /** A column mapped through `conf_map`: a team that is not a key gives a missing value. */
  function Lookup(cm: map<Team, Option<string>>, t: Team): Option<string>
  {
    if t in cm then cm[t] else None
  }

  /** Conference inequality as the feature computes it: a missing value is unequal to everything. */
  predicate CrossConference(a: Option<string>, b: Option<string>)
  {
    !(a.Some? && b.Some? && a.value == b.value)
  }

  /** The weather text of a game, empty when missing. */
  function WeatherText(g: Game): string
  {
    if g.detail.Some? then g.detail.value else ""
  }

  predicate Indoor(g: Game)
  {
    ContainsIgnoreCase(WeatherText(g), "indoor") || ContainsIgnoreCase(WeatherText(g), "retractable")
  }

  predicate RainSnow(g: Game)
  {
    ContainsIgnoreCase(WeatherText(g), "rain") || ContainsIgnoreCase(WeatherText(g), "snow")
  }

  /** The conditions of a merged pick row, with the defaults of the training data. */
  function ScenarioOf(q: Merged, cm: map<Team, Option<string>>): Scenario
  {
    var g := q.1;
    Scenario(g.home, g.away,
             if g.spread.Some? then g.spread.value else 0,
             q.0.week,
             Indoor(g),
             if g.temperature.Some? then g.temperature.value else DEFAULT_TEMP,
             if g.wind.Some? then g.wind.value else DEFAULT_WIND,
             RainSnow(g),
             CrossConference(Lookup(cm, g.home), Lookup(cm, g.away)))
  }

  /** The defaults of a training row: a missing spread is 0, `spread_abs` is its size, a missing
      temperature is 65 and a missing wind is 5. */
  lemma TrainingDefaults(q: Merged, cm: map<Team, Option<string>>)
    ensures q.1.spread.None? ==> SlotValue("spread", ScenarioOf(q, cm)) == 0.0
    ensures q.1.spread.Some? ==> SlotValue("spread", ScenarioOf(q, cm)) == Points(q.1.spread.value)
    ensures SlotValue("spread_abs", ScenarioOf(q, cm)) >= 0.0
    ensures SlotValue("spread_abs", ScenarioOf(q, cm)) == SlotValue("spread", ScenarioOf(q, cm)) ||
            SlotValue("spread_abs", ScenarioOf(q, cm)) == -SlotValue("spread", ScenarioOf(q, cm))
    ensures q.1.temperature.None? ==> SlotValue("temp", ScenarioOf(q, cm)) == 65.0
    ensures q.1.wind.None? ==> SlotValue("wind", ScenarioOf(q, cm)) == 5.0
  {
  }

  /** `cross_conference` of two current teams is 0 exactly when they have the same known
      conference. */
  lemma CrossConferenceOfCurrentTeams(q: Merged, meta: seq<TeamMeta>, a: TeamMeta, b: TeamMeta)
    requires a in CurrentTeams(meta) && b in CurrentTeams(meta)
    requires a.teamId == q.1.home && b.teamId == q.1.away
    ensures SlotValue("cross_conference", ScenarioOf(q, ConfMap(meta))) == 0.0 <==>
            a.conference.Some? && a.conference == b.conference
  {
    var cm := ConfMap(meta);
    CrossConferenceSlot(q, cm);
    assert Lookup(cm, q.1.home) == a.conference;
    assert Lookup(cm, q.1.away) == b.conference;
  }

  lemma CrossConferenceSlot(q: Merged, cm: map<Team, Option<string>>)
    ensures SlotValue("cross_conference", ScenarioOf(q, cm)) ==
            Flag(CrossConference(Lookup(cm, q.1.home), Lookup(cm, q.1.away)))
  {
  }

  /** A team missing from the current teams (no metadata row, or no division) makes
      `cross_conference` 1. */
  lemma CrossConferenceOfUnknownTeam(q: Merged, meta: seq<TeamMeta>)
    requires q.1.home !in Map(CurrentTeams(meta), TeamIdOf) || q.1.away !in Map(CurrentTeams(meta), TeamIdOf)
    ensures SlotValue("cross_conference", ScenarioOf(q, ConfMap(meta))) == 1.0
  {
    var cm := ConfMap(meta);
    CrossConferenceSlot(q, cm);
    assert Lookup(cm, q.1.home) == None || Lookup(cm, q.1.away) == None;
  }

  /** `indoor` is set when the lower-cased weather text contains "indoor" or "retractable". */
  lemma IndoorFlag(q: Merged, cm: map<Team, Option<string>>)
    ensures SlotValue("indoor", ScenarioOf(q, cm)) == 1.0 <==>
            (exists i :: OccursAt(Lower(WeatherText(q.1)), Lower("indoor"), i)) ||
            (exists i :: OccursAt(Lower(WeatherText(q.1)), Lower("retractable"), i))
  {
    var text := Lower(WeatherText(q.1));
    assert SlotValue("indoor", ScenarioOf(q, cm)) == Flag(Indoor(q.1));
    ContainsIffOccurs(text, Lower("indoor"));
    ContainsIffOccurs(text, Lower("retractable"));
  }

  /** `rain_snow` is set when the lower-cased weather text contains "rain" or "snow". */
  lemma RainSnowFlag(q: Merged, cm: map<Team, Option<string>>)
    ensures SlotValue("rain_snow", ScenarioOf(q, cm)) == 1.0 <==>
            (exists i :: OccursAt(Lower(WeatherText(q.1)), Lower("rain"), i)) ||
            (exists i :: OccursAt(Lower(WeatherText(q.1)), Lower("snow"), i))
  {
    var text := Lower(WeatherText(q.1));
    assert SlotValue("rain_snow", ScenarioOf(q, cm)) == Flag(RainSnow(q.1));
    ContainsIffOccurs(text, Lower("rain"));
    ContainsIffOccurs(text, Lower("snow"));
  }

  /** `picked_home`: 1 when the pick is the home team, otherwise 0. */
  function PickedHome(q: Merged): (y: int)
    ensures y == 1 <==> q.0.pick == q.1.home
    ensures y == 0 || y == 1
  {
    if q.0.pick == q.1.home then 1 else 0
  }

  function PlayerOf(q: Merged): Player { q.0.player }

  /** A named table of equally long numeric columns. */
  datatype Frame = Frame(names: seq<string>, cols: map<string, seq<real>>)

  /** The column `name` of the training rows, row by row from the shared encoding. */
  function Column(rows: seq<Merged>, cm: map<Team, Option<string>>, name: string): (col: seq<real>)
    ensures |col| == |rows|
  {
    seq(|rows|, r requires 0 <= r < |rows| => SlotValue(name, ScenarioOf(rows[r], cm)))
  }

  /** The feature matrix of the training rows under the shared encoding. */
  function Encode(rows: seq<Merged>, cm: map<Team, Option<string>>): Frame
  {
    Frame(FeatureNames(), map n | n in FeatureNames() :: Column(rows, cm, n))
  }

  /** `build_features`: fills the feature frame column by column and returns it with the label and
      the player of every merged row. Every column agrees, row by row, with the encoding a
      prediction uses for the conditions of that row. */
  method BuildFeatures(picks: seq<Pick>, games: seq<Game>, meta: seq<TeamMeta>)
    returns (x: Frame, y: seq<int>, players: seq<Player>)
    ensures x == Encode(Merge(picks, games), ConfMap(meta))
    ensures |y| == |players| == |Merge(picks, games)| <= |picks|
    ensures y == Map(Merge(picks, games), PickedHome)
    ensures players == Map(Merge(picks, games), PlayerOf)
  {
    var merged := Merge(picks, games);
    var cm := ConfMap(meta);
    y := Map(merged, PickedHome);
    players := Map(merged, PlayerOf);

    var cols := LeadingColumns(merged, cm);
    var names;
    cols, names := TeamColumns(ALL_TEAMS, merged, cm, cols, LEADING);
    cols := TrailingColumns(merged, cm, cols);
    names := names + TRAILING;
    assert cols == map n | n in FeatureNames() :: Column(merged, cm, n);
    x := Frame(names, cols);
  }

  /** The one-hot columns `home_T` and `away_T` of every team of `teams`, in order. */
  method TeamColumns(teams: seq<Team>, merged: seq<Merged>, cm: map<Team, Option<string>>,
                     cols0: map<string, seq<real>>, names0: seq<string>)
    returns (cols: map<string, seq<real>>, names: seq<string>)
    requires forall n :: n in cols0 <==> n in names0
    requires forall n :: n in cols0 ==> cols0[n] == Column(merged, cm, n)
    ensures names == names0 + TeamSlots(teams)
    ensures forall n :: n in cols <==> n in names
    ensures forall n :: n in cols ==> cols[n] == Column(merged, cm, n)
  {
    cols, names := cols0, names0;
    for i := 0 to |teams|
      invariant names == names0 + TeamSlots(teams[..i])
      invariant ColumnsFor(merged, cm, cols, names)
    {
      var team := teams[i];
      var home, away := TeamColumnPair(merged, cm, team);
      ColumnsAdd(merged, cm, cols, names, HomeSlot(team), home);
      ColumnsAdd(merged, cm, cols[HomeSlot(team) := home], names + [HomeSlot(team)], AwaySlot(team), away);
      cols := cols[HomeSlot(team) := home][AwaySlot(team) := away];
      SlotsStep(teams, i);
      names := names + [HomeSlot(team), AwaySlot(team)];
    }
    assert teams[..|teams|] == teams;
  }

  /** Every name of `names` has its column in `cols`, and nothing else does. */
  ghost predicate ColumnsFor(merged: seq<Merged>, cm: map<Team, Option<string>>, cols: map<string, seq<real>>, names: seq<string>)
  {
    && (forall n :: n in cols <==> n in names)
    && (forall n :: n in cols ==> cols[n] == Column(merged, cm, n))
  }

  lemma ColumnsAdd(merged: seq<Merged>, cm: map<Team, Option<string>>, cols: map<string, seq<real>>,
                   names: seq<string>, n: string, col: seq<real>)
    requires ColumnsFor(merged, cm, cols, names) && col == Column(merged, cm, n)
    ensures ColumnsFor(merged, cm, cols[n := col], names + [n])
  {
  }

  lemma SlotsStep(teams: seq<Team>, i: nat)
    requires i < |teams|
    ensures TeamSlots(teams[..i + 1]) == TeamSlots(teams[..i]) + [HomeSlot(teams[i]), AwaySlot(teams[i])]
  {
    assert teams[..i + 1][..i] == teams[..i];
  }

  /** The columns `home_T` and `away_T`: 1 on the rows whose home (away) team is `team`. */
  method TeamColumnPair(merged: seq<Merged>, cm: map<Team, Option<string>>, team: Team)
    returns (home: seq<real>, away: seq<real>)
    ensures home == Column(merged, cm, HomeSlot(team))
    ensures away == Column(merged, cm, AwaySlot(team))
  {
    home := seq(|merged|, r requires 0 <= r < |merged| => if merged[r].1.home == team then 1.0 else 0.0);
    away := seq(|merged|, r requires 0 <= r < |merged| => if merged[r].1.away == team then 1.0 else 0.0);
    forall r | 0 <= r < |merged|
      ensures home[r] == Column(merged, cm, HomeSlot(team))[r]
      ensures away[r] == Column(merged, cm, AwaySlot(team))[r]
    {
      SlotValueTeams(team, ScenarioOf(merged[r], cm));
    }
  }

  /** The `spread`, `spread_abs` and `week` columns. */
  method LeadingColumns(merged: seq<Merged>, cm: map<Team, Option<string>>)
    returns (cols: map<string, seq<real>>)
    ensures forall n :: n in cols <==> n in LEADING
    ensures forall n :: n in cols ==> cols[n] == Column(merged, cm, n)
  {
    var spread := seq(|merged|, r requires 0 <= r < |merged| =>
                        if merged[r].1.spread.Some? then Points(merged[r].1.spread.value) else 0.0);
    var size := seq(|spread|, r requires 0 <= r < |spread| => if spread[r] < 0.0 then -spread[r] else spread[r]);
    var week := seq(|merged|, r requires 0 <= r < |merged| => merged[r].0.week as real);
    assert spread == Column(merged, cm, "spread");
    assert size == Column(merged, cm, "spread_abs");
    assert week == Column(merged, cm, "week");
    cols := map["spread" := spread, "spread_abs" := size, "week" := week];
  }

  /** The `cross_conference`, `indoor`, `temp`, `wind` and `rain_snow` columns, added to `cols`. */
  method TrailingColumns(merged: seq<Merged>, cm: map<Team, Option<string>>, cols0: map<string, seq<real>>)
    returns (cols: map<string, seq<real>>)
    requires forall n :: n in cols0 ==> cols0[n] == Column(merged, cm, n)
    ensures forall n :: n in cols <==> n in cols0 || n in TRAILING
    ensures forall n :: n in cols ==> cols[n] == Column(merged, cm, n)
  {
    var cross := CrossConferenceColumn(merged, cm);
    var indoor := IndoorColumn(merged, cm);
    var temp := TempColumn(merged, cm);
    var wind := WindColumn(merged, cm);
    var rain := RainSnowColumn(merged, cm);
    cols := cols0["cross_conference" := cross]["indoor" := indoor]["temp" := temp]["wind" := wind]["rain_snow" := rain];
  }

  /** Both teams' conferences are looked up in `cm`; the flag is 1 when they differ. */
  method CrossConferenceColumn(merged: seq<Merged>, cm: map<Team, Option<string>>) returns (col: seq<real>)
    ensures col == Column(merged, cm, "cross_conference")
  {
    var homeConf := seq(|merged|, r requires 0 <= r < |merged| => Lookup(cm, merged[r].1.home));
    var awayConf := seq(|merged|, r requires 0 <= r < |merged| => Lookup(cm, merged[r].1.away));
    col := seq(|merged|, r requires 0 <= r < |merged| => Flag(CrossConference(homeConf[r], awayConf[r])));
  }

  method IndoorColumn(merged: seq<Merged>, cm: map<Team, Option<string>>) returns (col: seq<real>)
    ensures col == Column(merged, cm, "indoor")
  {
    col := seq(|merged|, r requires 0 <= r < |merged| => Flag(Indoor(merged[r].1)));
  }

  /** A missing temperature is filled with `DEFAULT_TEMP`. */
  method TempColumn(merged: seq<Merged>, cm: map<Team, Option<string>>) returns (col: seq<real>)
    ensures col == Column(merged, cm, "temp")
  {
    col := seq(|merged|, r requires 0 <= r < |merged| =>
                 if merged[r].1.temperature.Some? then merged[r].1.temperature.value else DEFAULT_TEMP);
  }

  /** A missing wind speed is filled with `DEFAULT_WIND`. */
  method WindColumn(merged: seq<Merged>, cm: map<Team, Option<string>>) returns (col: seq<real>)
    ensures col == Column(merged, cm, "wind")
  {
    col := seq(|merged|, r requires 0 <= r < |merged| =>
                 if merged[r].1.wind.Some? then merged[r].1.wind.value else DEFAULT_WIND);
  }

  method RainSnowColumn(merged: seq<Merged>, cm: map<Team, Option<string>>) returns (col: seq<real>)
    ensures col == Column(merged, cm, "rain_snow")
  {
    col := seq(|merged|, r requires 0 <= r < |merged| => Flag(RainSnow(merged[r].1)));
  }

  // ---------------------------------------------------------------------------
  // Models

  type Probability = r: real | 0.0 <= r <= 1.0 witness 0.0

  /** A fitted classifier seen from outside: one coefficient per feature and its estimate that
      the player picks the home team, given a row of features. */
  datatype Classifier = Classifier(coef: seq<real>, probHome: seq<real> -> Probability)

  function IsPlayer(p: Player): Player -> bool
  {
    k => k == p
  }

  /** The entries of `col` on the rows whose player is `p` (a boolean mask). */
  function Select<T>(col: seq<T>, ids: seq<Player>, p: Player): (r: seq<T>)
    requires |col| == |ids|
    ensures |r| == Count(ids, IsPlayer(p))
    ensures forall v :: v in r ==> v in col
  {
    if col == [] then []
    else
      var init := Select(col[..|col| - 1], ids[..|ids| - 1], p);
      if ids[|ids| - 1] == p then init + [col[|col| - 1]] else init
  }

  /** The rows of a frame whose player is `p`, same columns. */
  function Slice(x: Frame, ids: seq<Player>, p: Player): (s: Frame)
    requires forall n :: n in x.cols ==> |x.cols[n]| == |ids|
    ensures s.names == x.names
    ensures forall n :: n in s.cols <==> n in x.cols
    ensures forall n :: n in s.cols ==> |s.cols[n]| == Count(ids, IsPlayer(p))
  {
    Frame(x.names, map n | n in x.cols :: Select(x.cols[n], ids, p))
  }

  /** `team_id` "LVR" is renamed "LV" before the metadata is used. */
  function RenameRaiders(m: TeamMeta): (r: TeamMeta)
    ensures r.teamId == (if m.teamId == "LVR" then "LV" else m.teamId)
    ensures r.conference == m.conference && r.division == m.division
  {
    if m.teamId == "LVR" then m.(teamId := "LV") else m
  }

  /** `train_models`: a classifier, fitted by `fit` on the player's own rows, for exactly the
      players of the roster with at least `MIN_ROWS` rows; the feature order is `FeatureNames()`. */
  method TrainModels(picks: seq<Pick>, games: seq<Game>, meta: seq<TeamMeta>,
                     fit: (Frame, seq<int>) -> Classifier)
    returns (models: map<Player, Classifier>, names: seq<string>)
    ensures names == FeatureNames()
    ensures forall p :: p in models <==> p in PLAYERS && Count(Map(Merge(picks, games), PlayerOf), IsPlayer(p)) >= MIN_ROWS
    ensures forall p :: p in models ==>
              var rows := Merge(picks, games);
              var ids := Map(rows, PlayerOf);
              models[p] == fit(Slice(Encode(rows, ConfMap(Map(meta, RenameRaiders))), ids, p),
                               Select(Map(rows, PickedHome), ids, p))
  {
    var x, y, ids := BuildFeatures(picks, games, Map(meta, RenameRaiders));
    names := x.names;
    models := FitEligible(PLAYERS, x, y, ids, fit);
  }

  /** The loop over the roster: fit the players with enough rows, skip the others. */
  method FitEligible(roster: seq<Player>, x: Frame, y: seq<int>, ids: seq<Player>,
                     fit: (Frame, seq<int>) -> Classifier)
    returns (models: map<Player, Classifier>)
    requires |y| == |ids|
    requires forall n :: n in x.cols ==> |x.cols[n]| == |ids|
    ensures forall p :: p in models <==> p in roster && Count(ids, IsPlayer(p)) >= MIN_ROWS
    ensures forall p :: p in models ==> models[p] == fit(Slice(x, ids, p), Select(y, ids, p))
  {
    models := map[];
    for i := 0 to |roster|
      invariant forall p :: p in models <==> p in roster[..i] && Count(ids, IsPlayer(p)) >= MIN_ROWS
      invariant forall p :: p in models ==> models[p] == fit(Slice(x, ids, p), Select(y, ids, p))
    {
      var player := roster[i];
      var xp := Slice(x, ids, player);
      var yp := Select(y, ids, player);
      if |yp| >= MIN_ROWS {
        models := models[player := fit(xp, yp)];
      }
      assert roster[..i + 1] == roster[..i] + [player];
    }
    assert roster[..|roster|] == roster;
  }

  // ---------------------------------------------------------------------------
  // Prediction

  /** The row dictionary `predict_pick` builds: every feature name starts at 0, then the named
      slots of the scenario are set. Keys outside `names` are dropped when the row is read. */
  method ScenarioRow(names: seq<string>, sc: Scenario) returns (row: map<string, real>)
    ensures forall n :: n in row <==>
              n in names || n in LEADING || n in TRAILING || n == HomeSlot(sc.home) || n == AwaySlot(sc.away)
    ensures forall n :: n in row ==> row[n] == SlotValue(n, sc)
  {
    SlotNames(sc.home, sc.away);
    SlotNames(sc.away, sc.home);
    row := map n | n in names :: 0.0;
    row := row["spread" := Points(sc.spread)];
    row := row["spread_abs" := Points(Abs(sc.spread))];
    row := row["week" := sc.week as real];
    row := row[HomeSlot(sc.home) := 1.0];
    row := row[AwaySlot(sc.away) := 1.0];
    row := row["cross_conference" := Flag(sc.crossConf)];
    row := row["indoor" := Flag(sc.indoor)];
    row := row["temp" := sc.temp];
    row := row["wind" := sc.wind];
    row := row["rain_snow" := Flag(sc.rainSnow)];
    forall n | n in row ensures row[n] == SlotValue(n, sc) {
      if n in LEADING || n in TRAILING {
      } else if n == HomeSlot(sc.home) || n == AwaySlot(sc.away) {
      } else {
        assert |n| > 0 && (n[0] == 'h' || n[0] == 'a') ==> SlotValue(n, sc) == 0.0;
      }
    }
  }

  /** `predict_pick`: the classifier's probability of a home pick at the scenario's row. */
  method PredictPick(model: Classifier, names: seq<string>, sc: Scenario) returns (prob: Probability)
    ensures prob == model.probHome(Vector(names, sc))
  {
    var row := ScenarioRow(names, sc);
    var x := seq(|names|, i requires 0 <= i < |names| => row[names[i]]);
    assert x == Vector(names, sc);
    prob := model.probHome(x);
  }

  /** A pick row of the training data is the row `predict_pick` builds for the conditions of its
      game: training and prediction use one encoding. This holds by the definition of `Encode`;
      the agreement of the source's column-by-column construction with that encoding is proved
      by `BuildFeatures` and the column methods (`LeadingColumns`, `TeamColumns`,
      `TrailingColumns` and the methods they call). */
  lemma TrainingRowIsPredictionRow(rows: seq<Merged>, cm: map<Team, Option<string>>, r: nat)
    requires r < |rows|
    ensures forall n :: n in Encode(rows, cm).cols ==>
              Encode(rows, cm).cols[n][r] == SlotValue(n, ScenarioOf(rows[r], cm))
    ensures Vector(FeatureNames(), ScenarioOf(rows[r], cm)) ==
              seq(|FeatureNames()|, i requires 0 <= i < |FeatureNames()| => Encode(rows, cm).cols[FeatureNames()[i]][r])
  {
  }
}
