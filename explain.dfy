/** The predictor's reading of a player's classifier for one imagined game: the pick it makes
    and how confident it is, and the reasons it gives, which are the feature contributions
    (coefficient times value) of largest size. */
module Explain {
  import opened Seqs
  import opened Strings
  import opened Records
  import opened Features
  import opened PickStats

  /** Every imagined game is played at this temperature. */
  const SCENARIO_TEMP: real := 65.0

  /** A contribution is reported only when its size exceeds this. */
  const MIN_CONTRIBUTION: real := 0.01

  /** A team's PAA is quoted only when its size is at least this. */
  const PAA_NOTE_SIZE: real := 1.0

  /** At most this many reasons are given. */
  const TOP_REASONS: nat := 4

  function RealAbs(x: real): real { if x < 0.0 then -x else x }

  function Min(a: nat, b: nat): nat { if a < b then a else b }

  // ---------------------------------------------------------------------------
  // Pick and confidence

  /** `model_pick` and `model_conf`: the home team when the home probability is at least one
      half, otherwise the away team; the confidence is the larger of the two probabilities. */
  function ModelPick(sc: Scenario, probHome: Probability): (r: (Team, real))
    ensures probHome >= 0.5 ==> r.0 == sc.home
    ensures probHome < 0.5 ==> r.0 == sc.away
    ensures r.1 >= probHome && r.1 >= 1.0 - probHome
    ensures r.1 == probHome || r.1 == 1.0 - probHome
    ensures 0.5 <= r.1 <= 1.0
  {
    var probAway := 1.0 - probHome;
    (if probHome >= 0.5 then sc.home else sc.away, if probAway > probHome then probAway else probHome)
  }

  /** The confidence is the probability of the side the model picks. */
  lemma ConfidenceIsPickedSide(sc: Scenario, probHome: Probability)
    requires sc.home != sc.away
    ensures var (pick, conf) := ModelPick(sc, probHome);
            conf == if pick == sc.home then probHome else 1.0 - probHome
  {
  }

  // ---------------------------------------------------------------------------
  // The explanation row

  /** `feat_row`: the row of the imagined game, built as `predict_pick` builds it, with the
      temperature fixed at 65 whatever the scenario says. */
  method ExplanationRow(names: seq<string>, sc: Scenario) returns (row: map<string, real>)
    ensures forall n :: n in row <==>
              n in names || n in LEADING || n in TRAILING || n == HomeSlot(sc.home) || n == AwaySlot(sc.away)
    ensures forall n :: n in row ==> row[n] == SlotValue(n, sc.(temp := SCENARIO_TEMP))
  {
    row := ScenarioRow(names, sc.(temp := SCENARIO_TEMP));
  }

  // ---------------------------------------------------------------------------
  // Contributions

  /** What a contribution is reported as. A team factor carries the player's PAA for the team
      when it is worth quoting. */
  datatype Factor =
    | HomeTeam(team: Team, paa: Option<real>)
    | AwayTeam(team: Team, paa: Option<real>)
    | SpreadFactor(points: real)
    | SpreadSize(points: real)
    | WindFactor(mph: real)
    | IndoorGame(indoor: bool)
    | RainOrSnow(wet: bool)
    | ConferenceMatchup(cross: bool)
    | WeekFactor(week: real)
    | OtherFeature(name: string)

  /** The player's PAA for team `t`, when its size is at least 1; a team absent from the row
      counts as 0 and so is never quoted. */
  function PaaNote(paaRow: map<Team, real>, t: Team): (note: Option<real>)
    ensures note.Some? <==> t in paaRow && RealAbs(paaRow[t]) >= PAA_NOTE_SIZE
    ensures note.Some? ==> note.value == paaRow[t]
  {
    var v := if t in paaRow then paaRow[t] else 0.0;
    if RealAbs(v) >= PAA_NOTE_SIZE then Some(v) else None
  }

  /** The player's row of the PAA matrix, or an empty row for a player the matrix lacks. */
  function PlayerPaaRow(paa: map<Player, map<Team, real>>, p: Player): (row: map<Team, real>)
    ensures p in paa ==> row == paa[p]
    ensures p !in paa ==> forall t :: t !in row
  {
    if p in paa then paa[p] else map[]
  }

  /** A player who made no pick has no PAA row, so no team of theirs is ever quoted with a note;
      a player who did has, for every picked team, a note exactly when their count is at least
      one away from the league's mean count for that team. */
  lemma PaaNoteFromHeatmap(picks: seq<Pick>, p: Player, t: Team)
    ensures p !in Map(picks, PickPlayer) ==> PaaNote(PlayerPaaRow(PaaHeatmap(picks), p), t) == None
    ensures p in Map(picks, PickPlayer) && t in Map(picks, PickedTeam) ==>
              (PaaNote(PlayerPaaRow(PaaHeatmap(picks), p), t).Some? <==>
               RealAbs(PickCount(picks, p, t) as real - ColumnMean(picks, t)) >= PAA_NOTE_SIZE)
  {
  }

  /** The factor a feature with value `val` is reported as; `temp` is never reported. */
  function FactorOf(name: string, val: real, paaRow: map<Team, real>): (f: Option<Factor>)
    ensures f.None? <==> name == "temp"
  {
    if StartsWith(name, "home_") then Some(HomeTeam(name[5..], PaaNote(paaRow, name[5..])))
    else if StartsWith(name, "away_") then Some(AwayTeam(name[5..], PaaNote(paaRow, name[5..])))
    else if name == "spread" then Some(SpreadFactor(val))
    else if name == "spread_abs" then Some(SpreadSize(val))
    else if name == "temp" then None
    else if name == "wind" then Some(WindFactor(val))
    else if name == "indoor" then Some(IndoorGame(val != 0.0))
    else if name == "rain_snow" then Some(RainOrSnow(val != 0.0))
    else if name == "cross_conference" then Some(ConferenceMatchup(val != 0.0))
    else if name == "week" then Some(WeekFactor(val))
    else Some(OtherFeature(name))
  }

  /** A team slot is reported as its team, with the player's PAA note for it. */
  lemma TeamSlotFactor(t: Team, val: real, paaRow: map<Team, real>)
    ensures FactorOf(HomeSlot(t), val, paaRow) == Some(HomeTeam(t, PaaNote(paaRow, t)))
    ensures FactorOf(AwaySlot(t), val, paaRow) == Some(AwayTeam(t, PaaNote(paaRow, t)))
  {
    assert HomeSlot(t)[..5] == "home_" && HomeSlot(t)[5..] == t;
    assert AwaySlot(t)[..5] == "away_" && AwaySlot(t)[5..] == t;
    assert AwaySlot(t)[0] == 'a' && "home_"[0] == 'h';
  }

  /** A name that starts with neither `h` nor `a` is not a team column. */
  lemma NotTeamColumn(name: string)
    requires |name| > 0 && name[0] != 'h' && name[0] != 'a'
    ensures !StartsWith(name, "home_") && !StartsWith(name, "away_")
  {
    assert "home_"[0] == 'h' && "away_"[0] == 'a';
    if 5 <= |name| {
      assert name[..5][0] == name[0];
    }
  }

  /** The spread, its size, the wind and the week are reported with their values. */
  lemma MeasuredFeatureFactors(val: real, paaRow: map<Team, real>)
    ensures FactorOf("spread", val, paaRow) == Some(SpreadFactor(val))
    ensures FactorOf("spread_abs", val, paaRow) == Some(SpreadSize(val))
    ensures FactorOf("wind", val, paaRow) == Some(WindFactor(val))
    ensures FactorOf("week", val, paaRow) == Some(WeekFactor(val))
  {
    NotTeamColumn("spread");
    NotTeamColumn("spread_abs");
    NotTeamColumn("wind");
    NotTeamColumn("week");
  }

  /** The indoor, rain/snow and conference features are reported as set exactly when nonzero. */
  lemma FlagFeatureFactors(val: real, paaRow: map<Team, real>)
    ensures FactorOf("indoor", val, paaRow) == Some(IndoorGame(val != 0.0))
    ensures FactorOf("rain_snow", val, paaRow) == Some(RainOrSnow(val != 0.0))
    ensures FactorOf("cross_conference", val, paaRow) == Some(ConferenceMatchup(val != 0.0))
  {
    NotTeamColumn("indoor");
    NotTeamColumn("rain_snow");
    NotTeamColumn("cross_conference");
  }

  /** One reported contribution: the position of the feature, what it is reported as, and its
      signed size. */
  datatype Contribution = Contribution(index: nat, factor: Factor, value: real)

  /** The feature at position `i` is reported: its contribution exceeds the threshold in size
      and it is not `temp`. */
  predicate Listed(names: seq<string>, coef: seq<real>, row: map<string, real>, i: nat)
    requires i < |names| <= |coef| && names[i] in row
  {
    RealAbs(coef[i] * row[names[i]]) > MIN_CONTRIBUTION && names[i] != "temp"
  }

  /** The contribution of the feature at position `i`, when it is reported. */
  function ContributionAt(names: seq<string>, coef: seq<real>, row: map<string, real>, paaRow: map<Team, real>,
                          i: nat): Contribution
    requires i < |names| <= |coef| && names[i] in row
    requires Listed(names, coef, row, i)
  {
    assert FactorOf(names[i], row[names[i]], paaRow).Some?;
    Contribution(i, FactorOf(names[i], row[names[i]], paaRow).value, coef[i] * row[names[i]])
  }

  /** The loop over the features: exactly the reported features, in feature order, each with
      coefficient times value. */
  method Contributions(names: seq<string>, coef: seq<real>, row: map<string, real>, paaRow: map<Team, real>)
    returns (cs: seq<Contribution>)
    requires |names| <= |coef|
    requires forall n :: n in names ==> n in row
    ensures forall k :: 0 <= k < |cs| ==>
              cs[k].index < |names| && Listed(names, coef, row, cs[k].index) &&
              cs[k] == ContributionAt(names, coef, row, paaRow, cs[k].index)
    ensures forall k, l :: 0 <= k < l < |cs| ==> cs[k].index < cs[l].index
    ensures forall i :: 0 <= i < |names| && Listed(names, coef, row, i) ==>
              exists k :: 0 <= k < |cs| && cs[k].index == i
  {
    cs := [];
    for i := 0 to |names|
      invariant forall k :: 0 <= k < |cs| ==>
                  cs[k].index < i && Listed(names, coef, row, cs[k].index) &&
                  cs[k] == ContributionAt(names, coef, row, paaRow, cs[k].index)
      invariant forall k, l :: 0 <= k < l < |cs| ==> cs[k].index < cs[l].index
      invariant forall j :: 0 <= j < i && Listed(names, coef, row, j) ==>
                  exists k :: 0 <= k < |cs| && cs[k].index == j
    {
      var c := Consider(names, coef, row, paaRow, i);
      if c.Some? {
        ghost var prev := cs;
        cs := cs + [c.value];
        assert forall k :: 0 <= k < |prev| ==> cs[k] == prev[k];
        assert cs[|cs| - 1].index == i;
      }
    }
  }

  /** One step of the loop: the contribution of the feature at position `i`, when it is reported. */
  method Consider(names: seq<string>, coef: seq<real>, row: map<string, real>, paaRow: map<Team, real>, i: nat)
    returns (c: Option<Contribution>)
    requires i < |names| <= |coef| && names[i] in row
    ensures c.Some? <==> Listed(names, coef, row, i)
    ensures c.Some? ==> c.value == ContributionAt(names, coef, row, paaRow, i) && c.value.index == i
  {
    var name := names[i];
    var val := row[name];
    var contrib := coef[i] * val;
    c := None;
    if RealAbs(contrib) > MIN_CONTRIBUTION {
      var factor := FactorOf(name, val, paaRow);
      if factor.Some? {
        c := Some(Contribution(i, factor.value, contrib));
      }
    }
  }

  /** A reported flag feature always reads as set: a zero value contributes nothing, so "Outdoor
      game", "Clear weather" and "Same conference" are never reported. */
  lemma ReportedFlagsAreSet(names: seq<string>, coef: seq<real>, row: map<string, real>, paaRow: map<Team, real>,
                            i: nat)
    requires i < |names| <= |coef| && names[i] in row
    requires Listed(names, coef, row, i)
    ensures ContributionAt(names, coef, row, paaRow, i).factor != IndoorGame(false)
    ensures ContributionAt(names, coef, row, paaRow, i).factor != RainOrSnow(false)
    ensures ContributionAt(names, coef, row, paaRow, i).factor != ConferenceMatchup(false)
  {
    assert row[names[i]] != 0.0;
  }

  // ---------------------------------------------------------------------------
  // Ranking

  predicate ByMagnitudeDesc(a: Contribution, b: Contribution)
  {
    RealAbs(a.value) >= RealAbs(b.value)
  }

  /** The contributions sorted by size, largest first, cut to the first four. */
  function Ranked(cs: seq<Contribution>): (top: seq<Contribution>)
    ensures |top| == Min(|cs|, TOP_REASONS)
    ensures multiset(top) <= multiset(cs)
    ensures forall i, j :: 0 <= i < j < |top| ==> RealAbs(top[i].value) >= RealAbs(top[j].value)
    ensures forall c, t :: c in cs && c !in top && t in top ==> RealAbs(t.value) >= RealAbs(c.value)
  {
    var sorted := Sort(cs, ByMagnitudeDesc);
    var top := sorted[..Min(|cs|, TOP_REASONS)];
    PrefixOfSorted(cs, sorted, top);
    PrefixDominates(cs, sorted, top);
    top
  }

  /** A prefix of the sorted contributions is sorted and drawn from them. */
  lemma PrefixOfSorted(cs: seq<Contribution>, sorted: seq<Contribution>, top: seq<Contribution>)
    requires sorted == Sort(cs, ByMagnitudeDesc) && |top| <= |sorted| && top == sorted[..|top|]
    ensures multiset(top) <= multiset(cs)
    ensures forall i, j :: 0 <= i < j < |top| ==> RealAbs(top[i].value) >= RealAbs(top[j].value)
  {
    assert TotalPreorder(ByMagnitudeDesc);
    SortSorted(cs, ByMagnitudeDesc);
    assert sorted == top + sorted[|top|..];
  }

  /** A contribution left out of a prefix of the sorted list is no larger than one kept. */
  lemma PrefixDominates(cs: seq<Contribution>, sorted: seq<Contribution>, top: seq<Contribution>)
    requires sorted == Sort(cs, ByMagnitudeDesc) && |top| <= |sorted| && top == sorted[..|top|]
    ensures forall c, t :: c in cs && c !in top && t in top ==> RealAbs(t.value) >= RealAbs(c.value)
  {
    assert TotalPreorder(ByMagnitudeDesc);
    SortSorted(cs, ByMagnitudeDesc);
    forall c, t | c in cs && c !in top && t in top ensures RealAbs(t.value) >= RealAbs(c.value) {
      assert c in multiset(sorted);
      var j :| 0 <= j < |sorted| && sorted[j] == c;
      var k :| 0 <= k < |top| && top[k] == t;
      assert ByMagnitudeDesc(sorted[k], sorted[j]);
    }
  }

  /** One line of the explanation: the factor and the side it pushes toward. */
  datatype Reason = Reason(factor: Factor, towardHome: bool)

  /** The contributions are sorted by size, the four largest kept, and each reads "toward home"
      exactly when it is positive. */
  method Reasons(cs: seq<Contribution>) returns (rs: seq<Reason>)
    ensures |rs| == |Ranked(cs)| <= TOP_REASONS
    ensures forall k :: 0 <= k < |rs| ==>
              rs[k].factor == Ranked(cs)[k].factor && (rs[k].towardHome <==> Ranked(cs)[k].value > 0.0)
  {
    var top := Ranked(cs);
    rs := [];
    for k := 0 to |top|
      invariant |rs| == k
      invariant forall j :: 0 <= j < k ==> rs[j] == Reason(top[j].factor, top[j].value > 0.0)
    {
      rs := rs + [Reason(top[k].factor, top[k].value > 0.0)];
    }
  }
}
