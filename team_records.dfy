/** Per-team records from the games table: against the spread (ATS), straight up (moneyline)
    and the ATS cover rate split by home and away. Each table is built by a loop over the
    teams in ascending order, one row per team. */
module TeamRecords {
  import opened Seqs
  import opened Strings
  import opened Records

  function HomeOf(g: Game): Team { g.home }
  function AwayOf(g: Game): Team { g.away }

  /** Every team that appears as home or away, each once, in ascending order. */
  function AllTeams(games: seq<Game>): (ts: seq<Team>)
    ensures NoDup(ts)
    ensures forall t :: t in ts <==> exists g :: g in games && (g.home == t || g.away == t)
    ensures Sorted(ts, StrLe)
  {
    var all := Distinct(Map(games, HomeOf) + Map(games, AwayOf));
    assert forall t :: t in all <==> exists g :: g in games && (g.home == t || g.away == t) by {
      forall t ensures t in all <==> exists g :: g in games && (g.home == t || g.away == t) {
        if t in all {
          if t in Map(games, HomeOf) {
            var i :| 0 <= i < |games| && Map(games, HomeOf)[i] == t;
            assert games[i] in games;
          } else {
            var i :| 0 <= i < |games| && Map(games, AwayOf)[i] == t;
            assert games[i] in games;
          }
        }
        if g :| g in games && (g.home == t || g.away == t) {
          var i :| 0 <= i < |games| && games[i] == g;
          if g.home == t { assert Map(games, HomeOf)[i] == t; } else { assert Map(games, AwayOf)[i] == t; }
        }
      }
    }
    StrLeIsTotalPreorder();
    SortSorted(all, StrLe);
    NoDupPermutation(all, Sort(all, StrLe));
    SortSameElements(all, StrLe);
    Sort(all, StrLe)
  }

  // The selections the source makes on the games table, one named predicate each.
  function IsHome(t: Team): Game -> bool { (g: Game) => g.home == t }
  function IsAway(t: Team): Game -> bool { (g: Game) => g.away == t }
  function HomeCovered(t: Team): Game -> bool { (g: Game) => g.home == t && g.atsWinner == Some(t) }
  function AwayCovered(t: Team): Game -> bool { (g: Game) => g.away == t && g.atsWinner == Some(t) }
  function HomePush(t: Team): Game -> bool { (g: Game) => g.home == t && g.atsWinner == Some(PUSH) }
  function AwayPush(t: Team): Game -> bool { (g: Game) => g.away == t && g.atsWinner == Some(PUSH) }
  function HomeWin(t: Team): Game -> bool { (g: Game) => g.home == t && Outscores(g.scoreHome, g.scoreAway) }
  function AwayWin(t: Team): Game -> bool { (g: Game) => g.away == t && Outscores(g.scoreAway, g.scoreHome) }

  /** The strict `>` on two score cells: false when either cell is missing, as a comparison
      with NaN is. */
  predicate Outscores(a: Option<int>, b: Option<int>)
  {
    a.Some? && b.Some? && a.value > b.value
  }

  /** An appearance the team neither covered nor pushed: the other side covered, or the
      ATS result is missing. */
  function HomeAtsLoss(t: Team): Game -> bool
  {
    (g: Game) => g.home == t && g.atsWinner != Some(t) && g.atsWinner != Some(PUSH)
  }
  function AwayAtsLoss(t: Team): Game -> bool
  {
    (g: Game) => g.away == t && g.atsWinner != Some(t) && g.atsWinner != Some(PUSH)
  }

  /** A straight-up loss: a tie counts as one because the win test is a strict `>`, and so
      does a game with a missing score. */
  function HomeMlLoss(t: Team): Game -> bool
  {
    (g: Game) => g.home == t && ((g.scoreHome.Some? && g.scoreAway.Some? && g.scoreHome.value <= g.scoreAway.value)
                                 || g.scoreHome.None? || g.scoreAway.None?)
  }
  function AwayMlLoss(t: Team): Game -> bool
  {
    (g: Game) => g.away == t && ((g.scoreHome.Some? && g.scoreAway.Some? && g.scoreAway.value <= g.scoreHome.value)
                                 || g.scoreHome.None? || g.scoreAway.None?)
  }

  function Appearances(games: seq<Game>, t: Team): nat
  {
    Count(games, IsHome(t)) + Count(games, IsAway(t))
  }

  // ---------------------------------------------------------------------------
  // ATS record

  datatype AtsRow = AtsRow(team: Team, atsWins: int, atsLosses: int, atsPushes: int, atsGames: int, atsPct: real)

  /** The ATS row of one team, as one iteration of the loop builds it. */
  function AtsRowOf(games: seq<Game>, t: Team): (r: AtsRow)
    ensures r.team == t
    ensures r.atsGames == Appearances(games, t)
    ensures 0 <= r.atsWins <= r.atsGames && 0 <= r.atsPushes
    ensures r.atsWins + r.atsLosses + r.atsPushes == r.atsGames
    ensures 0.0 <= r.atsPct <= 1.0
    ensures r.atsPct == Rate(r.atsWins, r.atsGames)
  {
    CountMono(games, HomeCovered(t), IsHome(t));
    CountMono(games, AwayCovered(t), IsAway(t));
    var covers := Count(games, HomeCovered(t)) + Count(games, AwayCovered(t));
    var total := Count(games, IsHome(t)) + Count(games, IsAway(t));
    var pushes := Count(games, HomePush(t)) + Count(games, AwayPush(t));
    AtsRow(t, covers, total - covers - pushes, pushes, total, Rate(covers, total))
  }

  /** For a real team id, losses are the appearances the team neither covered nor pushed
      (a missing ATS result included), so they are never negative. */
  lemma AtsLossesCounted(games: seq<Game>, t: Team)
    requires t != PUSH
    ensures AtsRowOf(games, t).atsLosses == Count(games, HomeAtsLoss(t)) + Count(games, AwayAtsLoss(t))
    ensures AtsRowOf(games, t).atsLosses >= 0
  {
    var nonCoverHome: Game -> bool := (g: Game) => g.home == t && g.atsWinner != Some(t);
    var nonCoverAway: Game -> bool := (g: Game) => g.away == t && g.atsWinner != Some(t);
    CountSplit(games, IsHome(t), HomeCovered(t), nonCoverHome);
    CountSplit(games, nonCoverHome, HomePush(t), HomeAtsLoss(t));
    CountSplit(games, IsAway(t), AwayCovered(t), nonCoverAway);
    CountSplit(games, nonCoverAway, AwayPush(t), AwayAtsLoss(t));
  }

  function ByAtsPctDesc(a: AtsRow, b: AtsRow): bool { a.atsPct >= b.atsPct }

  lemma ByAtsPctDescTotal()
    ensures TotalPreorder(ByAtsPctDesc)
  {
  }

  /** `team_ats_record`: one row per team, sorted by cover rate, highest first. Without any team
      the table has no `ats_pct` column to sort by and the source fails: `None`. */
  method TeamAtsRecord(games: seq<Game>) returns (result: Option<seq<AtsRow>>)
    ensures result.None? <==> AllTeams(games) == []
    ensures result.Some? ==> var rows := result.value;
      && |rows| == |AllTeams(games)|
      && (forall r :: r in rows ==> r == AtsRowOf(games, r.team))
      && (forall t :: t in AllTeams(games) <==> exists r :: r in rows && r.team == t)
      && (forall i, j :: 0 <= i < j < |rows| ==> rows[i].team != rows[j].team)
      && (forall i, j :: 0 <= i < j < |rows| ==> rows[i].atsPct >= rows[j].atsPct)
  {
    var teams := AllTeams(games);
    var built: seq<AtsRow> := [];
    for i := 0 to |teams|
      invariant |built| == i
      invariant forall k :: 0 <= k < i ==> built[k] == AtsRowOf(games, teams[k])
    {
      built := built + [AtsRowOf(games, teams[i])];
    }
    if teams == [] {
      return None;
    }
    ByAtsPctDescTotal();
    SortedTableFacts(teams, built, (t: Team) => AtsRowOf(games, t), (r: AtsRow) => r.team, ByAtsPctDesc);
    result := Some(Sort(built, ByAtsPctDesc));
  }

  // ---------------------------------------------------------------------------
  // Moneyline (straight-up) record

  datatype MlRow = MlRow(team: Team, mlWins: int, mlLosses: int, mlGames: int, mlPct: real)

  /** The moneyline row of one team, as one iteration of the loop builds it. */
  function MlRowOf(games: seq<Game>, t: Team): (r: MlRow)
    ensures r.team == t
    ensures r.mlGames == Appearances(games, t)
    ensures 0 <= r.mlWins <= r.mlGames
    ensures 0.0 <= r.mlPct <= 1.0
    ensures r.mlPct == Rate(r.mlWins, r.mlGames)
  {
    CountMono(games, HomeWin(t), IsHome(t));
    CountMono(games, AwayWin(t), IsAway(t));
    var wins := Count(games, HomeWin(t)) + Count(games, AwayWin(t));
    var total := Count(games, IsHome(t)) + Count(games, IsAway(t));
    MlRow(t, wins, total - wins, total, Rate(wins, total))
  }

  /** Losses are the appearances the team did not strictly outscore the opponent in:
      a tied score is a loss. Wins and losses add up to the games played. */
  lemma MlLossesCounted(games: seq<Game>, t: Team)
    ensures MlRowOf(games, t).mlLosses == Count(games, HomeMlLoss(t)) + Count(games, AwayMlLoss(t))
    ensures MlRowOf(games, t).mlWins + MlRowOf(games, t).mlLosses == MlRowOf(games, t).mlGames
  {
    CountSplit(games, IsHome(t), HomeWin(t), HomeMlLoss(t));
    CountSplit(games, IsAway(t), AwayWin(t), AwayMlLoss(t));
  }

  /** A game with a missing score, or a tie, is a straight-up loss for both of its teams and a
      win for neither. */
  lemma UnscoredOrTiedIsLossForBoth(g: Game)
    requires g.scoreHome.None? || g.scoreAway.None? || g.scoreHome == g.scoreAway
    ensures !HomeWin(g.home)(g) && !AwayWin(g.away)(g)
    ensures HomeMlLoss(g.home)(g) && AwayMlLoss(g.away)(g)
  {
  }

  function ByMlPctDesc(a: MlRow, b: MlRow): bool { a.mlPct >= b.mlPct }

  lemma ByMlPctDescTotal()
    ensures TotalPreorder(ByMlPctDesc)
  {
  }

  /** `team_ml_record`: one row per team, sorted by straight-up win rate, highest first. Without
      any team there is no `ml_pct` column to sort by and the source fails: `None`. */
  method TeamMlRecord(games: seq<Game>) returns (result: Option<seq<MlRow>>)
    ensures result.None? <==> AllTeams(games) == []
    ensures result.Some? ==> var rows := result.value;
      && |rows| == |AllTeams(games)|
      && (forall r :: r in rows ==> r == MlRowOf(games, r.team))
      && (forall t :: t in AllTeams(games) <==> exists r :: r in rows && r.team == t)
      && (forall i, j :: 0 <= i < j < |rows| ==> rows[i].team != rows[j].team)
      && (forall i, j :: 0 <= i < j < |rows| ==> rows[i].mlPct >= rows[j].mlPct)
  {
    var teams := AllTeams(games);
    var built: seq<MlRow> := [];
    for i := 0 to |teams|
      invariant |built| == i
      invariant forall k :: 0 <= k < i ==> built[k] == MlRowOf(games, teams[k])
    {
      built := built + [MlRowOf(games, teams[i])];
    }
    if teams == [] {
      return None;
    }
    ByMlPctDescTotal();
    SortedTableFacts(teams, built, (t: Team) => MlRowOf(games, t), (r: MlRow) => r.team, ByMlPctDesc);
    result := Some(Sort(built, ByMlPctDesc));
  }

  // ---------------------------------------------------------------------------
  // Home/away ATS split

  datatype SplitRow = SplitRow(team: Team, homeCoverPct: real, awayCoverPct: real, homeGames: int, awayGames: int)

  /** The home/away row of one team: covers in each split over the games in that split,
      0 for an empty split. */
  function SplitRowOf(games: seq<Game>, t: Team): (r: SplitRow)
    ensures r.team == t
    ensures r.homeGames == Count(games, IsHome(t)) && r.awayGames == Count(games, IsAway(t))
    ensures r.homeCoverPct == Rate(Count(games, HomeCovered(t)), r.homeGames)
    ensures r.awayCoverPct == Rate(Count(games, AwayCovered(t)), r.awayGames)
    ensures 0.0 <= r.homeCoverPct <= 1.0 && 0.0 <= r.awayCoverPct <= 1.0
  {
    CountMono(games, HomeCovered(t), IsHome(t));
    CountMono(games, AwayCovered(t), IsAway(t));
    var homeCovers := Count(games, HomeCovered(t));
    var awayCovers := Count(games, AwayCovered(t));
    var nHome := Count(games, IsHome(t));
    var nAway := Count(games, IsAway(t));
    SplitRow(t, Rate(homeCovers, nHome), Rate(awayCovers, nAway), nHome, nAway)
  }

  /** The split agrees with the ATS record: its two sample sizes add up to the team's ATS
      games, and the covers behind its two rates add up to the team's ATS wins. */
  lemma SplitAgreesWithAts(games: seq<Game>, t: Team)
    ensures SplitRowOf(games, t).homeGames + SplitRowOf(games, t).awayGames == AtsRowOf(games, t).atsGames
    ensures Count(games, HomeCovered(t)) + Count(games, AwayCovered(t)) == AtsRowOf(games, t).atsWins
  {
  }

  /** `home_away_ats`: one row per team, in ascending team order (this table is not re-sorted). */
  method HomeAwayAts(games: seq<Game>) returns (rows: seq<SplitRow>)
    ensures |rows| == |AllTeams(games)|
    ensures forall i :: 0 <= i < |rows| ==> rows[i] == SplitRowOf(games, AllTeams(games)[i])
    ensures forall i, j :: 0 <= i < j < |rows| ==> StrLe(rows[i].team, rows[j].team) && rows[i].team != rows[j].team
  {
    var teams := AllTeams(games);
    rows := [];
    for i := 0 to |teams|
      invariant |rows| == i
      invariant forall k :: 0 <= k < i ==> rows[k] == SplitRowOf(games, teams[k])
    {
      rows := rows + [SplitRowOf(games, teams[i])];
    }
  }

  /** Sorting a table built one row per distinct team keeps one row per team. */
  lemma SortedTableFacts<R(!new)>(teams: seq<Team>, built: seq<R>, rowOf: Team -> R, team: R -> Team,
                                  le: (R, R) -> bool)
    requires NoDup(teams) && |built| == |teams|
    requires forall k :: 0 <= k < |teams| ==> built[k] == rowOf(teams[k])
    requires forall t :: team(rowOf(t)) == t
    requires TotalPreorder(le)
    ensures |Sort(built, le)| == |teams|
    ensures Sorted(Sort(built, le), le)
    ensures forall r :: r in Sort(built, le) ==> r == rowOf(team(r))
    ensures forall t :: t in teams <==> exists r :: r in Sort(built, le) && team(r) == t
    ensures forall i, j :: 0 <= i < j < |Sort(built, le)| ==> team(Sort(built, le)[i]) != team(Sort(built, le)[j])
  {
    var rows := Sort(built, le);
    SortSorted(built, le);
    SortSameElements(built, le);
    assert NoDup(built) by {
      forall i, j | 0 <= i < j < |built| ensures built[i] != built[j] {
        assert team(built[i]) == teams[i] && team(built[j]) == teams[j];
      }
    }
    NoDupPermutation(built, rows);
    forall t ensures t in teams <==> exists r :: r in rows && team(r) == t {
      if t in teams {
        var k :| 0 <= k < |teams| && teams[k] == t;
        assert built[k] in rows;
      }
    }
    forall i, j | 0 <= i < j < |rows| ensures team(rows[i]) != team(rows[j]) {
      assert rows[i] in built && rows[j] in built;
    }
  }
}
