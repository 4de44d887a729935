/** Pick popularity: how often each team was picked, and picks above average (PAA), the
    player-by-team count of picks minus the league mean for that team. */
module PickStats {
  import opened Seqs
  import opened Strings
  import opened Records
  import TeamRecords

  function PickedTeam(k: Pick): Team { k.pick }
  function PickPlayer(k: Pick): Player { k.player }

  /** The distinct values of a column, in ascending order (the order `groupby` gives). */
  function SortedKeys(vals: seq<string>): (ks: seq<string>)
    ensures NoDup(ks)
    ensures forall v :: v in ks <==> v in vals
    ensures Sorted(ks, StrLe)
  {
    var d := Distinct(vals);
    StrLeIsTotalPreorder();
    SortSorted(d, StrLe);
    SortSameElements(d, StrLe);
    NoDupPermutation(d, Sort(d, StrLe));
    Sort(d, StrLe)
  }

  /** A value that occurs in `Map(s, f)` gives a positive count of its key. */
  lemma KeyPresentCounts<T>(s: seq<T>, f: T -> string, v: string)
    requires v in Map(s, f)
    ensures Count(s, KeyIs(f, v)) > 0
  {
    var k :| 0 <= k < |s| && Map(s, f)[k] == v;
    CountPositive(s, KeyIs(f, v), k);
  }

  // ---------------------------------------------------------------------------
  // Most picked teams

  datatype TeamTotal = TeamTotal(team: Team, totalPicks: nat)

  function TeamTotalOf(picks: seq<Pick>, t: Team): (r: TeamTotal)
    ensures r.team == t && r.totalPicks == Count(picks, KeyIs(PickedTeam, t))
  {
    TeamTotal(t, Count(picks, KeyIs(PickedTeam, t)))
  }

  function TotalOf(r: TeamTotal): int { r.totalPicks }

  predicate ByTotalDesc(a: TeamTotal, b: TeamTotal) { a.totalPicks >= b.totalPicks }

  /** `most_picked_teams`: the number of picks of every picked team, most picked first. */
  function MostPickedTeams(picks: seq<Pick>): (rows: seq<TeamTotal>)
    ensures forall r :: r in rows ==> r == TeamTotalOf(picks, r.team) && r.totalPicks > 0
    ensures forall t :: t in Map(picks, PickedTeam) <==> exists r :: r in rows && r.team == t
    ensures forall i, j :: 0 <= i < j < |rows| ==> rows[i].team != rows[j].team
    ensures forall i, j :: 0 <= i < j < |rows| ==> rows[i].totalPicks >= rows[j].totalPicks
  {
    var teams := SortedKeys(Map(picks, PickedTeam));
    var built := Map(teams, t => TeamTotalOf(picks, t));
    assert TotalPreorder(ByTotalDesc);
    TeamRecords.SortedTableFacts(teams, built, t => TeamTotalOf(picks, t), (r: TeamTotal) => r.team, ByTotalDesc);
    var rows := Sort(built, ByTotalDesc);
    forall r | r in rows ensures r.totalPicks > 0 {
      assert r.team in teams;
      KeyPresentCounts(picks, PickedTeam, r.team);
    }
    rows
  }

  /** Every pick is counted for exactly one team: the totals add up to the number of picks. */
  lemma MostPickedTotalsSumToPicks(picks: seq<Pick>)
    ensures Sum(MostPickedTeams(picks), TotalOf) == |picks|
  {
    var teams := SortedKeys(Map(picks, PickedTeam));
    var built := Map(teams, t => TeamTotalOf(picks, t));
    SumSort(built, ByTotalDesc, TotalOf);
    TotalsAreGroupTotal(picks, teams);
    forall k | k in picks ensures PickedTeam(k) in teams {
      var i :| 0 <= i < |picks| && picks[i] == k;
      assert Map(picks, PickedTeam)[i] == PickedTeam(k);
    }
    GroupTotalIsLength(picks, PickedTeam, teams);
  }

  lemma {:induction false} TotalsAreGroupTotal(picks: seq<Pick>, teams: seq<Team>)
    ensures Sum(Map(teams, t => TeamTotalOf(picks, t)), TotalOf) == GroupTotal(picks, PickedTeam, teams)
  {
    if teams != [] {
      var built := Map(teams, t => TeamTotalOf(picks, t));
      var rest := Map(teams[1..], t => TeamTotalOf(picks, t));
      TotalsAreGroupTotal(picks, teams[1..]);
      assert built == [TeamTotalOf(picks, teams[0])] + rest;
      SumAppend([TeamTotalOf(picks, teams[0])], rest, TotalOf);
      assert Sum([TeamTotalOf(picks, teams[0])], TotalOf) == Sum([], TotalOf) + TotalOf(TeamTotalOf(picks, teams[0]));
    }
  }

  // ---------------------------------------------------------------------------
  // Picks above average

  /** The picks of team `t`. */
  function PicksOf(picks: seq<Pick>, t: Team): seq<Pick> { Filter(picks, KeyIs(PickedTeam, t)) }

  /** Entry (p, t) of the player-by-team contingency table: how many of `t`'s picks `p` made. */
  function PickCount(picks: seq<Pick>, p: Player, t: Team): nat
  {
    Count(PicksOf(picks, t), KeyIs(PickPlayer, p))
  }

  /** The rows and the columns of the contingency table: the players and the teams that occur. */
  function PaaPlayers(picks: seq<Pick>): seq<Player> { SortedKeys(Map(picks, PickPlayer)) }
  function PaaTeams(picks: seq<Pick>): seq<Team> { SortedKeys(Map(picks, PickedTeam)) }

  /** The column mean over the players of the table. */
  function ColumnMean(picks: seq<Pick>, t: Team): real
  {
    Rate(|PicksOf(picks, t)|, |PaaPlayers(picks)|)
  }

  /** A player's picks of `t` less the league mean. */
  function PaaCell(picks: seq<Pick>, p: Player, t: Team): real
  {
    PickCount(picks, p, t) as real - ColumnMean(picks, t)
  }

  /** `paa_heatmap`: the contingency table (absent pairs filled with 0) minus its column means. */
  function PaaHeatmap(picks: seq<Pick>): (m: map<Player, map<Team, real>>)
    ensures forall p :: p in m <==> p in Map(picks, PickPlayer)
    ensures forall p :: p in m ==> forall t :: t in m[p] <==> t in Map(picks, PickedTeam)
    ensures forall p, t :: p in m && t in m[p] ==> m[p][t] == PickCount(picks, p, t) as real - ColumnMean(picks, t)
  {
    var players := PaaPlayers(picks);
    var teams := PaaTeams(picks);
    map p | p in players :: map t | t in teams :: PaaCell(picks, p, t)
  }

  /** The sum of a column over a list of players. */
  function ColumnSum(picks: seq<Pick>, t: Team, ps: seq<Player>): real
  {
    if ps == [] then 0.0 else PaaCell(picks, ps[0], t) + ColumnSum(picks, t, ps[1..])
  }

  /** `m` added up `n` times. */
  function Repeated(m: real, n: nat): real
  {
    if n == 0 then 0.0 else m + Repeated(m, n - 1)
  }

  /** A mean added up once per member gives back the total. */
  lemma {:induction false} RepeatedMean(num: nat, n: nat)
    requires n > 0
    ensures Repeated(Rate(num, n), n) == num as real
  {
    RepeatedIsProduct(Rate(num, n), n);
  }

  lemma {:induction false} RepeatedIsProduct(m: real, n: nat)
    ensures Repeated(m, n) == n as real * m
  {
    if n > 0 {
      RepeatedIsProduct(m, n - 1);
    }
  }

  lemma {:induction false} ColumnSumSplit(picks: seq<Pick>, t: Team, ps: seq<Player>)
    ensures ColumnSum(picks, t, ps) ==
            GroupTotal(PicksOf(picks, t), PickPlayer, ps) as real - Repeated(ColumnMean(picks, t), |ps|)
  {
    if ps != [] {
      ColumnSumSplit(picks, t, ps[1..]);
    }
  }

  /** Every column of the PAA table sums to zero over the players. */
  lemma PaaColumnSumsToZero(picks: seq<Pick>, t: Team)
    ensures ColumnSum(picks, t, PaaPlayers(picks)) == 0.0
  {
    var players := PaaPlayers(picks);
    var col := PicksOf(picks, t);
    ColumnSumSplit(picks, t, players);
    forall k | k in col ensures PickPlayer(k) in players {
      var i :| 0 <= i < |picks| && picks[i] == k;
      assert Map(picks, PickPlayer)[i] == PickPlayer(k);
    }
    GroupTotalIsLength(col, PickPlayer, players);
    if players != [] {
      RepeatedMean(|col|, |players|);
    }
  }
}
