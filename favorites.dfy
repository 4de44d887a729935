/** How the bookmaker's favourite fared: the cover rate of favourites by spread size and by
    week, and how often each player picked the favourite. */
module Favorites {
  import opened Seqs
  import opened Strings
  import opened Records

  /** A game with both a spread and an ATS result (the rows `dropna` keeps). */
  predicate Graded(g: Game) { g.spread.Some? && g.atsWinner.Some? }

  function GradedGames(games: seq<Game>): (df: seq<Game>)
    ensures forall g :: g in df <==> g in games && Graded(g)
  {
    Filter(games, Graded)
  }

  function GameFavorite(g: Game): Team { Favorite(g.home, g.away, g.spread) }

  predicate FavCovered(g: Game) { g.atsWinner == Some(GameFavorite(g)) }

  // ---------------------------------------------------------------------------
  // Spread buckets

  /** Bin edges in half-points: (0,1], (1,3], (3,5], (5,7], (7,10], (10,20] points. */
  const BucketEdges: seq<int> := [0, 2, 6, 10, 14, 20, 40]
  const BucketCount: nat := 6

  /** The bucket of a spread of `h` half-points, right-closed as `pd.cut` bins it: `k` exactly
      when the size lies in (edge k, edge k+1]. A zero spread or one over 20 points has none. */
  function Bucket(h: int): (b: Option<nat>)
    ensures b.Some? <==> 0 < Abs(h) <= 40
    ensures forall k :: 0 <= k < BucketCount ==>
              (b == Some(k) <==> BucketEdges[k] < Abs(h) <= BucketEdges[k + 1])
  {
    var a := Abs(h);
    if a == 0 || a > 40 then None
    else if a <= 2 then Some(0)
    else if a <= 6 then Some(1)
    else if a <= 10 then Some(2)
    else if a <= 14 then Some(3)
    else if a <= 20 then Some(4)
    else Some(5)
  }

  function GameBucket(g: Game): Option<nat>
  {
    if g.spread.Some? then Bucket(g.spread.value) else None
  }

  function InBucket(k: nat): Game -> bool { (g: Game) => GameBucket(g) == Some(k) }
  function CoveredInBucket(k: nat): Game -> bool { (g: Game) => GameBucket(g) == Some(k) && FavCovered(g) }
  function InBucketFrom(k: nat): Game -> bool
  {
    (g: Game) => GameBucket(g).Some? && GameBucket(g).value >= k
  }

  datatype BucketRow = BucketRow(bucket: nat, favCoverRate: real, games: nat)

  function BucketRowFor(df: seq<Game>, k: nat): (r: BucketRow)
    ensures r.bucket == k && r.games == Count(df, InBucket(k))
    ensures 0.0 <= r.favCoverRate <= 1.0
    ensures r.favCoverRate == Rate(Count(df, CoveredInBucket(k)), r.games)
  {
    CountMono(df, CoveredInBucket(k), InBucket(k));
    BucketRow(k, Rate(Count(df, CoveredInBucket(k)), Count(df, InBucket(k))), Count(df, InBucket(k)))
  }

  /** `rows` lists, in bucket order, one row for each non-empty bucket from `k` on. */
  ghost predicate ListsBucketsFrom(df: seq<Game>, k: nat, rows: seq<BucketRow>)
  {
    && (forall r :: r in rows ==> k <= r.bucket < BucketCount && r.games > 0 && r == BucketRowFor(df, r.bucket))
    && (forall i, j :: 0 <= i < j < |rows| ==> rows[i].bucket < rows[j].bucket)
    && (forall b :: k <= b < BucketCount && Count(df, InBucket(b)) > 0 ==> exists r :: r in rows && r.bucket == b)
  }

  /** The non-empty buckets from `k` on, in bucket order (`groupby(..., observed=True)`). */
  function BucketRowsFrom(df: seq<Game>, k: nat): (rows: seq<BucketRow>)
    requires k <= BucketCount
    ensures ListsBucketsFrom(df, k, rows)
    decreases BucketCount - k
  {
    if k == BucketCount then []
    else
      var rest := BucketRowsFrom(df, k + 1);
      BucketRowsStep(df, k, rest);
      if Count(df, InBucket(k)) > 0 then [BucketRowFor(df, k)] + rest else rest
  }

  lemma BucketRowsStep(df: seq<Game>, k: nat, rest: seq<BucketRow>)
    requires k < BucketCount && ListsBucketsFrom(df, k + 1, rest)
    ensures Count(df, InBucket(k)) > 0 ==> ListsBucketsFrom(df, k, [BucketRowFor(df, k)] + rest)
    ensures Count(df, InBucket(k)) == 0 ==> ListsBucketsFrom(df, k, rest)
  {
    if Count(df, InBucket(k)) > 0 {
      var rows := [BucketRowFor(df, k)] + rest;
      forall b | k <= b < BucketCount && Count(df, InBucket(b)) > 0 ensures exists r :: r in rows && r.bucket == b {
        if b == k {
          assert rows[0] in rows;
        } else {
          var r :| r in rest && r.bucket == b;
          assert r in rows;
        }
      }
    }
  }

  /** `spread_impact`: favourite cover rate per spread bucket, over the graded games. */
  function SpreadImpact(games: seq<Game>): (rows: seq<BucketRow>)
    ensures forall r :: r in rows ==> r.bucket < BucketCount && r.games > 0
    ensures forall r :: r in rows ==> 0.0 <= r.favCoverRate <= 1.0
    ensures forall i, j :: 0 <= i < j < |rows| ==> rows[i].bucket < rows[j].bucket
    ensures forall b: nat :: b < BucketCount && Count(GradedGames(games), InBucket(b)) > 0 ==>
              exists r :: r in rows && r.bucket == b
    ensures forall r :: r in rows ==> r == BucketRowFor(GradedGames(games), r.bucket)
  {
    var df := GradedGames(games);
    var rows := BucketRowsFrom(df, 0);
    BucketRowRates(df, rows);
    assert forall b: nat :: b < BucketCount && Count(df, InBucket(b)) > 0 ==> exists r :: r in rows && r.bucket == b;
    rows
  }

  lemma BucketRowRates(df: seq<Game>, rows: seq<BucketRow>)
    requires forall r :: r in rows ==> r == BucketRowFor(df, r.bucket)
    ensures forall r :: r in rows ==> 0.0 <= r.favCoverRate <= 1.0
  {
    forall r | r in rows ensures 0.0 <= r.favCoverRate <= 1.0 {
      assert r == BucketRowFor(df, r.bucket);
    }
  }

  function RowGames(r: BucketRow): int { r.games }

  /** The bucket sample sizes add up to the graded games whose spread is more than 0 and at
      most 20 points; a game outside every bin is not counted anywhere. */
  lemma SpreadImpactCountsBinnedGames(games: seq<Game>)
    ensures Sum(SpreadImpact(games), RowGames) == Count(GradedGames(games), InBucketFrom(0))
  {
    BucketRowsSum(GradedGames(games), 0);
  }

  lemma {:induction false} BucketRowsSum(df: seq<Game>, k: nat)
    requires k <= BucketCount
    ensures Sum(BucketRowsFrom(df, k), RowGames) == Count(df, InBucketFrom(k))
    decreases BucketCount - k
  {
    if k == BucketCount {
      CountNone(df, InBucketFrom(k));
    } else {
      BucketRowsSum(df, k + 1);
      CountSplit(df, InBucketFrom(k), InBucket(k), InBucketFrom(k + 1));
      var rest := BucketRowsFrom(df, k + 1);
      if Count(df, InBucket(k)) > 0 {
        SumAppend([BucketRowFor(df, k)], rest, RowGames);
        assert Sum([BucketRowFor(df, k)], RowGames) == Sum([], RowGames) + RowGames(BucketRowFor(df, k));
      }
    }
  }

  // ---------------------------------------------------------------------------
  // Weekly surprise

  datatype WeekRow = WeekRow(week: int, favCoverRate: real, games: nat)

  function CoveredInWeek(w: int): Game -> bool { (g: Game) => g.week == w && FavCovered(g) }

  function WeekRowFor(df: seq<Game>, w: int): (r: WeekRow)
    ensures r.week == w && r.games == Count(df, InWeek(w))
    ensures 0.0 <= r.favCoverRate <= 1.0
    ensures r.favCoverRate == Rate(Count(df, CoveredInWeek(w)), r.games)
  {
    assert forall g :: g in df && CoveredInWeek(w)(g) ==> InWeek(w)(g) by {
      forall g | g in df && CoveredInWeek(w)(g) ensures InWeek(w)(g) { assert WeekOf(g) == w; }
    }
    CountMono(df, CoveredInWeek(w), InWeek(w));
    WeekRow(w, Rate(Count(df, CoveredInWeek(w)), Count(df, InWeek(w))), Count(df, InWeek(w)))
  }

  /** `weekly_surprise`: favourite cover rate per week over the graded games, weeks ascending. */
  function WeeklySurprise(games: seq<Game>): (rows: seq<WeekRow>)
    ensures forall i, j :: 0 <= i < j < |rows| ==> rows[i].week < rows[j].week
    ensures forall r :: r in rows ==> r.games > 0 && 0.0 <= r.favCoverRate <= 1.0
    ensures forall r :: r in rows ==> exists g :: g in games && Graded(g) && g.week == r.week
    ensures forall g :: g in games && Graded(g) ==> exists r :: r in rows && r.week == g.week
    ensures forall r :: r in rows ==> r == WeekRowFor(GradedGames(games), r.week)
  {
    var df := GradedGames(games);
    var ws := SortedWeeks(df);
    WeekRowsFacts(games, df, ws);
    WeekRows(df, ws)
  }

  /** One row per listed week, in the order of the weeks. */
  function WeekRows(df: seq<Game>, ws: seq<int>): (rows: seq<WeekRow>)
    ensures |rows| == |ws|
    ensures forall i :: 0 <= i < |ws| ==> rows[i] == WeekRowFor(df, ws[i])
  {
    Map(ws, w => WeekRowFor(df, w))
  }

  lemma WeekRowsFacts(games: seq<Game>, df: seq<Game>, ws: seq<int>)
    requires df == GradedGames(games) && ws == SortedWeeks(df)
    ensures forall i, j :: 0 <= i < j < |WeekRows(df, ws)| ==> WeekRows(df, ws)[i].week < WeekRows(df, ws)[j].week
    ensures forall r :: r in WeekRows(df, ws) ==> r.games > 0 && 0.0 <= r.favCoverRate <= 1.0
    ensures forall r :: r in WeekRows(df, ws) ==> exists g :: g in games && Graded(g) && g.week == r.week
    ensures forall g :: g in games && Graded(g) ==> exists r :: r in WeekRows(df, ws) && r.week == g.week
    ensures forall r :: r in WeekRows(df, ws) ==> r == WeekRowFor(df, r.week)
  {
    var rows := WeekRows(df, ws);
    forall r | r in rows ensures r == WeekRowFor(df, r.week) {
      var i :| 0 <= i < |rows| && rows[i] == r;
    }
    forall r | r in rows ensures r.games > 0 && exists g :: g in games && Graded(g) && g.week == r.week {
      var i :| 0 <= i < |rows| && rows[i] == r;
      assert ws[i] in ws;
      var g :| g in df && g.week == ws[i];
      WeekRowPositive(df, ws[i]);
    }
    forall g | g in games && Graded(g) ensures exists r :: r in rows && r.week == g.week {
      assert g in df;
      assert g.week in ws;
      var i :| 0 <= i < |ws| && ws[i] == g.week;
      assert rows[i] in rows;
    }
  }

  /** A week that some game has has a non-empty row. */
  lemma WeekRowPositive(df: seq<Game>, w: int)
    requires exists g :: g in df && g.week == w
    ensures WeekRowFor(df, w).games > 0
  {
    var g :| g in df && g.week == w;
    var k :| 0 <= k < |df| && df[k] == g;
    assert InWeek(w)(df[k]) by { assert WeekOf(g) == w; }
    CountPositive(df, InWeek(w), k);
  }

  function WeekRowGames(r: WeekRow): int { r.games }

  /** Every graded game is counted in exactly one weekly row. */
  lemma WeeklySurpriseCountsGradedGames(games: seq<Game>)
    ensures Sum(WeeklySurprise(games), WeekRowGames) == |GradedGames(games)|
  {
    var df := GradedGames(games);
    var ws := SortedWeeks(df);
    assert forall g :: g in df ==> WeekOf(g) in ws;
    GroupTotalIsLength(df, WeekOf, ws);
    WeekRowsSum(df, ws);
  }

  lemma {:induction false} WeekRowsSum(df: seq<Game>, ws: seq<int>)
    ensures Sum(WeekRows(df, ws), WeekRowGames) == GroupTotal(df, WeekOf, ws)
  {
    if ws != [] {
      var rows := WeekRows(df, ws);
      WeekRowsSum(df, ws[1..]);
      assert rows == [WeekRowFor(df, ws[0])] + WeekRows(df, ws[1..]);
      SumAppend([WeekRowFor(df, ws[0])], WeekRows(df, ws[1..]), WeekRowGames);
      assert Sum([WeekRowFor(df, ws[0])], WeekRowGames) == Sum([], WeekRowGames) + WeekRowGames(WeekRowFor(df, ws[0]));
    }
  }

  // ---------------------------------------------------------------------------
  // How often each player picks the favourite

  /** The five game columns the pick table is joined with. */
  datatype FavInfo = FavInfo(week: int, game: int, home: Team, away: Team, spread: Option<int>)

  function FavInfoOf(g: Game): FavInfo { FavInfo(g.week, g.game, g.home, g.away, g.spread) }

  function InfoKey(i: FavInfo): (int, int) { (i.week, i.game) }

  /** A pick joined with the game it names. */
  type FavPick = (Pick, FavInfo)

  predicate PickedFav(q: FavPick) { q.0.pick == Favorite(q.1.home, q.1.away, q.1.spread) }

  function ByPlayer(p: Player): FavPick -> bool { (q: FavPick) => q.0.player == p }
  function FavBy(p: Player): FavPick -> bool { (q: FavPick) => q.0.player == p && PickedFav(q) }

  /** The picks joined, on (week, game), with the distinct five-column game rows; a pick with no
      game row is dropped. */
  function FavMerged(picks: seq<Pick>, games: seq<Game>): seq<FavPick>
  {
    Join(picks, Distinct(Map(games, FavInfoOf)), PickKey, InfoKey)
  }

  datatype FavRow = FavRow(player: Player, favRate: real, total: nat)

  function FavRowFor(merged: seq<FavPick>, p: Player): (r: FavRow)
    ensures r.player == p && r.total == Count(merged, ByPlayer(p))
    ensures 0.0 <= r.favRate <= 1.0
    ensures r.favRate == Rate(Count(merged, FavBy(p)), r.total)
  {
    CountMono(merged, FavBy(p), ByPlayer(p));
    FavRow(p, Rate(Count(merged, FavBy(p)), Count(merged, ByPlayer(p))), Count(merged, ByPlayer(p)))
  }

  function MergedPlayer(q: FavPick): Player { q.0.player }

  predicate ByFavRateDesc(a: FavRow, b: FavRow) { a.favRate >= b.favRate }

  lemma ByFavRateDescTotal()
    ensures TotalPreorder(ByFavRateDesc)
  {
  }

  /** `player_fav_underdog_rate`: one row per player with a joined pick, by fav_rate descending. */
  function PlayerFavUnderdogRate(picks: seq<Pick>, games: seq<Game>): (rows: seq<FavRow>)
    ensures forall r :: r in rows ==> r == FavRowFor(FavMerged(picks, games), r.player)
    ensures forall r :: r in rows ==> r.total > 0 && 0.0 <= r.favRate <= 1.0
    ensures forall p :: (exists r :: r in rows && r.player == p) <==> p in Map(FavMerged(picks, games), MergedPlayer)
    ensures forall i, j :: 0 <= i < j < |rows| ==> rows[i].player != rows[j].player
    ensures forall i, j :: 0 <= i < j < |rows| ==> rows[i].favRate >= rows[j].favRate
  {
    var merged := FavMerged(picks, games);
    var players := Distinct(Map(merged, MergedPlayer));
    var built := Map(players, p => FavRowFor(merged, p));
    FavRowsFacts(merged, players);
    ByFavRateDescTotal();
    SortSorted(built, ByFavRateDesc);
    SortSameElements(built, ByFavRateDesc);
    NoDupPermutation(built, Sort(built, ByFavRateDesc));
    var rows := Sort(built, ByFavRateDesc);
    forall i, j | 0 <= i < j < |rows| ensures rows[i].player != rows[j].player {
      assert rows[i] in built && rows[j] in built;
      assert rows[i] != rows[j];
    }
    rows
  }

  lemma FavRowsFacts(merged: seq<FavPick>, players: seq<Player>)
    requires NoDup(players)
    requires forall p :: p in players <==> p in Map(merged, MergedPlayer)
    ensures NoDup(Map(players, p => FavRowFor(merged, p)))
    ensures forall r :: r in Map(players, p => FavRowFor(merged, p)) ==>
              r == FavRowFor(merged, r.player) && r.total > 0 && r.player in players
    ensures forall p :: (exists r :: r in Map(players, p => FavRowFor(merged, p)) && r.player == p) <==> p in players
  {
    var built := Map(players, p => FavRowFor(merged, p));
    forall r | r in built ensures r == FavRowFor(merged, r.player) && r.total > 0 && r.player in players {
      var i :| 0 <= i < |built| && built[i] == r;
      assert players[i] in Map(merged, MergedPlayer);
      var k :| 0 <= k < |merged| && Map(merged, MergedPlayer)[k] == players[i];
      CountPositive(merged, ByPlayer(players[i]), k);
    }
    forall p | p in players ensures exists r :: r in built && r.player == p {
      var i :| 0 <= i < |players| && players[i] == p;
      assert built[i] in built;
    }
  }

  /** A game table with one row per (week, game) gives each player's `total` as the number of
      that player's picks whose game is in the table: the other picks are dropped. */
  lemma FavTotalCountsMatchedPicks(picks: seq<Pick>, games: seq<Game>, p: Player)
    requires UniqueKeys(games, GameKey)
    ensures FavRowFor(FavMerged(picks, games), p).total ==
            Count(picks, (k: Pick) => k.player == p && PickKey(k) in Map(games, GameKey))
  {
    var mapped := Map(games, FavInfoOf);
    var info := Distinct(mapped);
    assert UniqueKeys(mapped, InfoKey) by {
      forall i, j | 0 <= i < j < |mapped| ensures InfoKey(mapped[i]) != InfoKey(mapped[j]) {
        assert InfoKey(mapped[i]) == GameKey(games[i]) && InfoKey(mapped[j]) == GameKey(games[j]);
      }
    }
    UniqueKeysSubset(mapped, info, InfoKey);
    var pk := (k: Pick) => k.player == p && PickKey(k) in Map(info, InfoKey);
    CountJoinLeft(picks, info, PickKey, InfoKey, ByPlayer(p), (k: Pick) => k.player == p, pk);
    forall k: Pick ensures PickKey(k) in Map(info, InfoKey) <==> PickKey(k) in Map(games, GameKey) {
      if PickKey(k) in Map(info, InfoKey) {
        var i :| 0 <= i < |info| && Map(info, InfoKey)[i] == PickKey(k);
        assert info[i] in mapped;
        var j :| 0 <= j < |mapped| && mapped[j] == info[i];
        assert Map(games, GameKey)[j] == PickKey(k);
      }
      if PickKey(k) in Map(games, GameKey) {
        var j :| 0 <= j < |games| && Map(games, GameKey)[j] == PickKey(k);
        assert mapped[j] in info;
        var i :| 0 <= i < |info| && info[i] == mapped[j];
        assert Map(info, InfoKey)[i] == PickKey(k);
      }
    }
    CountExt(picks, pk, (k: Pick) => k.player == p && PickKey(k) in Map(games, GameKey));
  }
}
