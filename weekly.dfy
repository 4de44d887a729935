/** Per-player weekly scores: the number of covered picks in each week, their running total
    over the season, and the best and worst three-week windows. */
module Weekly {
  import opened Seqs
  import opened Records

  /** Games of week `w` that player `p` picked correctly. */
  function CorrectIn(p: Player, w: int): Game -> bool { (g: Game) => g.week == w && Correct(g, p) }

  /** Player `p`'s correct picks in each week of the season, weeks ascending (the player's column
      of `groupby("week")[PLAYERS].sum()`). */
  function WeeklyScores(games: seq<Game>, p: Player): (s: seq<nat>)
    ensures |s| == |SortedWeeks(games)|
    ensures forall i :: 0 <= i < |s| ==> s[i] == Count(games, CorrectIn(p, SortedWeeks(games)[i]))
  {
    var weeks := SortedWeeks(games);
    seq(|weeks|, i requires 0 <= i < |weeks| => Count(games, CorrectIn(p, weeks[i])))
  }

  /** A week's score never exceeds the number of games played that week. */
  lemma WeeklyScoreAtMostGames(games: seq<Game>, p: Player, i: nat)
    requires i < |SortedWeeks(games)|
    ensures WeeklyScores(games, p)[i] <= Count(games, InWeek(SortedWeeks(games)[i]))
  {
    var w := SortedWeeks(games)[i];
    assert forall g :: g in games && CorrectIn(p, w)(g) ==> InWeek(w)(g) by {
      forall g | g in games && CorrectIn(p, w)(g) ensures InWeek(w)(g) { assert WeekOf(g) == w; }
    }
    CountMono(games, CorrectIn(p, w), InWeek(w));
  }

  // ---------------------------------------------------------------------------
  // Running totals

  function Total(xs: seq<int>): int
  {
    if xs == [] then 0 else Total(xs[..|xs| - 1]) + xs[|xs| - 1]
  }

  /** The running total (`cumsum`): entry `i` is the total of the first `i + 1` values. */
  function Cumulative(xs: seq<int>): (c: seq<int>)
    ensures |c| == |xs|
    ensures forall i :: 0 <= i < |xs| ==> c[i] == Total(xs[..i + 1])
  {
    if xs == [] then []
    else
      var init := xs[..|xs| - 1];
      var c := Cumulative(init);
      forall i | 0 <= i < |init| ensures c[i] == Total(xs[..i + 1]) {
        assert init[..i + 1] == xs[..i + 1];
      }
      assert xs[..|xs|] == xs;
      c + [Total(xs)]
  }

  /** Consecutive running totals differ by the value in between. */
  lemma CumulativeStep(xs: seq<int>, i: nat)
    requires 0 < i < |xs|
    ensures Cumulative(xs)[i] == Cumulative(xs)[i - 1] + xs[i]
  {
    assert xs[..i + 1][..i] == xs[..i];
  }

  /** No entry is larger than a later one. */
  predicate NonDecreasing(xs: seq<int>)
  {
    forall i, j :: 0 <= i <= j < |xs| ==> xs[i] <= xs[j]
  }

  /** The running total of scores that are never negative never decreases. */
  lemma CumulativeNonDecreasing(xs: seq<int>)
    requires forall k :: 0 <= k < |xs| ==> xs[k] >= 0
    ensures NonDecreasing(Cumulative(xs))
  {
    forall i, j | 0 <= i <= j < |xs| ensures Cumulative(xs)[i] <= Cumulative(xs)[j] {
      CumulativeMonotoneFrom(xs, i, j);
    }
  }

  lemma {:induction false} CumulativeMonotoneFrom(xs: seq<int>, i: nat, j: nat)
    requires forall k :: 0 <= k < |xs| ==> xs[k] >= 0
    requires i <= j < |xs|
    ensures Cumulative(xs)[i] <= Cumulative(xs)[j]
    decreases j - i
  {
    if i < j {
      CumulativeMonotoneFrom(xs, i, j - 1);
      CumulativeStep(xs, j);
    }
  }

  /** Two series with the same running totals are the same series. */
  lemma CumulativeInjective(xs: seq<int>, ys: seq<int>)
    requires Cumulative(xs) == Cumulative(ys)
    ensures xs == ys
  {
    assert |xs| == |ys|;
    forall i | 0 <= i < |xs| ensures xs[i] == ys[i] {
      if i == 0 {
        assert xs[..1][..0] == [] && ys[..1][..0] == [];
        assert Total(xs[..1]) == Total(xs[..1][..0]) + xs[0];
        assert Total(ys[..1]) == Total(ys[..1][..0]) + ys[0];
        assert Cumulative(xs)[0] == xs[0] && Cumulative(ys)[0] == ys[0];
      } else {
        CumulativeStep(xs, i);
        CumulativeStep(ys, i);
      }
    }
  }

  /** `weekly_cumulative`: for every player, the running total of the weekly scores. */
  function WeeklyCumulative(games: seq<Game>): (t: map<Player, seq<int>>)
    ensures forall p :: p in t <==> p in PLAYERS
    ensures forall p :: p in t ==> |t[p]| == |SortedWeeks(games)|
    ensures forall p :: p in t ==> t[p] == Cumulative(WeeklyScores(games, p))
    ensures forall p :: p in t ==> NonDecreasing(t[p])
  {
    CumulativeTable(games, PLAYERS)
  }

  /** The running totals of every player of `players`. */
  function CumulativeTable(games: seq<Game>, players: seq<Player>): (t: map<Player, seq<int>>)
    ensures forall p :: p in t <==> p in players
    ensures forall p :: p in t ==> |t[p]| == |SortedWeeks(games)|
    ensures forall p :: p in t ==> t[p] == Cumulative(WeeklyScores(games, p))
    ensures forall p :: p in t ==> NonDecreasing(t[p])
  {
    var t := map p | p in players :: Cumulative(WeeklyScores(games, p));
    forall p | p in t ensures NonDecreasing(t[p]) {
      CumulativeNonDecreasing(WeeklyScores(games, p));
    }
    t
  }

  // ---------------------------------------------------------------------------
  // Hot and cold streaks

  /** The number of three-week windows of `s`. */
  function Windows(s: seq<nat>): nat { if |s| >= 2 then |s| - 2 else 0 }

  function WindowSum(s: seq<nat>, i: nat): nat
    requires i + 2 < |s|
  {
    s[i] + s[i + 1] + s[i + 2]
  }

  /** `i` is the first window with the largest sum among the first `n` windows. */
  ghost predicate BestAmong(s: seq<nat>, n: nat, i: nat)
    requires n <= Windows(s)
  {
    && i < n
    && (forall j :: 0 <= j < n ==> WindowSum(s, j) <= WindowSum(s, i))
    && (forall j :: 0 <= j < i ==> WindowSum(s, j) < WindowSum(s, i))
  }

  /** `i` is the first window with the smallest sum among the first `n` windows. */
  ghost predicate WorstAmong(s: seq<nat>, n: nat, i: nat)
    requires n <= Windows(s)
  {
    && i < n
    && (forall j :: 0 <= j < n ==> WindowSum(s, j) >= WindowSum(s, i))
    && (forall j :: 0 <= j < i ==> WindowSum(s, j) > WindowSum(s, i))
  }

  /** One row of the streak table: the first and third week of each window and its total. */
  datatype Streak = Streak(bestWeeks: (int, int), bestCorrect: int, worstWeeks: (int, int), worstCorrect: int)

  /** The streak row the scan reports for scores `s` over `weeks`. */
  ghost predicate IsStreak(weeks: seq<int>, s: seq<nat>, r: Streak)
  {
    && |s| == |weeks| >= 3
    && (exists b: nat :: BestAmong(s, Windows(s), b) && r.bestCorrect == WindowSum(s, b) && r.bestWeeks == (weeks[b], weeks[b + 2]))
    && ((exists j :: 0 <= j < Windows(s) && WindowSum(s, j) < WorstStartSum) ==>
          exists w: nat :: WorstAmong(s, Windows(s), w) && r.worstCorrect == WindowSum(s, w) && r.worstWeeks == (weeks[w], weeks[w + 2]))
    && ((forall j :: 0 <= j < Windows(s) ==> WindowSum(s, j) >= WorstStartSum) ==>
          r.worstCorrect == WorstStartSum && r.worstWeeks == (weeks[0], weeks[2]))
  }

  /** One player's row: the scan, then the weeks at the start and the end of each window. */
  method StreakRow(weeks: seq<int>, s: seq<nat>) returns (r: Streak)
    requires |s| == |weeks| >= 3
    ensures IsStreak(weeks, s, r)
  {
    var bestSum, bestStart, worstSum, worstStart := ScanWindows(s);
    r := Streak((weeks[bestStart], weeks[bestStart + 2]), bestSum,
                (weeks[worstStart], weeks[worstStart + 2]), worstSum);
    assert BestAmong(s, Windows(s), bestStart);
    if exists j :: 0 <= j < Windows(s) && WindowSum(s, j) < WorstStartSum {
      assert WorstAmong(s, Windows(s), worstStart);
    }
  }

  /** The best streak is never below the worst. */
  lemma BestAtLeastWorst(weeks: seq<int>, s: seq<nat>, r: Streak)
    requires |s| == |weeks| >= 3
    requires IsStreak(weeks, s, r)
    ensures r.bestCorrect >= r.worstCorrect
  {
    var b: nat :| BestAmong(s, Windows(s), b) && r.bestCorrect == WindowSum(s, b) && r.bestWeeks == (weeks[b], weeks[b + 2]);
    if exists j :: 0 <= j < Windows(s) && WindowSum(s, j) < WorstStartSum {
      var w: nat :| WorstAmong(s, Windows(s), w) && r.worstCorrect == WindowSum(s, w) && r.worstWeeks == (weeks[w], weeks[w + 2]);
      assert WindowSum(s, w) <= WindowSum(s, b);
    } else {
      assert WindowSum(s, b) >= WorstStartSum;
    }
  }

  /** The sentinel the scan starts the worst sum from. */
  const WorstStartSum: int := 999

  /** The scan over the windows of `s`: the best window beats the starting -1 and every
      earlier window strictly; the worst window must go strictly below 999, so when no window
      does, the worst is reported as 999 at window 0. */
  method ScanWindows(s: seq<nat>) returns (bestSum: int, bestStart: nat, worstSum: int, worstStart: nat)
    ensures Windows(s) > 0 ==> BestAmong(s, Windows(s), bestStart) && bestSum == WindowSum(s, bestStart)
    ensures Windows(s) == 0 ==> bestSum == -1 && bestStart == 0
    ensures (exists j :: 0 <= j < Windows(s) && WindowSum(s, j) < WorstStartSum) ==>
              WorstAmong(s, Windows(s), worstStart) && worstSum == WindowSum(s, worstStart)
    ensures (forall j :: 0 <= j < Windows(s) ==> WindowSum(s, j) >= WorstStartSum) ==>
              worstSum == WorstStartSum && worstStart == 0
  {
    bestSum, bestStart := -1, 0;
    worstSum, worstStart := WorstStartSum, 0;
    for i := 0 to Windows(s)
      invariant i > 0 ==> BestAmong(s, i, bestStart) && bestSum == WindowSum(s, bestStart)
      invariant i == 0 ==> bestSum == -1 && bestStart == 0
      invariant (exists j :: 0 <= j < i && WindowSum(s, j) < WorstStartSum) ==>
                  WorstAmong(s, i, worstStart) && worstSum == WindowSum(s, worstStart)
      invariant (forall j :: 0 <= j < i ==> WindowSum(s, j) >= WorstStartSum) ==>
                  worstSum == WorstStartSum && worstStart == 0
    {
      var sum := s[i] + s[i + 1] + s[i + 2];
      if sum > bestSum {
        bestSum, bestStart := sum, i;
      }
      if sum < worstSum {
        worstSum, worstStart := sum, i;
      }
    }
  }

  /** The first best window is unique: the scan's answer is the only one. */
  lemma BestUnique(s: seq<nat>, n: nat, i: nat, k: nat)
    requires n <= Windows(s)
    requires BestAmong(s, n, i) && BestAmong(s, n, k)
    ensures i == k
  {
    assert WindowSum(s, i) == WindowSum(s, k);
  }

  /** `hot_cold_streaks`: a streak row for every player. Fewer than three weeks is an error in
      the source (the reported weeks index past the end), modelled as `None`. */
  method HotColdStreaks(games: seq<Game>) returns (r: Option<map<Player, Streak>>)
    ensures r.None? <==> |SortedWeeks(games)| < 3
    ensures r.Some? ==> forall p :: p in r.value <==> p in PLAYERS
    ensures r.Some? ==> forall p :: p in r.value ==> IsStreak(SortedWeeks(games), WeeklyScores(games, p), r.value[p])
  {
    var weeks := SortedWeeks(games);
    if |weeks| < 3 {
      return None;
    }
    var results := StreakTable(games, weeks, PLAYERS);
    return Some(results);
  }

  /** The loop over the players, filling the result table one player at a time. */
  method StreakTable(games: seq<Game>, weeks: seq<int>, players: seq<Player>) returns (results: map<Player, Streak>)
    requires weeks == SortedWeeks(games) && |weeks| >= 3
    ensures forall p :: p in results <==> p in players
    ensures forall p :: p in results ==> IsStreak(weeks, WeeklyScores(games, p), results[p])
  {
    results := map[];
    for k := 0 to |players|
      invariant KeyedBy(players, k, results)
      invariant RowsAreStreaks(games, weeks, results)
    {
      var row := StreakRow(weeks, WeeklyScores(games, players[k]));
      KeysStep(players, k, results, row);
      RowsExtend(games, weeks, results, players[k], row);
      results := results[players[k] := row];
    }
    assert players[..|players|] == players;
  }

  /** The table's keys are exactly the first `k` entries of `keys`. */
  ghost predicate KeyedBy<K, V>(keys: seq<K>, k: nat, table: map<K, V>)
  {
    && k <= |keys|
    && (forall q :: q in table ==> q in keys[..k])
    && (forall j :: 0 <= j < k ==> keys[j] in table)
  }

  /** Adding entry `k` to a table keyed by the first `k` entries keys it by the first `k + 1`. */
  lemma KeysStep<K, V>(keys: seq<K>, k: nat, table: map<K, V>, v: V)
    requires k < |keys| && KeyedBy(keys, k, table)
    ensures KeyedBy(keys, k + 1, table[keys[k] := v])
  {
    assert keys[..k + 1][k] == keys[k];
    forall q | q in table ensures q in keys[..k + 1] {
      var j :| 0 <= j < k && keys[..k][j] == q;
      assert keys[..k + 1][j] == q;
    }
  }

  /** Every row of the table is the streak row of its player. */
  ghost predicate RowsAreStreaks(games: seq<Game>, weeks: seq<int>, results: map<Player, Streak>)
  {
    forall p :: p in results ==> IsStreak(weeks, WeeklyScores(games, p), results[p])
  }

  /** Adding one player's row keeps every row of the table a streak row. */
  lemma RowsExtend(games: seq<Game>, weeks: seq<int>, results: map<Player, Streak>, p: Player, row: Streak)
    requires RowsAreStreaks(games, weeks, results)
    requires IsStreak(weeks, WeeklyScores(games, p), row)
    ensures RowsAreStreaks(games, weeks, results[p := row])
  {
    forall q | q in results[p := row] ensures IsStreak(weeks, WeeklyScores(games, q), results[p := row][q]) {
      if q != p {
        assert results[p := row][q] == results[q];
      }
    }
  }
}
