/** The season series the leaderboard charts are drawn from: weekly scores recovered from the
    running totals, and their three-week rolling mean. Each function works on one player's
    column; the tables apply it to every column alike. */
module ScoreSeries {
  import opened Records
  import opened Weekly

  /** The difference of each entry from the one before (`diff`); the first entry has none. */
  function Diff(c: seq<int>): (d: seq<Option<int>>)
    ensures |d| == |c|
    ensures |c| > 0 ==> d[0] == None
    ensures forall i :: 0 < i < |c| ==> d[i] == Some(c[i] - c[i - 1])
  {
    seq(|c|, i requires 0 <= i < |c| => if i == 0 then None else Some(c[i] - c[i - 1]))
  }

  /** The weekly scores of a running-total column: its differences, with the first week's total
      written over the missing first difference. They are the only scores with these totals. An
      empty table has no first or last week to read, so the dashboard fails: `None`. */
  method WeeklyFromCumulative(c: seq<int>) returns (w: Option<seq<int>>)
    ensures w.None? <==> |c| == 0
    ensures w.Some? ==> Cumulative(w.value) == c
    ensures w.Some? ==> forall xs :: Cumulative(xs) == c ==> xs == w.value
  {
    if |c| == 0 {
      return None;
    }
    var d := new Option<int>[|c|];
    var diff := Diff(c);
    forall i | 0 <= i < |c| {
      d[i] := diff[i];
    }
    d[0] := Some(c[0]);
    assert forall i :: 0 <= i < |c| ==> d[i].Some?;
    var column := d[..];
    var scores := seq(|c|, i requires 0 <= i < |c| => if column[i].Some? then column[i].value else 0);
    assert scores[0] == c[0];
    assert forall i :: 0 < i < |c| ==> scores[i] == c[i] - c[i - 1];
    CumulativeOfDiffs(c, scores);
    forall xs | Cumulative(xs) == c ensures xs == scores {
      CumulativeInjective(xs, scores);
    }
    w := Some(scores);
  }

  /** Running totals of the differences of `c`, started at `c[0]`, give back `c`. */
  lemma CumulativeOfDiffs(c: seq<int>, w: seq<int>)
    requires |w| == |c| > 0
    requires w[0] == c[0]
    requires forall i :: 0 < i < |c| ==> w[i] == c[i] - c[i - 1]
    ensures Cumulative(w) == c
  {
    forall k | 0 <= k < |c| ensures Cumulative(w)[k] == c[k] {
      TotalOfDiffs(c, w, k);
    }
  }

  lemma {:induction false} TotalOfDiffs(c: seq<int>, w: seq<int>, k: nat)
    requires |w| == |c| > 0
    requires w[0] == c[0]
    requires forall i :: 0 < i < |c| ==> w[i] == c[i] - c[i - 1]
    requires k < |c|
    ensures Total(w[..k + 1]) == c[k]
  {
    assert w[..k + 1][..k] == w[..k];
    if k == 0 {
      assert Total(w[..0]) == 0;
    } else {
      TotalOfDiffs(c, w, k - 1);
    }
  }

  /** The window of entry `i`: the entries from `i - 2` (or the start) to `i`. */
  function WindowStart(i: nat): nat { if i < 2 then 0 else i - 2 }

  /** Mean of the last up-to-three entries ending at each week (`rolling(3, min_periods=1).mean()`). */
  function Rolling3(xs: seq<int>): (r: seq<real>)
    ensures |r| == |xs|
  {
    seq(|xs|, i requires 0 <= i < |xs| =>
      Total(xs[WindowStart(i)..i + 1]) as real / (i + 1 - WindowStart(i)) as real)
  }

  /** The rolling mean of the first week is its score, of the second the mean of the first two,
      and from the third week on the mean of that week and the two before it. */
  lemma RollingWindows(xs: seq<int>)
    ensures |xs| > 0 ==> Rolling3(xs)[0] == xs[0] as real
    ensures |xs| > 1 ==> Rolling3(xs)[1] == (xs[0] + xs[1]) as real / 2.0
    ensures forall i :: 2 <= i < |xs| ==> Rolling3(xs)[i] == (xs[i - 2] + xs[i - 1] + xs[i]) as real / 3.0
  {
    if |xs| > 0 {
      assert xs[0..1][..0] == [];
      assert Total(xs[0..1]) == xs[0];
      assert Rolling3(xs)[0] == Total(xs[0..1]) as real / 1.0;
    }
    if |xs| > 1 {
      assert xs[0..2][..1] == xs[0..1];
      assert xs[0..1][..0] == [];
      assert Total(xs[0..2]) == xs[0] + xs[1];
      assert Rolling3(xs)[1] == Total(xs[0..2]) as real / 2.0;
    }
    forall i | 2 <= i < |xs| ensures Rolling3(xs)[i] == (xs[i - 2] + xs[i - 1] + xs[i]) as real / 3.0 {
      FullWindow(xs, i);
    }
  }

  lemma FullWindow(xs: seq<int>, i: nat)
    requires 2 <= i < |xs|
    ensures Rolling3(xs)[i] == (xs[i - 2] + xs[i - 1] + xs[i]) as real / 3.0
  {
    var w := xs[i - 2..i + 1];
    assert w[..2] == xs[i - 2..i];
    assert w[..2][..1] == xs[i - 2..i - 1];
    assert xs[i - 2..i - 1][..0] == [];
    assert Total(xs[i - 2..i - 1]) == xs[i - 2];
    assert Total(xs[i - 2..i]) == xs[i - 2] + xs[i - 1];
    assert Total(w) == xs[i - 2] + xs[i - 1] + xs[i];
    assert Rolling3(xs)[i] == Total(w) as real / 3.0;
  }

  /** The rolling mean read off the running totals: from the fourth week on it is the gain of the
      running total over the last three weeks, divided by three; before that it is the running
      total divided by the number of weeks so far. */
  lemma RollingFromCumulative(w: seq<int>, i: nat)
    requires i < |w|
    ensures i >= 3 ==> Rolling3(w)[i] == (Cumulative(w)[i] - Cumulative(w)[i - 3]) as real / 3.0
    ensures i < 3 ==> Rolling3(w)[i] == Cumulative(w)[i] as real / (i + 1) as real
  {
    var c := Cumulative(w);
    if i >= 3 {
      FullWindow(w, i);
      CumulativeStep(w, i);
      CumulativeStep(w, i - 1);
      CumulativeStep(w, i - 2);
      assert c[i] - c[i - 3] == w[i - 2] + w[i - 1] + w[i];
    } else {
      assert w[WindowStart(i)..i + 1] == w[..i + 1];
      assert c[i] == Total(w[..i + 1]);
    }
  }
}
