/** The record store: one row per game, one row per pick, one row per team of metadata,
    the fixed roster of players, and the notions every statistic shares (the favourite,
    a guarded rate, the (week, game) key). */
module Records {
  import opened Seqs

  type Team = string
  type Player = string

  datatype Option<T> = None | Some(value: T)

  /** The value `ats_winner` holds when neither side covered. */
  const PUSH: string := "PUSH"

  /** One row of the games table. The spread is in half-points (spreads move in steps of 0.5)
      and is negative when the home team is favoured; a missing cell (a score too) is `None`. `correct` holds
      one flag per player: whether that player's pick covered. */
  datatype Game = Game(
    week: int,
    game: int,
    home: Team,
    away: Team,
    scoreHome: Option<int>,
    scoreAway: Option<int>,
    spread: Option<int>,
    atsWinner: Option<string>,
    temperature: Option<real>,
    wind: Option<real>,
    detail: Option<string>,
    correct: map<Player, bool>)

  /** One row of the picks table. */
  datatype Pick = Pick(week: int, game: int, player: Player, pick: Team)

  /** One row of the team metadata table. */
  datatype TeamMeta = TeamMeta(teamId: Team, conference: Option<string>, division: Option<string>)

  const PLAYERS: seq<Player> := [
    "ADon", "Exciting Whites", "Kevin", "MC$", "Maye Magic", "P-Otys",
    "Ripw1124", "Vegas", "Willheser", "Yianni", "b_hop", "derelicious", "mrmcwinnerson"]

  function GameKey(g: Game): (int, int) { (g.week, g.game) }

  function PickKey(p: Pick): (int, int) { (p.week, p.game) }

  function WeekOf(g: Game): int { g.week }

  /** Whether player `p`'s pick for game `g` covered; a player without a flag counts as not. */
  predicate Correct(g: Game, p: Player)
  {
    p in g.correct && g.correct[p]
  }

  /** The favourite: the home team when the spread is negative, otherwise the away team.
      A zero or missing spread names the away team, because `NaN < 0` is false. */
  function Favorite(home: Team, away: Team, spread: Option<int>): (t: Team)
    ensures t == home <== spread.Some? && spread.value < 0
    ensures t == away <== !(spread.Some? && spread.value < 0)
  {
    if spread.Some? && spread.value < 0 then home else away
  }

  function Abs(x: int): nat { if x < 0 then -x else x }

  /** A rate over integer counts, 0 when there is nothing to divide by. */
  function Rate(num: nat, den: nat): (r: real)
    ensures den == 0 ==> r == 0.0
    ensures den > 0 ==> r * den as real == num as real
    ensures 0.0 <= r
    ensures 0 < num && 0 < den ==> 0.0 < r
    ensures num <= den ==> r <= 1.0
  {
    if den == 0 then 0.0 else num as real / den as real
  }

  /** The rows of `games` with week `w`. */
  function InWeek(w: int): Game -> bool
  {
    KeyIs(WeekOf, w)
  }

  /** The distinct weeks of a table, in ascending order. */
  function SortedWeeks(df: seq<Game>): (ws: seq<int>)
    ensures forall i, j :: 0 <= i < j < |ws| ==> ws[i] < ws[j]
    ensures forall w :: w in ws <==> exists g :: g in df && g.week == w
    ensures NoDup(ws)
  {
    var d := Distinct(Map(df, WeekOf));
    assert forall w :: w in d <==> exists g :: g in df && g.week == w by {
      forall w ensures w in d <==> exists g :: g in df && g.week == w {
        if w in d {
          var i :| 0 <= i < |df| && Map(df, WeekOf)[i] == w;
          assert df[i] in df;
        }
        if g :| g in df && g.week == w {
          var i :| 0 <= i < |df| && df[i] == g;
          assert Map(df, WeekOf)[i] == w;
        }
      }
    }
    assert TotalPreorder(IntLe);
    SortSorted(d, IntLe);
    SortSameElements(d, IntLe);
    NoDupPermutation(d, Sort(d, IntLe));
    Sort(d, IntLe)
  }
}
