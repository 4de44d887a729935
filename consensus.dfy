/** The herd: the majority pick of every game, how often it covered, how often each player
    went against it and how those contrarian picks fared, and how often each player went
    with it. */
module Consensus {
  import opened Seqs
  import opened Strings
  import opened Records
  import opened PickStats

  type Key = (int, int)

  /** The picks of the game with key `key`. */
  function OfGame(key: Key): Pick -> bool { KeyIs(PickKey, key) }

  function TeamPickedIn(key: Key, t: Team): Pick -> bool { (k: Pick) => PickKey(k) == key && k.pick == t }

  /** How many players picked `t` in game `key` (the `n` column of the per-team pick counts). */
  function TeamCount(picks: seq<Pick>, key: Key, t: Team): (n: nat)
    ensures n <= Count(picks, OfGame(key))
  {
    assert forall k :: k in picks && TeamPickedIn(key, t)(k) ==> OfGame(key)(k) by {
      forall k | k in picks && TeamPickedIn(key, t)(k) ensures OfGame(key)(k) { assert PickKey(k) == key; }
    }
    CountMono(picks, TeamPickedIn(key, t), OfGame(key));
    Count(picks, TeamPickedIn(key, t))
  }

  function CountIn(picks: seq<Pick>, key: Key): Team -> nat { (t: Team) => TeamCount(picks, key, t) }

  /** The teams picked in game `key`, ascending: the order the per-team counts are grouped in. */
  function Candidates(picks: seq<Pick>, key: Key): seq<Team>
  {
    SortedKeys(Map(Filter(picks, OfGame(key)), PickedTeam))
  }

  /** A team is a candidate exactly when somebody picked it in that game. */
  lemma CandidatesPicked(picks: seq<Pick>, key: Key, t: Team)
    ensures t in Candidates(picks, key) <==> TeamCount(picks, key, t) > 0
  {
    var f := Filter(picks, OfGame(key));
    if t in Candidates(picks, key) {
      var i :| 0 <= i < |f| && Map(f, PickedTeam)[i] == t;
      assert f[i] in f;
      var k :| 0 <= k < |picks| && picks[k] == f[i];
      assert PickKey(f[i]) == key;
      CountPositive(picks, TeamPickedIn(key, t), k);
    } else {
      forall k | k in picks ensures !TeamPickedIn(key, t)(k) {
      }
      CountNone(picks, TeamPickedIn(key, t));
    }
  }

  /** The game has no candidates exactly when nobody picked in it. */
  lemma CandidatesEmpty(picks: seq<Pick>, key: Key)
    ensures Candidates(picks, key) == [] <==> Count(picks, OfGame(key)) == 0
  {
    var f := Filter(picks, OfGame(key));
    if f != [] {
      assert Map(f, PickedTeam)[0] in Candidates(picks, key);
    }
  }

  /** The position of the first largest value (`idxmax` keeps the first maximum). */
  function FirstMax(cands: seq<Team>, f: Team -> nat): (r: nat)
    requires cands != []
    ensures r < |cands|
    ensures forall j :: 0 <= j < |cands| ==> f(cands[j]) <= f(cands[r])
    ensures forall j :: 0 <= j < r ==> f(cands[j]) < f(cands[r])
  {
    if |cands| == 1 then 0
    else
      var b := FirstMax(cands[..|cands| - 1], f);
      if f(cands[|cands| - 1]) > f(cands[b]) then |cands| - 1 else b
  }

  /** The majority pick of game `key`: a team with the most picks, the smallest such team on a
      tie; none for a game nobody picked. */
  function MajorityPick(picks: seq<Pick>, key: Key): (m: Option<Team>)
    ensures m.None? <==> Count(picks, OfGame(key)) == 0
    ensures m.Some? ==> TeamCount(picks, key, m.value) > 0
    ensures m.Some? ==> forall t :: TeamCount(picks, key, t) <= TeamCount(picks, key, m.value)
    ensures m.Some? ==> forall t :: TeamCount(picks, key, t) == TeamCount(picks, key, m.value) ==> StrLe(m.value, t)
  {
    var c := Candidates(picks, key);
    CandidatesEmpty(picks, key);
    if c == [] then None
    else
      var i := FirstMax(c, CountIn(picks, key));
      MajorityFacts(picks, key, c, i);
      Some(c[i])
  }

  lemma MajorityFacts(picks: seq<Pick>, key: Key, c: seq<Team>, i: nat)
    requires c == Candidates(picks, key) && i < |c|
    requires forall j :: 0 <= j < |c| ==> CountIn(picks, key)(c[j]) <= CountIn(picks, key)(c[i])
    requires forall j :: 0 <= j < i ==> CountIn(picks, key)(c[j]) < CountIn(picks, key)(c[i])
    ensures TeamCount(picks, key, c[i]) > 0
    ensures forall t :: TeamCount(picks, key, t) <= TeamCount(picks, key, c[i])
    ensures forall t :: TeamCount(picks, key, t) == TeamCount(picks, key, c[i]) ==> StrLe(c[i], t)
  {
    CandidatesPicked(picks, key, c[i]);
    forall t ensures TeamCount(picks, key, t) <= TeamCount(picks, key, c[i])
      && (TeamCount(picks, key, t) == TeamCount(picks, key, c[i]) ==> StrLe(c[i], t))
    {
      CandidatesPicked(picks, key, t);
      if t in c {
        var j :| 0 <= j < |c| && c[j] == t;
        if j == i {
          StrLeTotal(t, t);
        } else if TeamCount(picks, key, t) == TeamCount(picks, key, c[i]) {
          assert i < j;
        }
      }
    }
  }

  // ---------------------------------------------------------------------------
  // The majority table

  /** The games that were picked, ordered by week and then game number. */
  predicate KeyLe(a: Key, b: Key) { a.0 < b.0 || (a.0 == b.0 && a.1 <= b.1) }

  function PickedGames(picks: seq<Pick>): (ks: seq<Key>)
    ensures NoDup(ks)
    ensures forall k :: k in ks <==> k in Map(picks, PickKey)
    ensures Sorted(ks, KeyLe)
  {
    var d := Distinct(Map(picks, PickKey));
    assert TotalPreorder(KeyLe);
    SortSorted(d, KeyLe);
    var ks := Sort(d, KeyLe);
    NoDupPermutation(d, ks);
    forall k ensures k in ks <==> k in Map(picks, PickKey) {
      assert k in ks <==> k in multiset(ks);
      assert k in d <==> k in multiset(d);
    }
    ks
  }

  /** The majority of one game before the results are attached. */
  datatype Majority = Majority(week: int, game: int, majorityPick: Team, majorityCount: nat, totalPickers: nat)

  function MajorityKey(m: Majority): Key { (m.week, m.game) }

  function MajorityOf(picks: seq<Pick>, key: Key): (m: Majority)
    requires Count(picks, OfGame(key)) > 0
    ensures MajorityKey(m) == key && Some(m.majorityPick) == MajorityPick(picks, key)
    ensures m.majorityCount == TeamCount(picks, key, m.majorityPick) && m.totalPickers == Count(picks, OfGame(key))
    ensures 0 < m.majorityCount <= m.totalPickers
  {
    var t := MajorityPick(picks, key).value;
    Majority(key.0, key.1, t, TeamCount(picks, key, t), Count(picks, OfGame(key)))
  }

  /** One majority row per picked game, in key order. */
  function Majorities(picks: seq<Pick>, ks: seq<Key>): (ms: seq<Majority>)
    requires forall k :: k in ks ==> Count(picks, OfGame(k)) > 0
    ensures |ms| == |ks|
    ensures forall i :: 0 <= i < |ks| ==> ms[i] == MajorityOf(picks, ks[i])
  {
    if ks == [] then [] else [MajorityOf(picks, ks[0])] + Majorities(picks, ks[1..])
  }

  /** The majority of every picked game, one row per game. */
  function MajorityTable(picks: seq<Pick>): (ms: seq<Majority>)
    ensures UniqueKeys(ms, MajorityKey)
    ensures forall m :: m in ms ==> Count(picks, OfGame(MajorityKey(m))) > 0 && m == MajorityOf(picks, MajorityKey(m))
    ensures forall k :: k in Map(ms, MajorityKey) <==> k in Map(picks, PickKey)
  {
    var ks := PickedGames(picks);
    PickedGamesPositive(picks, ks);
    var ms := Majorities(picks, ks);
    MajoritiesFacts(picks, ks, ms);
    ms
  }

  lemma PickedGamesPositive(picks: seq<Pick>, ks: seq<Key>)
    requires forall k :: k in ks ==> k in Map(picks, PickKey)
    ensures forall k :: k in ks ==> Count(picks, OfGame(k)) > 0
  {
    forall k | k in ks ensures Count(picks, OfGame(k)) > 0 {
      var i :| 0 <= i < |picks| && Map(picks, PickKey)[i] == k;
      CountPositive(picks, OfGame(k), i);
    }
  }

  lemma MajoritiesFacts(picks: seq<Pick>, ks: seq<Key>, ms: seq<Majority>)
    requires forall k :: k in ks ==> Count(picks, OfGame(k)) > 0
    requires ms == Majorities(picks, ks)
    ensures Map(ms, MajorityKey) == ks
    ensures forall m :: m in ms ==> Count(picks, OfGame(MajorityKey(m))) > 0 && m == MajorityOf(picks, MajorityKey(m))
  {
    MajorityKeys(picks, ks, ms);
    forall m | m in ms ensures Count(picks, OfGame(MajorityKey(m))) > 0 && m == MajorityOf(picks, MajorityKey(m)) {
      var i :| 0 <= i < |ms| && ms[i] == m;
      assert ks[i] in ks;
    }
  }

  lemma MajorityKeys(picks: seq<Pick>, ks: seq<Key>, ms: seq<Majority>)
    requires forall k :: k in ks ==> Count(picks, OfGame(k)) > 0
    requires ms == Majorities(picks, ks)
    ensures Map(ms, MajorityKey) == ks
  {
    assert forall i :: 0 <= i < |ms| ==> Map(ms, MajorityKey)[i] == ks[i];
  }

  /** A row of the majority table returned by `consensus_contrarian`. */
  datatype MajorityRow = MajorityRow(week: int, game: int, majorityPick: Team, majorityCount: nat,
                                     totalPickers: nat, consensusPct: real, atsWinner: Option<string>,
                                     majorityCorrect: bool)

  function RowKey(r: MajorityRow): Key { (r.week, r.game) }

  function MajorityRowOf(q: (Majority, Game)): (r: MajorityRow)
    ensures RowKey(r) == MajorityKey(q.0)
  {
    var m := q.0;
    MajorityRow(m.week, m.game, m.majorityPick, m.majorityCount, m.totalPickers,
                Rate(m.majorityCount, m.totalPickers), q.1.atsWinner, Some(m.majorityPick) == q.1.atsWinner)
  }

  /** The majority table joined with the game results on (week, game). */
  function ConsensusMajority(picks: seq<Pick>, games: seq<Game>): (rows: seq<MajorityRow>)
    ensures forall r :: r in rows ==> Some(r.majorityPick) == MajorityPick(picks, RowKey(r))
    ensures forall r :: r in rows ==> r.majorityCount == TeamCount(picks, RowKey(r), r.majorityPick)
    ensures forall r :: r in rows ==> r.totalPickers == Count(picks, OfGame(RowKey(r)))
    ensures forall r :: r in rows ==> 0 < r.majorityCount <= r.totalPickers
    ensures forall r :: r in rows ==> 0.0 < r.consensusPct <= 1.0 && r.consensusPct == Rate(r.majorityCount, r.totalPickers)
    ensures forall r :: r in rows ==> (r.majorityCorrect <==> r.atsWinner == Some(r.majorityPick))
    ensures forall r :: r in rows ==> exists g :: g in games && GameKey(g) == RowKey(r) && g.atsWinner == r.atsWinner
    ensures UniqueKeys(games, GameKey) ==> UniqueKeys(rows, RowKey)
  {
    var ms := MajorityTable(picks);
    var j := Join(ms, games, MajorityKey, GameKey);
    MajorityRowsFacts(picks, games, ms, j);
    Map(j, MajorityRowOf)
  }

  lemma MajorityRowsFacts(picks: seq<Pick>, games: seq<Game>, ms: seq<Majority>, j: seq<(Majority, Game)>)
    requires ms == MajorityTable(picks) && j == Join(ms, games, MajorityKey, GameKey)
    ensures forall r :: r in Map(j, MajorityRowOf) ==> Some(r.majorityPick) == MajorityPick(picks, RowKey(r))
    ensures forall r :: r in Map(j, MajorityRowOf) ==> r.majorityCount == TeamCount(picks, RowKey(r), r.majorityPick)
    ensures forall r :: r in Map(j, MajorityRowOf) ==> r.totalPickers == Count(picks, OfGame(RowKey(r)))
    ensures forall r :: r in Map(j, MajorityRowOf) ==> 0 < r.majorityCount <= r.totalPickers
    ensures forall r :: r in Map(j, MajorityRowOf) ==> 0.0 < r.consensusPct
    ensures forall r :: r in Map(j, MajorityRowOf) ==>
              exists g :: g in games && GameKey(g) == RowKey(r) && g.atsWinner == r.atsWinner
    ensures UniqueKeys(games, GameKey) ==> UniqueKeys(Map(j, MajorityRowOf), RowKey)
  {
    var rows := Map(j, MajorityRowOf);
    forall r | r in rows ensures
      && Some(r.majorityPick) == MajorityPick(picks, RowKey(r))
      && r.majorityCount == TeamCount(picks, RowKey(r), r.majorityPick)
      && r.totalPickers == Count(picks, OfGame(RowKey(r)))
      && 0 < r.majorityCount <= r.totalPickers
      && 0.0 < r.consensusPct
      && exists g :: g in games && GameKey(g) == RowKey(r) && g.atsWinner == r.atsWinner
    {
      var i :| 0 <= i < |rows| && rows[i] == r;
      assert j[i] in j;
      assert j[i].0 in ms;
      assert j[i].1 in games && GameKey(j[i].1) == RowKey(r);
    }
    if UniqueKeys(games, GameKey) {
      JoinUniqueKeys(ms, games, MajorityKey, GameKey, JoinedMajorityKey);
      forall a, b | 0 <= a < b < |rows| ensures RowKey(rows[a]) != RowKey(rows[b]) {
        assert RowKey(rows[a]) == JoinedMajorityKey(j[a]) && RowKey(rows[b]) == JoinedMajorityKey(j[b]);
      }
    }
  }

  function JoinedMajorityKey(q: (Majority, Game)): Key { MajorityKey(q.0) }

  /** A game has a majority row exactly when it was picked and has a game row. */
  lemma ConsensusMajorityKeys(picks: seq<Pick>, games: seq<Game>, k: Key)
    ensures k in Map(ConsensusMajority(picks, games), RowKey) <==> k in Map(picks, PickKey) && k in Map(games, GameKey)
  {
    var ms := MajorityTable(picks);
    var j := Join(ms, games, MajorityKey, GameKey);
    var rows := ConsensusMajority(picks, games);
    JoinKeys(ms, games, MajorityKey, GameKey, JoinedMajorityKey, k);
    assert Map(rows, RowKey) == Map(j, JoinedMajorityKey);
  }

  // ---------------------------------------------------------------------------
  // Contrarian rates

  /** A pick joined with its game's majority row. */
  type Joined = (Pick, MajorityRow)

  predicate IsContrarian(q: Joined) { q.0.pick != q.1.majorityPick }

  function JoinedBy(p: Player): Joined -> bool { (q: Joined) => q.0.player == p }
  function ContrarianBy(p: Player): Joined -> bool { (q: Joined) => q.0.player == p && IsContrarian(q) }

  /** A joined pick with its game's result again. */
  type Graded = (Joined, Game)

  function GradedKey(q: Joined): Key { PickKey(q.0) }
  function ContrarianPickBy(p: Player): Graded -> bool { (x: Graded) => x.0.0.player == p && IsContrarian(x.0) }
  function ContrarianWinBy(p: Player): Graded -> bool
  {
    (x: Graded) => x.0.0.player == p && IsContrarian(x.0) && Some(x.0.0.pick) == x.1.atsWinner
  }

  datatype ContrarianRow = ContrarianRow(player: Player, contrarianRate: real, contrarianCount: nat, total: nat,
                                         contrarianWinRate: Option<real>)

  function ContrarianRowOf(joined: seq<Joined>, graded: seq<Graded>, p: Player): (r: ContrarianRow)
    ensures r.player == p && r.total == Count(joined, JoinedBy(p)) && r.contrarianCount == Count(joined, ContrarianBy(p))
    ensures r.contrarianCount <= r.total
    ensures 0.0 <= r.contrarianRate <= 1.0 && r.contrarianRate == Rate(r.contrarianCount, r.total)
    ensures r.contrarianWinRate.None? <==> Count(graded, ContrarianPickBy(p)) == 0
    ensures r.contrarianWinRate.Some? ==> 0.0 <= r.contrarianWinRate.value <= 1.0
    ensures r.contrarianWinRate.Some? ==>
              r.contrarianWinRate.value == Rate(Count(graded, ContrarianWinBy(p)), Count(graded, ContrarianPickBy(p)))
  {
    CountMono(joined, ContrarianBy(p), JoinedBy(p));
    CountMono(graded, ContrarianWinBy(p), ContrarianPickBy(p));
    var total := Count(joined, JoinedBy(p));
    var count := Count(joined, ContrarianBy(p));
    var n := Count(graded, ContrarianPickBy(p));
    ContrarianRow(p, Rate(count, total), count, total,
                  if n == 0 then None else Some(Rate(Count(graded, ContrarianWinBy(p)), n)))
  }

  function JoinedPlayer(q: Joined): Player { q.0.player }

  predicate ByContrarianRateDesc(a: ContrarianRow, b: ContrarianRow) { a.contrarianRate >= b.contrarianRate }

  /** Each player's picks joined with the majority rows (and so only for games with a result). */
  function JoinedPicks(picks: seq<Pick>, games: seq<Game>): seq<Joined>
  {
    Join(picks, ConsensusMajority(picks, games), PickKey, RowKey)
  }

  /** `consensus_contrarian`: the majority table and the contrarian table, one row per player
      with a joined pick, highest contrarian rate first. */
  function ConsensusContrarian(picks: seq<Pick>, games: seq<Game>): (out: (seq<MajorityRow>, seq<ContrarianRow>))
    ensures out.0 == ConsensusMajority(picks, games)
    ensures forall r :: r in out.1 ==>
              r == ContrarianRowOf(JoinedPicks(picks, games), Join(JoinedPicks(picks, games), games, GradedKey, GameKey), r.player)
    ensures forall r :: r in out.1 ==> r.total > 0
    ensures forall p :: (exists r :: r in out.1 && r.player == p) <==> p in Map(JoinedPicks(picks, games), JoinedPlayer)
    ensures forall i, j :: 0 <= i < j < |out.1| ==> out.1[i].player != out.1[j].player
    ensures forall i, j :: 0 <= i < j < |out.1| ==> out.1[i].contrarianRate >= out.1[j].contrarianRate
  {
    var joined := JoinedPicks(picks, games);
    var graded := Join(joined, games, GradedKey, GameKey);
    ContrarianTableFacts(joined, graded);
    (ConsensusMajority(picks, games), ContrarianTable(joined, graded))
  }

  /** The contrarian rows of the players with a joined pick, highest contrarian rate first. */
  function ContrarianTable(joined: seq<Joined>, graded: seq<Graded>): seq<ContrarianRow>
  {
    var players := SortedKeys(Map(joined, JoinedPlayer));
    Sort(Map(players, p => ContrarianRowOf(joined, graded, p)), ByContrarianRateDesc)
  }

  lemma ContrarianTableFacts(joined: seq<Joined>, graded: seq<Graded>)
    ensures forall r :: r in ContrarianTable(joined, graded) ==> r == ContrarianRowOf(joined, graded, r.player) && r.total > 0
    ensures forall p :: (exists r :: r in ContrarianTable(joined, graded) && r.player == p) <==> p in Map(joined, JoinedPlayer)
    ensures forall i, j :: 0 <= i < j < |ContrarianTable(joined, graded)| ==>
              ContrarianTable(joined, graded)[i].player != ContrarianTable(joined, graded)[j].player
    ensures forall i, j :: 0 <= i < j < |ContrarianTable(joined, graded)| ==>
              ContrarianTable(joined, graded)[i].contrarianRate >= ContrarianTable(joined, graded)[j].contrarianRate
  {
    var players := SortedKeys(Map(joined, JoinedPlayer));
    var built := Map(players, p => ContrarianRowOf(joined, graded, p));
    assert TotalPreorder(ByContrarianRateDesc);
    SortedPlayerTable(players, built, p => ContrarianRowOf(joined, graded, p), (r: ContrarianRow) => r.player,
                      ByContrarianRateDesc);
    var rows := Sort(built, ByContrarianRateDesc);
    forall r | r in rows ensures r.total > 0 {
      assert r.player in Map(joined, JoinedPlayer);
      var i :| 0 <= i < |joined| && Map(joined, JoinedPlayer)[i] == r.player;
      CountPositive(joined, JoinedBy(r.player), i);
    }
  }

  /** Sorting a table built one row per distinct player keeps one row per player. */
  lemma SortedPlayerTable<R(!new)>(players: seq<Player>, built: seq<R>, rowOf: Player -> R, player: R -> Player,
                                   le: (R, R) -> bool)
    requires NoDup(players) && built == Map(players, rowOf)
    requires forall p :: player(rowOf(p)) == p
    requires TotalPreorder(le)
    ensures Sorted(Sort(built, le), le)
    ensures forall r :: r in Sort(built, le) ==> r == rowOf(player(r)) && player(r) in players
    ensures forall p :: p in players <==> exists r :: r in Sort(built, le) && player(r) == p
    ensures forall i, j :: 0 <= i < j < |Sort(built, le)| ==> player(Sort(built, le)[i]) != player(Sort(built, le)[j])
  {
    var rows := Sort(built, le);
    SortSorted(built, le);
    SortSameElements(built, le);
    assert NoDup(built) by {
      forall i, j | 0 <= i < j < |built| ensures built[i] != built[j] {
        assert player(built[i]) == players[i] && player(built[j]) == players[j];
      }
    }
    NoDupPermutation(built, rows);
    forall r | r in rows ensures r == rowOf(player(r)) && player(r) in players {
      var k :| 0 <= k < |built| && built[k] == r;
    }
    forall p | p in players ensures exists r :: r in rows && player(r) == p {
      var k :| 0 <= k < |players| && players[k] == p;
      assert built[k] in rows;
    }
    forall i, j | 0 <= i < j < |rows| ensures player(rows[i]) != player(rows[j]) {
      assert rows[i] in built && rows[j] in built;
    }
  }

  // ---------------------------------------------------------------------------
  // Herd rate

  /** A pick joined with its game's majority (computed from the picks alone). */
  type WithMajority = (Pick, Majority)

  function HerdJoinedBy(p: Player): WithMajority -> bool { (q: WithMajority) => q.0.player == p }
  function WithHerdBy(p: Player): WithMajority -> bool
  {
    (q: WithMajority) => q.0.player == p && q.0.pick == q.1.majorityPick
  }

  datatype HerdRow = HerdRow(player: Player, herdRate: real)

  function HerdRowOf(merged: seq<WithMajority>, p: Player): (r: HerdRow)
    ensures r.player == p && 0.0 <= r.herdRate <= 1.0
    ensures r.herdRate == Rate(Count(merged, WithHerdBy(p)), Count(merged, HerdJoinedBy(p)))
  {
    CountMono(merged, WithHerdBy(p), HerdJoinedBy(p));
    HerdRow(p, Rate(Count(merged, WithHerdBy(p)), Count(merged, HerdJoinedBy(p))))
  }

  function HerdMerged(picks: seq<Pick>): seq<WithMajority>
  {
    Join(picks, MajorityTable(picks), PickKey, MajorityKey)
  }

  function MergedPlayer(q: WithMajority): Player { q.0.player }

  predicate ByHerdRateDesc(a: HerdRow, b: HerdRow) { a.herdRate >= b.herdRate }

  /** `herd_mentality`: one row per player, the share of picks equal to the majority pick,
      highest first. */
  function HerdMentality(picks: seq<Pick>): (rows: seq<HerdRow>)
    ensures forall r :: r in rows ==> r == HerdRowOf(HerdMerged(picks), r.player)
    ensures forall p :: (exists r :: r in rows && r.player == p) <==> p in Map(HerdMerged(picks), MergedPlayer)
    ensures forall i, j :: 0 <= i < j < |rows| ==> rows[i].player != rows[j].player
    ensures forall i, j :: 0 <= i < j < |rows| ==> rows[i].herdRate >= rows[j].herdRate
  {
    var merged := HerdMerged(picks);
    var players := SortedKeys(Map(merged, MergedPlayer));
    var built := Map(players, p => HerdRowOf(merged, p));
    assert TotalPreorder(ByHerdRateDesc);
    SortedPlayerTable(players, built, p => HerdRowOf(merged, p), (r: HerdRow) => r.player, ByHerdRateDesc);
    Sort(built, ByHerdRateDesc)
  }

  /** Every pick has a majority to compare with: the herd table counts all of a player's picks,
      and counts as "with the herd" exactly those equal to their game's majority pick. */
  lemma HerdCountsEveryPick(picks: seq<Pick>, p: Player)
    ensures Count(HerdMerged(picks), HerdJoinedBy(p)) == Count(picks, KeyIs(PickPlayer, p))
    ensures Count(HerdMerged(picks), WithHerdBy(p)) == Count(picks, AgreesBy(picks, p))
  {
    var ms := MajorityTable(picks);
    var present := (k: Pick) => PickKey(k) in Map(ms, MajorityKey);
    forall k | k in picks ensures PickKey(k) in Map(ms, MajorityKey) {
      var i :| 0 <= i < |picks| && picks[i] == k;
      assert Map(picks, PickKey)[i] == PickKey(k);
    }
    var pk1 := (k: Pick) => KeyIs(PickPlayer, p)(k) && PickKey(k) in Map(ms, MajorityKey);
    CountJoinLeft(picks, ms, PickKey, MajorityKey, HerdJoinedBy(p), KeyIs(PickPlayer, p), pk1);
    CountExt(picks, pk1, KeyIs(PickPlayer, p));
    var pk2 := (k: Pick) => AgreesBy(picks, p)(k) && PickKey(k) in Map(ms, MajorityKey);
    forall a: Pick, b: Majority | b in ms && MajorityKey(b) == PickKey(a)
      ensures WithHerdBy(p)((a, b)) == AgreesBy(picks, p)(a)
    {
      assert b == MajorityOf(picks, MajorityKey(b));
    }
    CountJoinLeft(picks, ms, PickKey, MajorityKey, WithHerdBy(p), AgreesBy(picks, p), pk2);
    CountExt(picks, pk2, AgreesBy(picks, p));
  }

  /** The picks of player `p` equal to, or different from, their game's majority pick. */
  function AgreesBy(picks: seq<Pick>, p: Player): Pick -> bool
  {
    (k: Pick) => k.player == p && MajorityPick(picks, PickKey(k)) == Some(k.pick)
  }
  function DisagreesBy(picks: seq<Pick>, p: Player): Pick -> bool
  {
    (k: Pick) => k.player == p && MajorityPick(picks, PickKey(k)) != Some(k.pick)
  }

  /** Each pick's game has a majority row exactly when it has a game row. */
  lemma PickHasMajorityRow(picks: seq<Pick>, games: seq<Game>)
    ensures forall k :: k in picks ==>
              (PickKey(k) in Map(ConsensusMajority(picks, games), RowKey) <==> PickKey(k) in Map(games, GameKey))
  {
    forall k | k in picks
      ensures PickKey(k) in Map(ConsensusMajority(picks, games), RowKey) <==> PickKey(k) in Map(games, GameKey)
    {
      var i :| 0 <= i < |picks| && picks[i] == k;
      assert Map(picks, PickKey)[i] == PickKey(k);
      ConsensusMajorityKeys(picks, games, PickKey(k));
    }
  }

  /** With one game row per (week, game), the contrarian table's `total` counts the player's
      picks whose game has a row; the others are dropped. */
  lemma ContrarianTotalCountsMatchedPicks(picks: seq<Pick>, games: seq<Game>, p: Player)
    requires UniqueKeys(games, GameKey)
    ensures Count(JoinedPicks(picks, games), JoinedBy(p)) ==
            Count(picks, (k: Pick) => k.player == p && PickKey(k) in Map(games, GameKey))
  {
    var rows := ConsensusMajority(picks, games);
    JoinedCountIsKeyed(picks, games, p);
    PickHasMajorityRow(picks, games);
    CountExt(picks, ByIn(p, Map(rows, RowKey)), (k: Pick) => k.player == p && PickKey(k) in Map(games, GameKey));
  }

  /** The player's picks whose (week, game) is one of `keys`. */
  function ByIn(p: Player, keys: seq<Key>): Pick -> bool
  {
    (k: Pick) => k.player == p && PickKey(k) in keys
  }

  lemma JoinedCountIsKeyed(picks: seq<Pick>, games: seq<Game>, p: Player)
    requires UniqueKeys(games, GameKey)
    ensures Count(JoinedPicks(picks, games), JoinedBy(p)) ==
            Count(picks, ByIn(p, Map(ConsensusMajority(picks, games), RowKey)))
  {
    var rows := ConsensusMajority(picks, games);
    CountJoinLeft(picks, rows, PickKey, RowKey, JoinedBy(p), KeyIs(PickPlayer, p), ByIn(p, Map(rows, RowKey)));
  }

  /** With one game row per (week, game), a pick is contrarian exactly when it differs from
      its game's majority pick: the contrarian count is the number of such picks whose game
      has a row. */
  lemma ContrarianCountsDisagreements(picks: seq<Pick>, games: seq<Game>, p: Player)
    requires UniqueKeys(games, GameKey)
    ensures Count(JoinedPicks(picks, games), ContrarianBy(p)) ==
            Count(picks, (k: Pick) => DisagreesBy(picks, p)(k) && PickKey(k) in Map(games, GameKey))
  {
    var rows := ConsensusMajority(picks, games);
    PickHasMajorityRow(picks, games);
    forall a: Pick, b: MajorityRow | b in rows && RowKey(b) == PickKey(a)
      ensures ContrarianBy(p)((a, b)) == DisagreesBy(picks, p)(a)
    {
    }
    var pk := (k: Pick) => DisagreesBy(picks, p)(k) && PickKey(k) in Map(rows, RowKey);
    CountJoinLeft(picks, rows, PickKey, RowKey, ContrarianBy(p), DisagreesBy(picks, p), pk);
    CountExt(picks, pk, (k: Pick) => DisagreesBy(picks, p)(k) && PickKey(k) in Map(games, GameKey));
  }

  /** When every picked game has exactly one game row, a player's contrarian count and herd
      count add up to the player's picks, which is also the contrarian table's `total`. */
  lemma HerdAndContrarianComplement(picks: seq<Pick>, games: seq<Game>, p: Player)
    requires UniqueKeys(games, GameKey)
    requires forall k :: k in picks ==> PickKey(k) in Map(games, GameKey)
    ensures Count(JoinedPicks(picks, games), JoinedBy(p)) == Count(HerdMerged(picks), HerdJoinedBy(p))
    ensures Count(JoinedPicks(picks, games), ContrarianBy(p)) + Count(HerdMerged(picks), WithHerdBy(p)) ==
            Count(picks, KeyIs(PickPlayer, p))
  {
    ContrarianTotalCountsMatchedPicks(picks, games, p);
    ContrarianCountsDisagreements(picks, games, p);
    HerdCountsEveryPick(picks, p);
    CountExt(picks, (k: Pick) => k.player == p && PickKey(k) in Map(games, GameKey), KeyIs(PickPlayer, p));
    CountExt(picks, (k: Pick) => DisagreesBy(picks, p)(k) && PickKey(k) in Map(games, GameKey), DisagreesBy(picks, p));
    CountSplit(picks, KeyIs(PickPlayer, p), AgreesBy(picks, p), DisagreesBy(picks, p));
  }

  /** Under the same conditions, a player with picks has a contrarian rate and a herd rate that
      add up to one. */
  lemma HerdAndContrarianRatesComplement(picks: seq<Pick>, games: seq<Game>, p: Player)
    requires UniqueKeys(games, GameKey)
    requires forall k :: k in picks ==> PickKey(k) in Map(games, GameKey)
    requires p in Map(picks, PickPlayer)
    ensures ContrarianRowOf(JoinedPicks(picks, games), Join(JoinedPicks(picks, games), games, GradedKey, GameKey), p).contrarianRate
            + HerdRowOf(HerdMerged(picks), p).herdRate == 1.0
  {
    var joined := JoinedPicks(picks, games);
    var merged := HerdMerged(picks);
    HerdAndContrarianComplement(picks, games, p);
    ContrarianTotalCountsMatchedPicks(picks, games, p);
    CountExt(picks, (k: Pick) => k.player == p && PickKey(k) in Map(games, GameKey), KeyIs(PickPlayer, p));
    var i :| 0 <= i < |picks| && Map(picks, PickPlayer)[i] == p;
    CountPositive(picks, KeyIs(PickPlayer, p), i);
    var r := ContrarianRowOf(joined, Join(joined, games, GradedKey, GameKey), p);
    var h := HerdRowOf(merged, p);
    RatesComplement(r.contrarianCount, Count(merged, WithHerdBy(p)), r.total);
  }

  lemma RatesComplement(a: nat, b: nat, n: nat)
    requires a + b == n && n > 0
    ensures Rate(a, n) + Rate(b, n) == 1.0
  {
    assert Rate(a, n) + Rate(b, n) == (a + b) as real / n as real;
  }
}
