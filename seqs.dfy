/** Generic sequence operations shared by every table of the model: counting, filtering,
    summing, keeping first occurrences, grouping, and a stable insertion sort. */
module Seqs {

  /** Number of elements of `s` satisfying `p`. */
  function Count<T>(s: seq<T>, p: T -> bool): (n: nat)
    ensures n <= |s|
  {
    if s == [] then 0 else Count(s[..|s| - 1], p) + (if p(s[|s| - 1]) then 1 else 0)
  }

  /** The elements of `s` satisfying `p`, in their original order. */
  function Filter<T(!new)>(s: seq<T>, p: T -> bool): (r: seq<T>)
    ensures |r| == Count(s, p)
    ensures forall x :: x in r <==> x in s && p(x)
  {
    if s == [] then [] else
      var init := Filter(s[..|s| - 1], p);
      assert forall x :: x in s <==> x in s[..|s| - 1] || x == s[|s| - 1];
      if p(s[|s| - 1]) then init + [s[|s| - 1]] else init
  }

  function Map<T, U>(s: seq<T>, f: T -> U): (r: seq<U>)
    ensures |r| == |s|
    ensures forall i :: 0 <= i < |s| ==> r[i] == f(s[i])
  {
    seq(|s|, i requires 0 <= i < |s| => f(s[i]))
  }

  function Sum<T>(s: seq<T>, f: T -> int): int
  {
    if s == [] then 0 else Sum(s[..|s| - 1], f) + f(s[|s| - 1])
  }

  function SumReal<T>(s: seq<T>, f: T -> real): real
  {
    if s == [] then 0.0 else SumReal(s[..|s| - 1], f) + f(s[|s| - 1])
  }

  /** The predicate "the key of x is k", named so that every use denotes the same function. */
  function KeyIs<T, K(==)>(f: T -> K, k: K): T -> bool
  {
    x => f(x) == k
  }

  ghost predicate NoDup<T>(s: seq<T>)
  {
    forall i, j :: 0 <= i < j < |s| ==> s[i] != s[j]
  }

  /** Two duplicate-free sequences with no element in common concatenate to one. */
  lemma NoDupAppend<T>(a: seq<T>, b: seq<T>)
    requires NoDup(a) && NoDup(b)
    requires forall x :: x in a ==> x !in b
    ensures NoDup(a + b)
  {
    forall i, j | 0 <= i < j < |a + b| ensures (a + b)[i] != (a + b)[j] {
      if j < |a| {
        assert (a + b)[i] == a[i] && (a + b)[j] == a[j];
      } else if i < |a| {
        assert (a + b)[i] == a[i] && (a + b)[j] == b[j - |a|];
        assert a[i] in a && b[j - |a|] in b;
      } else if |a| <= i {
        assert (a + b)[i] == b[i - |a|] && (a + b)[j] == b[j - |a|];
      }
    }
  }

  /** In a duplicate-free sequence a value occurs at most once. */
  lemma {:induction false} CountNoDup<T>(s: seq<T>, v: T)
    requires NoDup(s)
    ensures Count(s, Equals(v)) == if v in s then 1 else 0
  {
    if s != [] {
      var init := s[..|s| - 1];
      assert NoDup(init);
      CountNoDup(init, v);
      assert s == init + [s[|s| - 1]];
      if s[|s| - 1] == v {
        assert v !in init;
      }
    }
  }

  /** A predicate that holds of `v` alone holds once in a duplicate-free sequence holding `v`. */
  lemma CountSingle<T>(s: seq<T>, p: T -> bool, v: T)
    requires NoDup(s)
    requires forall x :: p(x) == (x == v)
    ensures Count(s, p) == if v in s then 1 else 0
  {
    CountExt(s, p, Equals(v));
    CountNoDup(s, v);
  }

  /** The predicate "equals v". */
  function Equals<T(==)>(v: T): T -> bool
  {
    x => x == v
  }

  /** First occurrence of every element of `s`, in order of first occurrence. */
  function Distinct<T(==,!new)>(s: seq<T>): (r: seq<T>)
    ensures NoDup(r)
    ensures forall x :: x in r <==> x in s
    ensures |r| <= |s|
  {
    if s == [] then [] else
      var d := Distinct(s[..|s| - 1]);
      assert forall x :: x in s <==> x in s[..|s| - 1] || x == s[|s| - 1];
      if s[|s| - 1] in d then d else d + [s[|s| - 1]]
  }

  lemma {:induction false} CountAppend<T>(a: seq<T>, b: seq<T>, p: T -> bool)
    ensures Count(a + b, p) == Count(a, p) + Count(b, p)
  {
    if b != [] {
      assert (a + b)[..|a + b| - 1] == a + b[..|b| - 1];
      CountAppend(a, b[..|b| - 1], p);
    } else {
      assert a + b == a;
    }
  }

  lemma {:induction false} SumAppend<T>(a: seq<T>, b: seq<T>, f: T -> int)
    ensures Sum(a + b, f) == Sum(a, f) + Sum(b, f)
  {
    if b != [] {
      assert (a + b)[..|a + b| - 1] == a + b[..|b| - 1];
      SumAppend(a, b[..|b| - 1], f);
    } else {
      assert a + b == a;
    }
  }

  lemma {:induction false} SumRealAppend<T>(a: seq<T>, b: seq<T>, f: T -> real)
    ensures SumReal(a + b, f) == SumReal(a, f) + SumReal(b, f)
  {
    if b != [] {
      assert (a + b)[..|a + b| - 1] == a + b[..|b| - 1];
      SumRealAppend(a, b[..|b| - 1], f);
    } else {
      assert a + b == a;
    }
  }

  /** Counting a predicate that implies another never gives more. */
  lemma {:induction false} CountMono<T>(s: seq<T>, p: T -> bool, q: T -> bool)
    requires forall x :: x in s && p(x) ==> q(x)
    ensures Count(s, p) <= Count(s, q)
  {
    if s != [] {
      CountMono(s[..|s| - 1], p, q);
    }
  }

  /** Two predicates that agree on `s` count the same. */
  lemma {:induction false} CountExt<T>(s: seq<T>, p: T -> bool, q: T -> bool)
    requires forall x :: x in s ==> p(x) == q(x)
    ensures Count(s, p) == Count(s, q)
  {
    CountMono(s, p, q);
    CountMono(s, q, p);
  }

  /** A predicate that holds of no element counts 0. */
  lemma {:induction false} CountNone<T>(s: seq<T>, p: T -> bool)
    requires forall x :: x in s ==> !p(x)
    ensures Count(s, p) == 0
  {
    if s != [] {
      CountNone(s[..|s| - 1], p);
    }
  }

  /** A predicate that holds of every element counts them all. */
  lemma {:induction false} CountAll<T>(s: seq<T>, p: T -> bool)
    requires forall x :: x in s ==> p(x)
    ensures Count(s, p) == |s|
  {
    if s != [] {
      CountAll(s[..|s| - 1], p);
    }
  }

  /** An element satisfying `p` makes the count of `p` positive. */
  lemma {:induction false} CountPositive<T>(s: seq<T>, p: T -> bool, k: nat)
    requires k < |s| && p(s[k])
    ensures Count(s, p) > 0
  {
    if k < |s| - 1 {
      CountPositive(s[..|s| - 1], p, k);
    }
  }

  /** Count of `p` splits into the counts of two disjoint predicates covering it. */
  lemma {:induction false} CountSplit<T>(s: seq<T>, p: T -> bool, a: T -> bool, b: T -> bool)
    requires forall x :: x in s ==> (p(x) <==> a(x) || b(x))
    requires forall x :: x in s ==> !(a(x) && b(x))
    ensures Count(s, p) == Count(s, a) + Count(s, b)
  {
    if s != [] {
      CountSplit(s[..|s| - 1], p, a, b);
    }
  }

  // ---------------------------------------------------------------------------
  // Grouping: the groups of distinct keys partition the rows.

  /** Sum, over the keys `ks`, of the number of rows of `s` with that key. */
  function GroupTotal<T, K(==)>(s: seq<T>, f: T -> K, ks: seq<K>): nat
  {
    if ks == [] then 0 else Count(s, KeyIs(f, ks[0])) + GroupTotal(s, f, ks[1..])
  }

  /** Number of positions of `ks` holding `v`. */
  function Occurrences<K(==)>(ks: seq<K>, v: K): nat
  {
    if ks == [] then 0 else (if ks[0] == v then 1 else 0) + Occurrences(ks[1..], v)
  }

  lemma {:induction false} OccurrencesNoDup<K>(ks: seq<K>, v: K)
    requires NoDup(ks)
    ensures Occurrences(ks, v) == if v in ks then 1 else 0
  {
    if ks != [] {
      assert NoDup(ks[1..]) by {
        forall i, j | 0 <= i < j < |ks[1..]| ensures ks[1..][i] != ks[1..][j] {
          assert ks[1..][i] == ks[i + 1] && ks[1..][j] == ks[j + 1];
        }
      }
      OccurrencesNoDup(ks[1..], v);
      if ks[0] == v {
        assert v !in ks[1..] by {
          forall j | 0 <= j < |ks[1..]| ensures ks[1..][j] != v {
            assert ks[1..][j] == ks[j + 1];
          }
        }
      } else {
        assert v in ks <==> v in ks[1..] by {
          assert ks == [ks[0]] + ks[1..];
        }
      }
    }
  }

  lemma {:induction false} GroupTotalSnoc<T, K>(s: seq<T>, x: T, f: T -> K, ks: seq<K>)
    ensures GroupTotal(s + [x], f, ks) == GroupTotal(s, f, ks) + Occurrences(ks, f(x))
  {
    if ks != [] {
      assert (s + [x])[..|s + [x]| - 1] == s;
      GroupTotalSnoc(s, x, f, ks[1..]);
    }
  }

  /** The groups of a list of distinct keys covering every row add up to all the rows. */
  lemma {:induction false} GroupTotalIsLength<T, K>(s: seq<T>, f: T -> K, ks: seq<K>)
    requires NoDup(ks)
    requires forall x :: x in s ==> f(x) in ks
    ensures GroupTotal(s, f, ks) == |s|
  {
    if s == [] {
      GroupTotalEmpty(f, ks);
    } else {
      var init := s[..|s| - 1];
      assert s == init + [s[|s| - 1]];
      GroupTotalIsLength(init, f, ks);
      GroupTotalSnoc(init, s[|s| - 1], f, ks);
      OccurrencesNoDup(ks, f(s[|s| - 1]));
    }
  }

  lemma {:induction false} GroupTotalEmpty<T, K>(f: T -> K, ks: seq<K>)
    ensures GroupTotal([], f, ks) == 0
  {
    if ks != [] {
      GroupTotalEmpty(f, ks[1..]);
    }
  }

  // ---------------------------------------------------------------------------
  // Sorting by a "goes no later than" relation `le`.

  ghost predicate Sorted<T>(s: seq<T>, le: (T, T) -> bool)
  {
    forall i, j :: 0 <= i < j < |s| ==> le(s[i], s[j])
  }

  function IntLe(a: int, b: int): bool { a <= b }

  ghost predicate TotalPreorder<T(!new)>(le: (T, T) -> bool)
  {
    && (forall a, b :: le(a, b) || le(b, a))
    && (forall a, b, c :: le(a, b) && le(b, c) ==> le(a, c))
  }

  /** Places `x` before the first element it goes no later than. */
  function Insert<T>(x: T, s: seq<T>, le: (T, T) -> bool): (r: seq<T>)
    ensures multiset(r) == multiset(s) + multiset{x}
    ensures |r| == |s| + 1
  {
    if s == [] then [x]
    else if le(x, s[0]) then [x] + s
    else
      assert s == [s[0]] + s[1..];
      [s[0]] + Insert(x, s[1..], le)
  }

  /** Insertion sort; an element goes before the later elements it ties with. */
  function Sort<T>(s: seq<T>, le: (T, T) -> bool): (r: seq<T>)
    ensures multiset(r) == multiset(s)
    ensures |r| == |s|
  {
    if s == [] then []
    else
      assert s == [s[0]] + s[1..];
      Insert(s[0], Sort(s[1..], le), le)
  }

  lemma SortSameElements<T>(s: seq<T>, le: (T, T) -> bool)
    ensures forall x :: x in Sort(s, le) <==> x in s
  {
    forall x ensures x in Sort(s, le) <==> x in s {
      assert x in Sort(s, le) <==> x in multiset(Sort(s, le));
      assert x in s <==> x in multiset(s);
    }
  }

  lemma {:induction false} InsertSorted<T(!new)>(x: T, s: seq<T>, le: (T, T) -> bool)
    requires TotalPreorder(le)
    requires Sorted(s, le)
    ensures Sorted(Insert(x, s, le), le)
  {
    if s != [] && !le(x, s[0]) {
      var rest := s[1..];
      assert Sorted(rest, le) by {
        forall i, j | 0 <= i < j < |rest| ensures le(rest[i], rest[j]) {
          assert rest[i] == s[i + 1] && rest[j] == s[j + 1];
        }
      }
      InsertSorted(x, rest, le);
      var ins := Insert(x, rest, le);
      var r := [s[0]] + ins;
      assert le(s[0], x);
      forall k | 0 <= k < |ins| ensures le(s[0], ins[k]) {
        assert ins[k] in multiset(ins);
        assert ins[k] in multiset(rest) || ins[k] == x;
        if ins[k] != x {
          assert ins[k] in rest;
          var m :| 0 <= m < |rest| && rest[m] == ins[k];
          assert rest[m] == s[m + 1];
        }
      }
      forall i, j | 0 <= i < j < |r| ensures le(r[i], r[j]) {
        if i == 0 {
          assert r[j] == ins[j - 1];
        } else {
          assert r[i] == ins[i - 1] && r[j] == ins[j - 1];
        }
      }
    } else if s != [] {
      var r := [x] + s;
      forall i, j | 0 <= i < j < |r| ensures le(r[i], r[j]) {
        if i == 0 {
          assert r[j] == s[j - 1];
          if j > 1 {
            assert le(s[0], s[j - 1]);
          }
        } else {
          assert r[i] == s[i - 1] && r[j] == s[j - 1];
        }
      }
    }
  }

  lemma {:induction false} SortSorted<T(!new)>(s: seq<T>, le: (T, T) -> bool)
    requires TotalPreorder(le)
    ensures Sorted(Sort(s, le), le)
  {
    if s != [] {
      SortSorted(s[1..], le);
      InsertSorted(s[0], Sort(s[1..], le), le);
    }
  }

  lemma {:induction false} SumInsert<T>(x: T, s: seq<T>, le: (T, T) -> bool, f: T -> int)
    ensures Sum(Insert(x, s, le), f) == Sum(s, f) + f(x)
  {
    if s == [] {
      assert Insert(x, s, le) == [] + [x];
    } else if le(x, s[0]) {
      SumAppend([x], s, f);
      assert Sum([x], f) == Sum([], f) + f(x);
    } else {
      SumInsert(x, s[1..], le, f);
      SumAppend([s[0]], Insert(x, s[1..], le), f);
      SumAppend([s[0]], s[1..], f);
      assert s == [s[0]] + s[1..];
      assert Sum([s[0]], f) == Sum([], f) + f(s[0]);
    }
  }

  /** Sorting never changes a column total. */
  lemma {:induction false} SumSort<T>(s: seq<T>, le: (T, T) -> bool, f: T -> int)
    ensures Sum(Sort(s, le), f) == Sum(s, f)
  {
    if s != [] {
      SumSort(s[1..], le, f);
      SumInsert(s[0], Sort(s[1..], le), le, f);
      SumAppend([s[0]], s[1..], f);
      assert s == [s[0]] + s[1..];
      assert Sum([s[0]], f) == Sum([], f) + f(s[0]);
    }
  }

  /** A duplicate-free sequence stays duplicate-free once sorted. */
  lemma NoDupPermutation<T>(s: seq<T>, r: seq<T>)
    requires NoDup(s)
    requires multiset(r) == multiset(s)
    ensures NoDup(r)
  {
    forall x | x in multiset(s) ensures multiset(s)[x] == 1 {
      NoDupMultiplicity(s, x);
    }
    forall i, j | 0 <= i < j < |r| ensures r[i] != r[j] {
      assert r == r[..i] + [r[i]] + r[i + 1..j] + [r[j]] + r[j + 1..];
      assert multiset(r) == multiset(r[..i]) + multiset{r[i]} + multiset(r[i + 1..j]) + multiset{r[j]} + multiset(r[j + 1..]);
      assert r[i] in multiset(s);
    }
  }

  lemma {:induction false} NoDupMultiplicity<T>(s: seq<T>, x: T)
    requires NoDup(s)
    ensures multiset(s)[x] <= 1
  {
    if s != [] {
      var init := s[..|s| - 1];
      assert s == init + [s[|s| - 1]];
      assert NoDup(init) by {
        forall i, j | 0 <= i < j < |init| ensures init[i] != init[j] {
          assert init[i] == s[i] && init[j] == s[j];
        }
      }
      NoDupMultiplicity(init, x);
      if x == s[|s| - 1] {
        assert x !in init by {
          forall k | 0 <= k < |init| ensures init[k] != x { assert init[k] == s[k]; }
        }
        assert multiset(init)[x] == 0;
      }
    }
  }

  // ---------------------------------------------------------------------------
  // Keyed tables: de-duplication on a key and the inner join on a key.

  ghost predicate UniqueKeys<T, K>(s: seq<T>, f: T -> K)
  {
    forall i, j :: 0 <= i < j < |s| ==> f(s[i]) != f(s[j])
  }

  /** The first row of every key, in order (pandas' `drop_duplicates(subset=key)`). */
  function DedupBy<T(!new), K(==)>(s: seq<T>, f: T -> K): (r: seq<T>)
    ensures UniqueKeys(r, f)
    ensures forall x :: x in r ==> x in s
    ensures |r| <= |s|
  {
    if s == [] then [] else
      var d := DedupBy(s[..|s| - 1], f);
      var last := s[|s| - 1];
      if f(last) in Map(d, f) then d
      else
        assert forall i :: 0 <= i < |d| ==> f(d[i]) != f(last) by {
          forall i | 0 <= i < |d| ensures f(d[i]) != f(last) { assert Map(d, f)[i] == f(d[i]); }
        }
        d + [last]
  }

  /** Every key of the table survives de-duplication. */
  lemma {:induction false} DedupByKeys<T(!new), K>(s: seq<T>, f: T -> K)
    ensures forall k :: k in Map(DedupBy(s, f), f) <==> k in Map(s, f)
  {
    if s != [] {
      var init := s[..|s| - 1];
      DedupByKeys(init, f);
      var d := DedupBy(init, f);
      var last := s[|s| - 1];
      forall k ensures k in Map(DedupBy(s, f), f) <==> k in Map(s, f) {
        assert k in Map(s, f) <==> k in Map(init, f) || k == f(last) by {
          assert Map(s, f) == Map(init, f) + [f(last)];
        }
        if f(last) !in Map(d, f) {
          assert Map(d + [last], f) == Map(d, f) + [f(last)];
        }
      }
    }
  }

  /** The pairs `(a, b)` for every `b` of `ys` whose key equals the key of `a`, in order. */
  function Matches<A, B, K(==)>(a: A, ys: seq<B>, ka: A -> K, kb: B -> K): (r: seq<(A, B)>)
    ensures |r| == Count(ys, KeyIs(kb, ka(a)))
    ensures forall q :: q in r ==> q.0 == a && q.1 in ys && kb(q.1) == ka(a)
  {
    if ys == [] then [] else
      var init := Matches(a, ys[..|ys| - 1], ka, kb);
      var b := ys[|ys| - 1];
      assert forall q :: q in init ==> q.1 in ys[..|ys| - 1] ==> q.1 in ys;
      if kb(b) == ka(a) then init + [(a, b)] else init
  }

  /** Inner join on a key: the left order is kept, and a left row with no match is dropped. */
  function Join<A, B, K(==)>(xs: seq<A>, ys: seq<B>, ka: A -> K, kb: B -> K): (r: seq<(A, B)>)
    ensures forall q :: q in r ==> q.0 in xs && q.1 in ys && kb(q.1) == ka(q.0)
  {
    if xs == [] then [] else
      var init := Join(xs[..|xs| - 1], ys, ka, kb);
      assert forall q :: q in init ==> q.0 in xs[..|xs| - 1] ==> q.0 in xs;
      init + Matches(xs[|xs| - 1], ys, ka, kb)
  }

  /** Distinct rows taken from a table with unique keys still have unique keys. */
  lemma UniqueKeysSubset<T, K>(s: seq<T>, r: seq<T>, f: T -> K)
    requires UniqueKeys(s, f)
    requires NoDup(r)
    requires forall x :: x in r ==> x in s
    ensures UniqueKeys(r, f)
  {
    forall i, j | 0 <= i < j < |r| ensures f(r[i]) != f(r[j]) {
      assert r[i] in r && r[j] in r;
      var a :| 0 <= a < |s| && s[a] == r[i];
      var b :| 0 <= b < |s| && s[b] == r[j];
    }
  }

  /** Counting the rows of an inner join with a predicate that, on matching pairs, depends on
      the left row alone (`pa`): against a table with unique keys, it is the number of left rows
      satisfying `pa` whose key is present. */
  lemma {:induction false} CountJoinLeft<A(!new), B(!new), K>(xs: seq<A>, ys: seq<B>, ka: A -> K, kb: B -> K,
                                                  p: ((A, B)) -> bool, pa: A -> bool, pk: A -> bool)
    requires UniqueKeys(ys, kb)
    requires forall a, b :: b in ys && kb(b) == ka(a) ==> p((a, b)) == pa(a)
    requires forall a :: pk(a) == (pa(a) && ka(a) in Map(ys, kb))
    ensures Count(Join(xs, ys, ka, kb), p) == Count(xs, pk)
  {
    if xs != [] {
      var init := xs[..|xs| - 1];
      var a := xs[|xs| - 1];
      CountJoinLeft(init, ys, ka, kb, p, pa, pk);
      CountAppend(Join(init, ys, ka, kb), Matches(a, ys, ka, kb), p);
      CountUniqueKey(ys, kb, ka(a));
      if pa(a) {
        CountAll(Matches(a, ys, ka, kb), p);
      } else {
        CountNone(Matches(a, ys, ka, kb), p);
      }
    }
  }

  /** A key occurs at most once in a table with unique keys. */
  lemma {:induction false} CountUniqueKey<T, K>(s: seq<T>, f: T -> K, k: K)
    requires UniqueKeys(s, f)
    ensures Count(s, KeyIs(f, k)) <= 1
    ensures Count(s, KeyIs(f, k)) == 1 <==> k in Map(s, f)
  {
    if s != [] {
      var init := s[..|s| - 1];
      assert UniqueKeys(init, f) by {
        forall i, j | 0 <= i < j < |init| ensures f(init[i]) != f(init[j]) {
          assert init[i] == s[i] && init[j] == s[j];
        }
      }
      CountUniqueKey(init, f, k);
      assert forall i :: 0 <= i < |init| ==> Map(init, f)[i] == Map(s, f)[i];
      if f(s[|s| - 1]) == k {
        assert k !in Map(init, f) by {
          forall i | 0 <= i < |init| ensures Map(init, f)[i] != k { assert init[i] == s[i]; }
        }
      }
      assert k in Map(s, f) <==> k in Map(init, f) || f(s[|s| - 1]) == k by {
        if k in Map(s, f) {
          var i :| 0 <= i < |s| && Map(s, f)[i] == k;
          if i < |init| { assert Map(init, f)[i] == k; }
        }
        if k in Map(init, f) {
          var i :| 0 <= i < |init| && Map(init, f)[i] == k;
          assert Map(s, f)[i] == k;
        }
        if f(s[|s| - 1]) == k { assert Map(s, f)[|s| - 1] == k; }
      }
    }
  }

  /** Joining against a table with unique keys never produces more rows than the left side,
      and keeps exactly the left rows whose key is present. */
  lemma {:induction false} JoinUniqueLength<A, B, K>(xs: seq<A>, ys: seq<B>, ka: A -> K, kb: B -> K)
    requires UniqueKeys(ys, kb)
    ensures |Join(xs, ys, ka, kb)| == Count(xs, a => ka(a) in Map(ys, kb))
    ensures |Join(xs, ys, ka, kb)| <= |xs|
  {
    if xs != [] {
      JoinUniqueLength(xs[..|xs| - 1], ys, ka, kb);
      CountUniqueKey(ys, kb, ka(xs[|xs| - 1]));
    }
  }

  /** A pair of rows with equal keys is in the join. */
  lemma {:induction false} JoinContains<A, B, K>(xs: seq<A>, ys: seq<B>, ka: A -> K, kb: B -> K, a: A, b: B)
    requires a in xs && b in ys && kb(b) == ka(a)
    ensures (a, b) in Join(xs, ys, ka, kb)
  {
    var init := xs[..|xs| - 1];
    if a == xs[|xs| - 1] {
      MatchesContains(a, ys, ka, kb, b);
    } else {
      assert a in init by {
        var i :| 0 <= i < |xs| && xs[i] == a;
        assert init[i] == a;
      }
      JoinContains(init, ys, ka, kb, a, b);
    }
  }

  lemma {:induction false} MatchesContains<A, B, K>(a: A, ys: seq<B>, ka: A -> K, kb: B -> K, b: B)
    requires b in ys && kb(b) == ka(a)
    ensures (a, b) in Matches(a, ys, ka, kb)
  {
    var init := ys[..|ys| - 1];
    if b != ys[|ys| - 1] {
      assert b in init by {
        var i :| 0 <= i < |ys| && ys[i] == b;
        assert init[i] == b;
      }
      MatchesContains(a, init, ka, kb, b);
    }
  }

  /** A key occurs in the join exactly when it occurs on both sides. */
  lemma JoinKeys<A, B, K>(xs: seq<A>, ys: seq<B>, ka: A -> K, kb: B -> K, kq: ((A, B)) -> K, k: K)
    requires forall q: (A, B) :: kq(q) == ka(q.0)
    ensures k in Map(Join(xs, ys, ka, kb), kq) <==> k in Map(xs, ka) && k in Map(ys, kb)
  {
    var j := Join(xs, ys, ka, kb);
    if k in Map(xs, ka) && k in Map(ys, kb) {
      var i :| 0 <= i < |xs| && Map(xs, ka)[i] == k;
      var m :| 0 <= m < |ys| && Map(ys, kb)[m] == k;
      JoinContains(xs, ys, ka, kb, xs[i], ys[m]);
      var n :| 0 <= n < |j| && j[n] == (xs[i], ys[m]);
      assert Map(j, kq)[n] == k;
    }
    if k in Map(j, kq) {
      var n :| 0 <= n < |j| && Map(j, kq)[n] == k;
      assert j[n] in j;
      var i :| 0 <= i < |xs| && xs[i] == j[n].0;
      var m :| 0 <= m < |ys| && ys[m] == j[n].1;
      assert Map(xs, ka)[i] == k && Map(ys, kb)[m] == k;
    }
  }

  /** Joining two tables with unique keys gives a table with unique keys. */
  lemma {:induction false} JoinUniqueKeys<A, B, K>(xs: seq<A>, ys: seq<B>, ka: A -> K, kb: B -> K, kq: ((A, B)) -> K)
    requires UniqueKeys(xs, ka) && UniqueKeys(ys, kb)
    requires forall q: (A, B) :: kq(q) == ka(q.0)
    ensures UniqueKeys(Join(xs, ys, ka, kb), kq)
  {
    if xs != [] {
      var init := xs[..|xs| - 1];
      var last := xs[|xs| - 1];
      assert UniqueKeys(init, ka) by {
        forall i, j | 0 <= i < j < |init| ensures ka(init[i]) != ka(init[j]) {
          assert init[i] == xs[i] && init[j] == xs[j];
        }
      }
      JoinUniqueKeys(init, ys, ka, kb, kq);
      var front := Join(init, ys, ka, kb);
      var back := Matches(last, ys, ka, kb);
      CountUniqueKey(ys, kb, ka(last));
      forall q | q in front ensures kq(q) != ka(last) {
        var m :| 0 <= m < |init| && init[m] == q.0;
        assert xs[m] == q.0;
      }
      var r := front + back;
      forall i, j | 0 <= i < j < |r| ensures kq(r[i]) != kq(r[j]) {
        if j < |front| {
          assert r[i] == front[i] && r[j] == front[j];
        } else {
          assert i < |front|;
          assert r[i] == front[i] && r[j] == back[j - |front|];
          assert r[i] in front && back[j - |front|] in back;
        }
      }
    }
  }
}
