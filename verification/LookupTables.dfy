/**
 Choosing lookup tables for a transaction.

 A table is known by a label and by the set of its addresses that the instructions need. A table
 costs 32 bytes and replaces each 32-byte address it provides by a one-byte index.
 */
module LookupTables {

  type Address = nat

  datatype Match<T> = Match(id: T, addresses: set<Address>)

  // ----- cost -----

  /** The sets of positions of a list. */
  ghost predicate Selects(c: set<nat>, n: nat) {
    forall i :: i in c ==> i < n
  }

  function Covered<T>(tables: seq<Match<T>>, c: set<nat>): set<Address> {
    set i, x | i in c && i < |tables| && x in tables[i].addresses :: x
  }

  /** The change in bytes from using the tables at the positions c. */
  function ByteAdjustment<T>(tables: seq<Match<T>>, c: set<nat>): int {
    (|c| - |Covered(tables, c)|) * 32 + |Covered(tables, c)|
  }

  /**
   The adjustment is what the message grows by: each table costs an address, each address it provides
   becomes a one-byte index, and every other address that is needed is still written out.
   */
  lemma BytesSaved<T>(needed: set<Address>, tables: seq<Match<T>>, c: set<nat>)
    requires Covered(tables, c) <= needed
    ensures var covered := Covered(tables, c);
            ByteAdjustment(tables, c) == (32 * |c| + |covered| + 32 * |needed - covered|) - 32 * |needed|
  {
    var covered := Covered(tables, c);
    assert needed == covered + (needed - covered);
  }

  lemma CardinalityAtMost<A>(a: set<A>, b: set<A>)
    requires a <= b
    ensures |a| <= |b|
  {
    assert b == a + (b - a);
  }

  lemma SubsetOfSameSize<A>(a: set<A>, b: set<A>)
    requires a <= b && |b| <= |a|
    ensures a == b
  {
    assert b == a + (b - a);
  }

  lemma CardinalityOfUnion<A>(a: set<A>, b: set<A>)
    ensures |a + b| <= |a| + |b|
  {
  }

  // ----- pruning -----

  function NumNotIn(sub: set<Address>, sup: set<Address>): nat {
    |sub - sup|
  }

  /** Stable insertion by the number of addresses. */
  function InsertBySize<T>(m: Match<T>, sorted: seq<Match<T>>): seq<Match<T>> {
    if sorted == [] then [m]
    else if |m.addresses| < |sorted[0].addresses| then [m] + sorted
    else [sorted[0]] + InsertBySize(m, sorted[1..])
  }

  function SortBySize<T>(tables: seq<Match<T>>): seq<Match<T>> {
    if tables == [] then [] else
    var last := |tables| - 1;
    InsertBySize(tables[last], SortBySize(tables[..last]))
  }

  predicate SortedBySize<T>(s: seq<Match<T>>) {
    forall i, j :: 0 <= i < j < |s| ==> |s[i].addresses| <= |s[j].addresses|
  }

  /** A table is kept when it has two matches or more and no later one has all but `maxNovel` of them. */
  predicate Keeps<T>(sorted: seq<Match<T>>, i: nat, maxNovel: nat)
    requires i < |sorted|
  {
    && 2 <= |sorted[i].addresses|
    && forall j :: i < j < |sorted| ==> maxNovel < NumNotIn(sorted[i].addresses, sorted[j].addresses)
  }

  function KeptFrom<T>(sorted: seq<Match<T>>, i: nat, maxNovel: nat): seq<Match<T>>
    requires i <= |sorted|
    decreases |sorted| - i
  {
    if i == |sorted| then []
    else (if Keeps(sorted, i, maxNovel) then [sorted[i]] else []) + KeptFrom(sorted, i + 1, maxNovel)
  }

  function Prune<T>(tables: seq<Match<T>>, maxNovel: nat): seq<Match<T>> {
    KeptFrom(SortBySize(tables), 0, maxNovel)
  }

  /** The table has more than `maxNovel` addresses that those behind it, up to j, do not have. */
  predicate NovelUpTo<T>(sorted: seq<Match<T>>, i: nat, j: nat, maxNovel: nat)
    requires i < j <= |sorted|
  {
    forall k :: i < k < j ==> maxNovel < NumNotIn(sorted[i].addresses, sorted[k].addresses)
  }

  lemma KeptStep<T>(sorted: seq<Match<T>>, i: nat, maxNovel: nat)
    requires i < |sorted|
    ensures KeptFrom(sorted, i, maxNovel)
            == if Keeps(sorted, i, maxNovel) then [sorted[i]] + KeptFrom(sorted, i + 1, maxNovel)
               else KeptFrom(sorted, i + 1, maxNovel)
  {
    assert [] + KeptFrom(sorted, i + 1, maxNovel) == KeptFrom(sorted, i + 1, maxNovel);
  }

  lemma Regroup<A>(kept: seq<A>, x: A, rest: seq<A>)
    ensures kept + ([x] + rest) == kept + [x] + rest
  {
  }

  method ExcludeSubsetsAndUseless<T>(tables: seq<Match<T>>, maxNovel: nat) returns (kept: seq<Match<T>>)
    ensures kept == Prune(tables, maxNovel)
  {
    var sorted := SortBySize(tables);
    kept := [];
    var i := 0;
    while i < |sorted|
      invariant i <= |sorted|
      invariant kept + KeptFrom(sorted, i, maxNovel) == KeptFrom(sorted, 0, maxNovel)
    {
      var keep := 2 <= |sorted[i].addresses|;
      var j := i + 1;
      while j < |sorted| && keep
        invariant i < j <= |sorted|
        invariant keep ==> 2 <= |sorted[i].addresses| && NovelUpTo(sorted, i, j, maxNovel)
        invariant !keep ==> !Keeps(sorted, i, maxNovel)
      {
        if NumNotIn(sorted[i].addresses, sorted[j].addresses) <= maxNovel {
          keep := false;
        }
        j := j + 1;
      }
      KeptStep(sorted, i, maxNovel);
      Regroup(kept, sorted[i], KeptFrom(sorted, i + 1, maxNovel));
      if keep {
        kept := kept + [sorted[i]];
      }
      i := i + 1;
    }
    assert kept + [] == kept;
  }

  lemma {:induction false} InsertKeepsElements<T>(m: Match<T>, s: seq<Match<T>>)
    ensures multiset(InsertBySize(m, s)) == multiset(s) + multiset{m}
    decreases s
  {
    if s != [] {
      InsertKeepsElements(m, s[1..]);
      assert s == [s[0]] + s[1..];
    }
  }

  lemma SortedCons<T>(m: Match<T>, s: seq<Match<T>>)
    requires SortedBySize(s) && forall x :: x in s ==> |m.addresses| <= |x.addresses|
    ensures SortedBySize([m] + s)
  {
  }

  lemma {:induction false} InsertBySizeSorts<T>(m: Match<T>, s: seq<Match<T>>)
    requires SortedBySize(s)
    ensures SortedBySize(InsertBySize(m, s))
    decreases s
  {
    if s != [] && |s[0].addresses| <= |m.addresses| {
      InsertBySizeSorts(m, s[1..]);
      var rest := InsertBySize(m, s[1..]);
      InsertKeepsElements(m, s[1..]);
      forall x | x in rest ensures |s[0].addresses| <= |x.addresses| {
        assert x in multiset(rest);
        assert x in s[1..] || x == m;
      }
      SortedCons(s[0], rest);
    }
  }

  lemma {:induction false} SortBySizeSorts<T>(tables: seq<Match<T>>)
    ensures SortedBySize(SortBySize(tables)) && multiset(SortBySize(tables)) == multiset(tables)
  {
    if tables != [] {
      var last := |tables| - 1;
      SortBySizeSorts(tables[..last]);
      InsertBySizeSorts(tables[last], SortBySize(tables[..last]));
      InsertKeepsElements(tables[last], SortBySize(tables[..last]));
      assert tables == tables[..last] + [tables[last]];
    }
  }

  /** The tables with a given number of addresses, in their order. */
  function OfSize<T>(tables: seq<Match<T>>, n: nat): seq<Match<T>> {
    if tables == [] then [] else
    var last := |tables| - 1;
    OfSize(tables[..last], n) + (if |tables[last].addresses| == n then [tables[last]] else [])
  }

  lemma {:induction false} OfSizeAppend<T>(a: seq<Match<T>>, b: seq<Match<T>>, n: nat)
    ensures OfSize(a + b, n) == OfSize(a, n) + OfSize(b, n)
    decreases b
  {
    if b == [] {
      assert a + b == a;
    } else {
      var last := |b| - 1;
      OfSizeAppend(a, b[..last], n);
      assert (a + b)[..|a + b| - 1] == a + b[..last];
    }
  }

  lemma OfSizeOne<T>(m: Match<T>, n: nat)
    ensures OfSize([m], n) == if |m.addresses| == n then [m] else []
  {
    assert [m][..0] == [];
  }

  lemma {:induction false} NoneOfSize<T>(s: seq<Match<T>>, n: nat)
    requires forall x :: x in s ==> n < |x.addresses|
    ensures OfSize(s, n) == []
  {
    if s != [] { NoneOfSize(s[..|s| - 1], n); }
  }

  lemma FirstAndRest<T>(s: seq<Match<T>>, n: nat)
    requires s != []
    ensures OfSize(s, n) == OfSize([s[0]], n) + OfSize(s[1..], n)
  {
    assert s == [s[0]] + s[1..];
    OfSizeAppend([s[0]], s[1..], n);
  }

  lemma InsertFirst<T>(m: Match<T>, s: seq<Match<T>>, n: nat)
    requires SortedBySize(s) && s != [] && |m.addresses| < |s[0].addresses|
    ensures OfSize([m] + s, n) == OfSize(s, n) + OfSize([m], n)
  {
    OfSizeAppend([m], s, n);
    OfSizeOne(m, n);
    if |m.addresses| == n { NoneOfSize(s, n); }
  }

  lemma {:induction false} InsertIsStable<T>(m: Match<T>, s: seq<Match<T>>, n: nat)
    requires SortedBySize(s)
    ensures OfSize(InsertBySize(m, s), n) == OfSize(s, n) + OfSize([m], n)
    decreases s
  {
    if s != [] {
      if |m.addresses| < |s[0].addresses| {
        InsertFirst(m, s, n);
      } else {
        InsertIsStable(m, s[1..], n);
        InsertLater(m, s, InsertBySize(m, s[1..]), n);
      }
    }
  }

  lemma InsertLater<T>(m: Match<T>, s: seq<Match<T>>, rest: seq<Match<T>>, n: nat)
    requires s != [] && OfSize(rest, n) == OfSize(s[1..], n) + OfSize([m], n)
    ensures OfSize([s[0]] + rest, n) == OfSize(s, n) + OfSize([m], n)
  {
    OfSizeAppend([s[0]], rest, n);
    FirstAndRest(s, n);
  }

  /** Tables with the same number of addresses keep their order. */
  lemma {:induction false} SortIsStable<T>(tables: seq<Match<T>>, n: nat)
    ensures OfSize(SortBySize(tables), n) == OfSize(tables, n)
  {
    if tables != [] {
      var last := |tables| - 1;
      var before := tables[..last];
      SortIsStable(before, n);
      SortBySizeSorts(before);
      InsertIsStable(tables[last], SortBySize(before), n);
      OfSizeOne(tables[last], n);
    }
  }

  lemma {:induction false} KeptFromContains<T>(sorted: seq<Match<T>>, i: nat, maxNovel: nat, k: nat)
    requires i <= k < |sorted| && Keeps(sorted, k, maxNovel)
    ensures sorted[k] in KeptFrom(sorted, i, maxNovel)
    decreases |sorted| - i
  {
    if i < k { KeptFromContains(sorted, i + 1, maxNovel, k); }
  }

  lemma {:induction false} KeptFromKeeps<T>(sorted: seq<Match<T>>, i: nat, maxNovel: nat, m: Match<T>)
    requires i <= |sorted| && m in KeptFrom(sorted, i, maxNovel)
    ensures exists k :: i <= k < |sorted| && sorted[k] == m && Keeps(sorted, k, maxNovel)
    decreases |sorted| - i
  {
    if !(Keeps(sorted, i, maxNovel) && sorted[i] == m) {
      KeptFromKeeps(sorted, i + 1, maxNovel, m);
    }
  }

  /** The addresses that one table has and another does not. */
  lemma NovelAre(sub: set<Address>, sup: set<Address>)
    ensures NumNotIn(sub, sup) == |sub| - |sub * sup|
  {
    assert sub == (sub - sup) + (sub * sup);
  }

  lemma NothingNovel(sub: set<Address>, sup: set<Address>)
    ensures NumNotIn(sub, sup) == 0 <==> sub <= sup
  {
    if sub <= sup {
      assert sub - sup == {};
    } else {
      var x :| x in sub && x !in sup;
      assert x in sub - sup;
    }
  }

  /** Every table with two matches or more is a subset of one that is kept. */
  lemma {:induction false} KeptSuperset<T>(sorted: seq<Match<T>>, i: nat) returns (k: nat)
    requires i < |sorted| && 2 <= |sorted[i].addresses|
    ensures i <= k < |sorted| && Keeps(sorted, k, 0) && sorted[i].addresses <= sorted[k].addresses
    decreases |sorted| - i
  {
    if Keeps(sorted, i, 0) {
      k := i;
    } else {
      var j :| i < j < |sorted| && NumNotIn(sorted[i].addresses, sorted[j].addresses) == 0;
      NothingNovel(sorted[i].addresses, sorted[j].addresses);
      CardinalityAtMost(sorted[i].addresses, sorted[j].addresses);
      k := KeptSuperset(sorted, j);
    }
  }

  /** Whatever a table with two matches or more provides, some kept table provides too. */
  lemma PruneCovers<T>(tables: seq<Match<T>>, m: Match<T>)
    requires m in tables && 2 <= |m.addresses|
    ensures exists k :: 0 <= k < |Prune(tables, 0)| && m.addresses <= Prune(tables, 0)[k].addresses
  {
    var sorted := SortBySize(tables);
    SortBySizeSorts(tables);
    assert m in multiset(sorted);
    var i :| 0 <= i < |sorted| && sorted[i] == m;
    var k := KeptSuperset(sorted, i);
    KeptFromContains(sorted, 0, 0, k);
    var kept := Prune(tables, 0);
    var j :| 0 <= j < |kept| && kept[j] == sorted[k];
    assert m.addresses <= kept[j].addresses;
  }

  /** And pruning invents nothing. */
  lemma PruneIsFromTables<T>(tables: seq<Match<T>>, m: Match<T>, maxNovel: nat)
    requires m in Prune(tables, maxNovel)
    ensures m in tables && 2 <= |m.addresses|
  {
    SortBySizeSorts(tables);
    KeptFromKeeps(SortBySize(tables), 0, maxNovel, m);
    assert m in multiset(SortBySize(tables));
  }

  // ----- pruning loses nothing -----

  /** Every table of `from` that is worth having is a subset of one of `to`. */
  ghost predicate Dominates<T>(to: seq<Match<T>>, from: seq<Match<T>>) {
    forall m :: m in from && 2 <= |m.addresses|
      ==> exists k :: 0 <= k < |to| && m.addresses <= to[k].addresses
  }

  /**
   A selection is replaced table by table: one with at most one match is dropped and its address
   written out, any other gives way to a superset.
   */
  lemma {:induction false} Replace<T>(from: seq<Match<T>>, to: seq<Match<T>>, c: set<nat>)
    returns (d: set<nat>, plain: set<Address>)
    requires Dominates(to, from) && Selects(c, |from|)
    ensures Selects(d, |to|) && |d| + |plain| <= |c|
    ensures Covered(from, c) <= Covered(to, d) + plain
    decreases |c|
  {
    if c == {} {
      d, plain := {}, {};
    } else {
      var i :| i in c;
      var d0, plain0 := Replace(from, to, c - {i});
      var m := from[i];
      assert Covered(from, c) <= Covered(from, c - {i}) + m.addresses;
      if |m.addresses| < 2 {
        d, plain := d0, plain0 + m.addresses;
        CardinalityOfUnion(plain0, m.addresses);
      } else {
        assert m in from;
        var k :| 0 <= k < |to| && m.addresses <= to[k].addresses;
        d, plain := d0 + {k}, plain0;
        CardinalityOfUnion(d0, {k});
        assert Covered(to, d0) <= Covered(to, d) && to[k].addresses <= Covered(to, d);
      }
    }
  }

  lemma NoWorseSelection<T>(from: seq<Match<T>>, to: seq<Match<T>>, c: set<nat>) returns (d: set<nat>)
    requires Dominates(to, from) && Selects(c, |from|)
    ensures Selects(d, |to|) && ByteAdjustment(to, d) <= ByteAdjustment(from, c)
  {
    var plain;
    d, plain := Replace(from, to, c);
    CardinalityAtMost(Covered(from, c), Covered(to, d) + plain);
    CardinalityOfUnion(Covered(to, d), plain);
  }

  /** For every selection of all tables there is one of the kept tables that costs no more, and conversely. */
  lemma PruningLosesNothing<T>(tables: seq<Match<T>>, c: set<nat>)
    ensures Selects(c, |tables|)
            ==> exists d :: Selects(d, |Prune(tables, 0)|)
                            && ByteAdjustment(Prune(tables, 0), d) <= ByteAdjustment(tables, c)
    ensures Selects(c, |Prune(tables, 0)|)
            ==> exists d :: Selects(d, |tables|)
                            && ByteAdjustment(tables, d) <= ByteAdjustment(Prune(tables, 0), c)
  {
    var kept := Prune(tables, 0);
    forall m | m in tables && 2 <= |m.addresses|
      ensures exists k :: 0 <= k < |kept| && m.addresses <= kept[k].addresses
    {
      PruneCovers(tables, m);
    }
    forall m | m in kept
      ensures exists k :: 0 <= k < |tables| && m.addresses <= tables[k].addresses
    {
      PruneIsFromTables(tables, m, 0);
      var k :| 0 <= k < |tables| && tables[k] == m;
      assert m.addresses <= tables[k].addresses;
    }
    if Selects(c, |tables|) { var d := NoWorseSelection(tables, kept, c); }
    if Selects(c, |kept|) { var d := NoWorseSelection(kept, tables, c); }
  }

  // ----- the exhaustive search -----

  /** The k-element subsets of lo..n, in lexicographic order. */
  function Combinations(lo: nat, n: nat, k: nat): seq<set<nat>>
    requires lo <= n
    decreases n - lo
  {
    if k == 0 then [{}]
    else if lo == n then []
    else WithElement(lo, Combinations(lo + 1, n, k - 1)) + Combinations(lo + 1, n, k)
  }

  function WithElement(x: nat, sets: seq<set<nat>>): (r: seq<set<nat>>)
    ensures |r| == |sets|
  {
    if sets == [] then [] else [sets[0] + {x}] + WithElement(x, sets[1..])
  }

  lemma {:induction false} WithElementAt(x: nat, sets: seq<set<nat>>, i: nat)
    requires i < |sets|
    ensures WithElement(x, sets)[i] == sets[i] + {x}
    decreases sets
  {
    if i > 0 { WithElementAt(x, sets[1..], i - 1); }
  }

  /** All subsets of 0..n with at least k elements, the smaller ones first. */
  function SubsetsFrom(n: nat, k: nat): seq<set<nat>>
    requires k <= n + 1
    decreases n + 1 - k
  {
    if k == n + 1 then [] else Combinations(0, n, k) + SubsetsFrom(n, k + 1)
  }

  function Powerset(n: nat): seq<set<nat>> {
    SubsetsFrom(n, 0)
  }

  predicate Within(c: set<nat>, lo: nat, n: nat) {
    forall i :: i in c ==> lo <= i < n
  }

  lemma WithLowest(c: set<nat>, lo: nat, n: nat)
    requires lo < n && Within(c, lo + 1, n)
    ensures Within(c + {lo}, lo, n) && |c + {lo}| == |c| + 1
  {
    assert lo !in c;
  }

  /** An element of two lists joined is in one of them. */
  lemma InEither<A>(a: seq<A>, b: seq<A>, x: A)
    ensures x in a + b <==> x in a || x in b
  {
  }

  lemma WithElementHas(x: nat, sets: seq<set<nat>>, c: set<nat>) returns (rest: set<nat>)
    requires c in WithElement(x, sets)
    ensures rest in sets && c == rest + {x}
  {
    var i :| 0 <= i < |sets| && WithElement(x, sets)[i] == c;
    WithElementAt(x, sets, i);
    rest := sets[i];
  }

  lemma {:induction false} CombinationsAre(lo: nat, n: nat, k: nat, c: set<nat>)
    requires lo <= n && c in Combinations(lo, n, k)
    ensures Within(c, lo, n) && |c| == k
    decreases n - lo
  {
    if k == 0 {
      assert c == {};
    } else if lo < n {
      CombinationHas(lo, n, k, c);
    }
  }

  /** A combination has the lowest element or not. */
  lemma {:induction false} CombinationHas(lo: nat, n: nat, k: nat, c: set<nat>)
    requires lo < n && 0 < k && c in Combinations(lo, n, k)
    ensures Within(c, lo, n) && |c| == k
    decreases n - lo, 0
  {
    var first, second := Combinations(lo + 1, n, k - 1), Combinations(lo + 1, n, k);
    InEither(WithElement(lo, first), second, c);
    if c in second {
      CombinationsAre(lo + 1, n, k, c);
    } else {
      var rest := WithElementHas(lo, first, c);
      CombinationsAre(lo + 1, n, k - 1, rest);
      WithLowest(rest, lo, n);
    }
  }

  lemma BoundedCardinality(c: set<nat>, lo: nat, n: nat)
    requires lo <= n && Within(c, lo, n)
    ensures |c| <= n - lo
    decreases n - lo
  {
    if lo < n {
      BoundedCardinality(c - {lo}, lo + 1, n);
    } else {
      assert c == {};
    }
  }

  lemma FoundWith(lo: nat, n: nat, k: nat, c: set<nat>)
    requires lo < n && 0 < k && lo in c && c - {lo} in Combinations(lo + 1, n, k - 1)
    ensures c in Combinations(lo, n, k)
  {
    var first := Combinations(lo + 1, n, k - 1);
    var i :| 0 <= i < |first| && first[i] == c - {lo};
    WithElementAt(lo, first, i);
    assert WithElement(lo, first)[i] == c;
    InEither(WithElement(lo, first), Combinations(lo + 1, n, k), c);
  }

  lemma FoundWithout(lo: nat, n: nat, k: nat, c: set<nat>)
    requires lo < n && 0 < k && c in Combinations(lo + 1, n, k)
    ensures c in Combinations(lo, n, k)
  {
    InEither(WithElement(lo, Combinations(lo + 1, n, k - 1)), Combinations(lo + 1, n, k), c);
  }

  lemma WithoutLowest(c: set<nat>, lo: nat, n: nat)
    requires lo < n && Within(c, lo, n)
    ensures Within(c - {lo}, lo + 1, n)
    ensures lo in c ==> |c - {lo}| == |c| - 1
    ensures lo !in c ==> c - {lo} == c
  {
  }

  lemma NothingIsAlwaysFound(lo: nat, n: nat)
    requires lo <= n
    ensures {} in Combinations(lo, n, 0)
  {
    assert Combinations(lo, n, 0)[0] == {};
  }

  lemma EmptySet(c: set<nat>)
    requires |c| == 0
    ensures c == {}
  {
  }

  lemma {:induction false} CombinationsContain(lo: nat, n: nat, k: nat, c: set<nat>)
    requires lo <= n && Within(c, lo, n) && |c| == k
    ensures c in Combinations(lo, n, k)
    decreases n - lo, 1
  {
    BoundedCardinality(c, lo, n);
    if k == 0 {
      EmptySet(c);
      NothingIsAlwaysFound(lo, n);
    } else if lo in c {
      ContainsWith(lo, n, k, c);
    } else {
      ContainsWithout(lo, n, k, c);
    }
  }

  lemma {:induction false} ContainsWith(lo: nat, n: nat, k: nat, c: set<nat>)
    requires lo < n && Within(c, lo, n) && |c| == k && lo in c
    ensures c in Combinations(lo, n, k)
    decreases n - lo, 0
  {
    WithoutLowest(c, lo, n);
    CombinationsContain(lo + 1, n, k - 1, c - {lo});
    FoundWith(lo, n, k, c);
  }

  lemma {:induction false} ContainsWithout(lo: nat, n: nat, k: nat, c: set<nat>)
    requires lo < n && Within(c, lo, n) && |c| == k && 0 < k && lo !in c
    ensures c in Combinations(lo, n, k)
    decreases n - lo, 0
  {
    WithoutLowest(c, lo, n);
    CombinationsContain(lo + 1, n, k, c);
    FoundWithout(lo, n, k, c);
  }

  lemma {:induction false} SubsetsFromAre(n: nat, k: nat, i: nat)
    requires k <= n + 1 && i < |SubsetsFrom(n, k)|
    ensures Within(SubsetsFrom(n, k)[i], 0, n) && k <= |SubsetsFrom(n, k)[i]|
    decreases n + 1 - k
  {
    var first := Combinations(0, n, k);
    if i < |first| { CombinationsAre(0, n, k, first[i]); } else { SubsetsFromAre(n, k + 1, i - |first|); }
  }

  lemma {:induction false} SubsetsFromOrdered(n: nat, k: nat, i: nat, j: nat)
    requires k <= n + 1 && i <= j < |SubsetsFrom(n, k)|
    ensures |SubsetsFrom(n, k)[i]| <= |SubsetsFrom(n, k)[j]|
    decreases n + 1 - k
  {
    var first := Combinations(0, n, k);
    SubsetsFromAre(n, k, j);
    if i < |first| {
      CombinationsAre(0, n, k, first[i]);
    } else {
      SubsetsFromOrdered(n, k + 1, i - |first|, j - |first|);
    }
  }

  lemma {:induction false} SubsetsFromContain(n: nat, k: nat, c: set<nat>)
    requires k <= |c| && Within(c, 0, n)
    ensures |c| <= n && c in SubsetsFrom(n, k)
    decreases n + 1 - k
  {
    BoundedCardinality(c, 0, n);
    if k < |c| { SubsetsFromContain(n, k + 1, c); } else { CombinationsContain(0, n, k, c); }
  }

  /** Minimal cost, and among the selections of that cost none is smaller. */
  ghost predicate IsBest<T>(tables: seq<Match<T>>, c: set<nat>) {
    && Selects(c, |tables|)
    && forall d :: Selects(d, |tables|)
         ==> ByteAdjustment(tables, c) <= ByteAdjustment(tables, d)
             && (ByteAdjustment(tables, c) == ByteAdjustment(tables, d) ==> |c| <= |d|)
  }

  /** No selection of the tables costs less than `bytes`. */
  ghost predicate NoneCheaper<T>(tables: seq<Match<T>>, bytes: int) {
    forall d :: Selects(d, |tables|) ==> bytes <= ByteAdjustment(tables, d)
  }

  /** The ids at the selected positions, in order. */
  function Pick<T>(tables: seq<Match<T>>, c: set<nat>): seq<T> {
    if tables == [] then [] else
    var last := |tables| - 1;
    Pick(tables[..last], c) + (if last in c then [tables[last].id] else [])
  }

  /** The ids are those of the tables at the positions c, each once and in the order of the tables. */
  ghost predicate Names<T>(tables: seq<Match<T>>, c: set<nat>, pos: seq<nat>, ids: seq<T>) {
    && |ids| == |pos| && (forall j, k :: 0 <= j < k < |pos| ==> pos[j] < pos[k])
    && (forall i :: i in c <==> i in pos)
    && (forall k :: 0 <= k < |pos| ==> pos[k] < |tables| && ids[k] == tables[pos[k]].id)
  }

  function Below(c: set<nat>, n: nat): set<nat> {
    set i | i in c && i < n
  }

  lemma {:induction false} PickNames<T>(tables: seq<Match<T>>, c: set<nat>) returns (pos: seq<nat>)
    ensures Names(tables, Below(c, |tables|), pos, Pick(tables, c))
  {
    pos := [];
    if tables != [] {
      var last := |tables| - 1;
      var before := PickNames(tables[..last], c);
      pos := if last in c then before + [last] else before;
      NamesOneMore(tables, c, before, Pick(tables[..last], c));
    }
  }

  lemma NamesOneMore<T>(tables: seq<Match<T>>, c: set<nat>, pos: seq<nat>, ids: seq<T>)
    requires tables != []
    requires var last := |tables| - 1; Names(tables[..last], Below(c, last), pos, ids)
    ensures var last := |tables| - 1;
            if last in c then Names(tables, Below(c, |tables|), pos + [last], ids + [tables[last].id])
            else Names(tables, Below(c, |tables|), pos, ids)
  {
    var last := |tables| - 1;
    assert forall k :: 0 <= k < |pos| ==> tables[..last][pos[k]] == tables[pos[k]];
    if last in c {
      assert forall i :: i in pos + [last] <==> i in pos || i == last;
    }
  }

  /** A best selection, and the ids of its tables. */
  ghost predicate NamesABest<T>(tables: seq<Match<T>>, ids: seq<T>, c: set<nat>, pos: seq<nat>) {
    IsBest(tables, c) && Names(tables, c, pos, ids)
  }

  lemma PickOfBest<T>(tables: seq<Match<T>>, c: set<nat>)
    requires IsBest(tables, c)
    ensures exists pos :: NamesABest(tables, Pick(tables, c), c, pos)
  {
    var pos := PickNames(tables, c);
    assert Below(c, |tables|) == c;
    assert NamesABest(tables, Pick(tables, c), c, pos);
  }

  /** Scores every selection and returns the ids of the first of the best ones. */
  method PerfectlyOptimize<T>(tables: seq<Match<T>>) returns (ids: seq<T>)
    ensures exists c, pos :: NamesABest(tables, ids, c, pos)
  {
    var combos := Powerset(|tables|);
    SubsetsFromContain(|tables|, 0, {});
    var best := 0;
    var i := 1;
    while i < |combos|
      invariant best < i <= |combos|
      invariant forall j :: 0 <= j < i ==> ByteAdjustment(tables, combos[best]) <= ByteAdjustment(tables, combos[j])
      invariant forall j :: 0 <= j < best ==> ByteAdjustment(tables, combos[best]) < ByteAdjustment(tables, combos[j])
    {
      if ByteAdjustment(tables, combos[i]) < ByteAdjustment(tables, combos[best]) {
        best := i;
      }
      i := i + 1;
    }
    var c := combos[best];
    ids := Pick(tables, c);
    SubsetsFromAre(|tables|, 0, best);
    forall d | Selects(d, |tables|)
      ensures ByteAdjustment(tables, c) <= ByteAdjustment(tables, d)
      ensures ByteAdjustment(tables, c) == ByteAdjustment(tables, d) ==> |c| <= |d|
    {
      SubsetsFromContain(|tables|, 0, d);
      var j :| 0 <= j < |combos| && combos[j] == d;
      if best <= j { SubsetsFromOrdered(|tables|, 0, best, j); }
    }
    assert IsBest(tables, c);
    PickOfBest(tables, c);
  }

  // ----- pruning and searching together -----

  /** A single table that is worth keeping is worth using. */
  lemma SingleTableIsBest<T>(tables: seq<Match<T>>)
    requires |tables| == 1 && 2 <= |tables[0].addresses|
    ensures NamesABest(tables, [tables[0].id], {0}, [0])
  {
    assert Covered(tables, {0}) == tables[0].addresses;
    assert Covered(tables, {}) == {};
    forall d | Selects(d, 1) ensures d == {} || d == {0} {
    }
  }

  /** The best selection of the kept tables is not beaten by any selection of all tables. */
  lemma BestKeptIsBest<T>(tables: seq<Match<T>>, c: set<nat>)
    requires IsBest(Prune(tables, 0), c)
    ensures NoneCheaper(tables, ByteAdjustment(Prune(tables, 0), c))
  {
    var kept := Prune(tables, 0);
    forall d | Selects(d, |tables|) ensures ByteAdjustment(kept, c) <= ByteAdjustment(tables, d) {
      PruningLosesNothing(tables, d);
      var e :| Selects(e, |kept|) && ByteAdjustment(kept, e) <= ByteAdjustment(tables, d);
    }
  }

  // ----- back to the tables that were given -----

  lemma KeptBehind<T>(sorted: seq<Match<T>>, i: nat, m: Match<T>)
    requires i < |sorted| && Keeps(sorted, i, 0) && m in KeptFrom(sorted, i + 1, 0)
    ensures !(sorted[i].addresses <= m.addresses)
  {
    KeptFromKeeps(sorted, i + 1, 0, m);
    var k :| i + 1 <= k < |sorted| && sorted[k] == m;
    NothingNovel(sorted[i].addresses, sorted[k].addresses);
  }

  /** No table that is kept is a subset of one kept behind it. */
  lemma {:induction false} KeptDiffer<T>(sorted: seq<Match<T>>, i: nat, kept: seq<Match<T>>, j: nat, k: nat)
    requires i <= |sorted| && kept == KeptFrom(sorted, i, 0) && j < k < |kept|
    ensures !(kept[j].addresses <= kept[k].addresses)
    decreases |sorted| - i
  {
    var rest := KeptFrom(sorted, i + 1, 0);
    KeptStep(sorted, i, 0);
    if !Keeps(sorted, i, 0) {
      KeptDiffer(sorted, i + 1, rest, j, k);
    } else if 0 < j {
      KeptDiffer(sorted, i + 1, rest, j - 1, k - 1);
    } else {
      assert kept[k] == rest[k - 1];
      KeptBehind(sorted, i, rest[k - 1]);
    }
  }

  /** The ids are those of different tables of the list, at the positions c. */
  ghost predicate Labels<T>(tables: seq<Match<T>>, c: set<nat>, pos: seq<nat>, ids: seq<T>) {
    && |ids| == |pos| && (forall j, k :: 0 <= j < k < |pos| ==> pos[j] != pos[k])
    && (forall i :: i in c <==> i in pos)
    && (forall k :: 0 <= k < |pos| ==> pos[k] < |tables| && ids[k] == tables[pos[k]].id)
  }

  /** Where the tables at some positions of one list are in another that has them. */
  lemma {:induction false} Locate<T>(kept: seq<Match<T>>, pos: seq<nat>, tables: seq<Match<T>>) returns (at: seq<nat>)
    requires forall m :: m in kept ==> m in tables
    requires forall k :: 0 <= k < |pos| ==> pos[k] < |kept|
    ensures |at| == |pos| && forall k :: 0 <= k < |at| ==> at[k] < |tables| && tables[at[k]] == kept[pos[k]]
  {
    at := [];
    if pos != [] {
      var n := |pos| - 1;
      var before := Locate(kept, pos[..n], tables);
      assert kept[pos[n]] in tables;
      var i :| 0 <= i < |tables| && tables[i] == kept[pos[n]];
      at := before + [i];
    }
  }

  function Elements(pos: seq<nat>): set<nat> {
    set i | i in pos
  }

  lemma {:induction false} SizeOfDistinct(pos: seq<nat>)
    requires forall j, k :: 0 <= j < k < |pos| ==> pos[j] != pos[k]
    ensures |Elements(pos)| == |pos|
  {
    if pos != [] {
      var n := |pos| - 1;
      SizeOfDistinct(pos[..n]);
      assert Elements(pos) == Elements(pos[..n]) + {pos[n]};
      assert pos[n] !in pos[..n];
    }
  }

  /** The same tables at other positions cost the same. */
  lemma SameCost<T>(kept: seq<Match<T>>, c: set<nat>, pos: seq<nat>, tables: seq<Match<T>>, at: seq<nat>)
    requires |at| == |pos| && c == Elements(pos)
    requires forall j, k :: 0 <= j < k < |pos| ==> pos[j] != pos[k] && at[j] != at[k]
    requires forall k :: 0 <= k < |pos| ==> pos[k] < |kept| && at[k] < |tables| && tables[at[k]] == kept[pos[k]]
    ensures ByteAdjustment(tables, Elements(at)) == ByteAdjustment(kept, c)
  {
    SizeOfDistinct(pos);
    SizeOfDistinct(at);
    forall x | x in Covered(kept, c) ensures x in Covered(tables, Elements(at)) {
      var i :| i in c && i < |kept| && x in kept[i].addresses;
      var k :| 0 <= k < |pos| && pos[k] == i;
      assert at[k] in Elements(at);
    }
    forall x | x in Covered(tables, Elements(at)) ensures x in Covered(kept, c) {
      var i :| i in Elements(at) && i < |tables| && x in tables[i].addresses;
      var k :| 0 <= k < |at| && at[k] == i;
      assert pos[k] in c;
    }
    assert Covered(kept, c) == Covered(tables, Elements(at));
  }

  /** The ids of some of the given tables, which together cost no more than any selection of them. */
  ghost predicate LabelsCheapest<T>(tables: seq<Match<T>>, ids: seq<T>, c: set<nat>, pos: seq<nat>) {
    Selects(c, |tables|) && Labels(tables, c, pos, ids) && NoneCheaper(tables, ByteAdjustment(tables, c))
  }

  lemma BackToTables<T>(tables: seq<Match<T>>, ids: seq<T>, c: set<nat>, pos: seq<nat>)
    requires NamesABest(Prune(tables, 0), ids, c, pos)
    ensures exists d, at :: LabelsCheapest(tables, ids, d, at)
  {
    var kept := Prune(tables, 0);
    forall m | m in kept ensures m in tables { PruneIsFromTables(tables, m, 0); }
    var at := Locate(kept, pos, tables);
    forall j, k | 0 <= j < k < |pos| ensures at[j] != at[k] { KeptDiffer(SortBySize(tables), 0, kept, pos[j], pos[k]); }
    assert c == Elements(pos);
    SameCost(kept, c, pos, tables, at);
    BestKeptIsBest(tables, c);
    assert LabelsCheapest(tables, ids, Elements(at), at);
  }

  /**
   The ids that are returned are those of different tables of the list, and these cost no more than
   any selection from all the tables, although most of them are never scored.
   */
  method PerfectlyOptimizeLookupTables<T>(tables: seq<Match<T>>) returns (ids: seq<T>)
    ensures exists c, pos :: NamesABest(Prune(tables, 0), ids, c, pos)
    ensures exists c, pos :: LabelsCheapest(tables, ids, c, pos)
  {
    var deduped := ExcludeSubsetsAndUseless(tables, 0);
    if |deduped| == 1 {
      PruneIsFromTables(tables, deduped[0], 0);
      SingleTableIsBest(deduped);
      ids := [deduped[0].id];
    } else {
      ids := PerfectlyOptimize(deduped);
    }
    ghost var c, pos :| NamesABest(deduped, ids, c, pos);
    BackToTables(tables, ids, c, pos);
  }

  /** No kept table is a subset of another one. */
  lemma KeptAreIncomparable<T>(tables: seq<Match<T>>, i: nat, j: nat)
    requires i < |SortBySize(tables)| && j < |SortBySize(tables)| && i != j
    requires Keeps(SortBySize(tables), i, 0) && Keeps(SortBySize(tables), j, 0)
    ensures !(SortBySize(tables)[i].addresses <= SortBySize(tables)[j].addresses)
  {
    var sorted := SortBySize(tables);
    var a, b := sorted[i].addresses, sorted[j].addresses;
    SortBySizeSorts(tables);
    NothingNovel(a, b);
    NothingNovel(b, a);
    if a <= b && j < i {
      SubsetOfSameSize(a, b);
    }
  }
}
