/** The greedy grouping is the smallest one, from either end. */
module PackingOptimality {
  import opened Outcomes
  import opened Packing

  /** An order-preserving packing: the groups, cut into neighbouring parts that each fit. */
  ghost predicate IsPacking<I, K>(
    size: seq<I> -> Result<nat>, txs: seq<Builder<I, K>>, parts: seq<seq<Builder<I, K>>>)
  {
    Flatten(parts) == txs && forall k :: 0 <= k < |parts| ==> Fits(size, parts[k])
  }

  lemma {:induction false} LongestFitAtLeast<I, K>(size: seq<I> -> Result<nat>, txs: seq<Builder<I, K>>, j: nat, k: nat)
    requires j <= k <= |txs| && Fits(size, txs[..j])
    ensures j <= LongestFit(size, txs, k)
    decreases k
  {
    if j < k { LongestFitAtLeast(size, txs, j, k - 1); }
  }

  lemma PackingTail<I(!new), K>(
    size: seq<I> -> Result<nat>, txs: seq<Builder<I, K>>, parts: seq<seq<Builder<I, K>>>, j: nat)
    requires j < |txs| && IsPacking(size, txs[j..], parts)
    ensures parts != [] && j + |parts[0]| <= |txs|
    ensures var p := j + |parts[0]|;
            parts[0] == txs[j..p] && Fits(size, txs[j..p]) && IsPacking(size, txs[p..], parts[1..])
  {
    var p := j + |parts[0]|;
    assert txs[j..] == parts[0] + Flatten(parts[1..]);
    assert txs[j..][..|parts[0]|] == txs[j..p];
    assert txs[j..][|parts[0]|..] == txs[p..];
  }

  /** The greedy part that starts at i reaches at least as far as a fitting group around i. */
  lemma GreedyReaches<I(!new), K>(size: seq<I> -> Result<nat>, txs: seq<Builder<I, K>>, j: nat, i: nat, p: nat)
    returns (next: nat)
    requires Monotone(size) && j <= i < p <= |txs| && Fits(size, txs[j..p])
    ensures p <= next <= |txs|
    ensures |JoinParts(GreedyParts(size, txs[i..]))| <= 1 + |JoinParts(GreedyParts(size, txs[next..]))|
  {
    assert txs[j..p] == txs[j..i] + txs[i..p] + [];
    SubgroupFits(size, txs[j..i], txs[i..p], []);
    var here := txs[i..];
    assert here[..p - i] == txs[i..p];
    LongestFitAtLeast(size, here, p - i, |here|);
    LongestFitAtMost(size, here, |here|);
    var n := LongestFit(size, here, |here|);
    next := i + n;
    assert here[n..] == txs[next..];
    GreedyUnfolds(size, here, n);
  }

  // ----- the greedy grouping is a packing -----

  lemma {:induction false} LongestFitFits<I, K>(size: seq<I> -> Result<nat>, txs: seq<Builder<I, K>>, k: nat)
    requires k <= |txs| && 0 < LongestFit(size, txs, k)
    ensures LongestFit(size, txs, k) <= k && Fits(size, txs[..LongestFit(size, txs, k)])
    decreases k
  {
    if !Fits(size, txs[..k]) { LongestFitFits(size, txs, k - 1); }
  }

  /** If every group fits on its own, then every part of the greedy grouping fits and none is empty. */
  lemma {:induction false} GreedyIsPacking<I, K>(size: seq<I> -> Result<nat>, txs: seq<Builder<I, K>>)
    requires EachFits(size, txs)
    ensures IsPacking(size, txs, GreedyParts(size, txs))
    ensures forall k :: 0 <= k < |GreedyParts(size, txs)| ==> GreedyParts(size, txs)[k] != []
    decreases txs
  {
    if txs != [] {
      assert txs[..1] == [txs[0]];
      LongestFitAtLeast(size, txs, 1, |txs|);
      LongestFitFits(size, txs, |txs|);
      GreedyIsPacking(size, txs[LongestFit(size, txs, |txs|)..]);
    }
  }

  /** With monotone sizes a packing exists only if every group fits on its own. */
  lemma {:induction false} PackedGroupsFit<I(!new), K>(
    size: seq<I> -> Result<nat>, txs: seq<Builder<I, K>>, parts: seq<seq<Builder<I, K>>>)
    requires Monotone(size) && IsPacking(size, txs, parts)
    ensures EachFits(size, txs)
    decreases parts
  {
    if parts != [] {
      var first, rest := parts[0], Flatten(parts[1..]);
      PackedGroupsFit(size, rest, parts[1..]);
      forall k | 0 <= k < |txs| ensures Fits(size, [txs[k]]) {
        if k < |first| {
          assert first == first[..k] + [txs[k]] + first[k + 1..];
          SubgroupFits(size, first[..k], [txs[k]], first[k + 1..]);
        } else {
          assert txs[k] == rest[k - |first|];
        }
      }
    }
  }

  // ----- groups without instructions -----

  lemma {:induction false} JoinedHaveInstructions<I, K>(parts: seq<seq<Builder<I, K>>>)
    ensures Instructions(Flatten(parts)) == [] ==> JoinParts(parts) == []
    decreases parts
  {
    if parts != [] {
      InstructionsAppend(parts[0], Flatten(parts[1..]));
      JoinedHaveInstructions(parts[1..]);
    }
  }

  lemma {:induction false} LongestFitBehindEmpty<I, K>(
    size: seq<I> -> Result<nat>, empty: seq<Builder<I, K>>, rest: seq<Builder<I, K>>, k: nat)
    requires Instructions(empty) == [] && k <= |rest| && 0 < LongestFit(size, rest, k)
    ensures LongestFit(size, empty + rest, |empty| + k) == |empty| + LongestFit(size, rest, k)
    decreases k
  {
    CutBehind(empty, rest, k);
    InstructionsAppend(empty, rest[..k]);
    assert Instructions(empty + rest[..k]) == Instructions(rest[..k]);
    if !Fits(size, rest[..k]) { LongestFitBehindEmpty(size, empty, rest, k - 1); }
  }

  /** The transactions of the greedy grouping: the first part, if it has instructions, and those of the rest. */
  lemma GreedyUnfolds<I, K>(size: seq<I> -> Result<nat>, txs: seq<Builder<I, K>>, n: nat)
    requires txs != [] && 0 < n == LongestFit(size, txs, |txs|) <= |txs|
    ensures GreedyParts(size, txs) == [txs[..n]] + GreedyParts(size, txs[n..])
    ensures |JoinParts(GreedyParts(size, txs))|
            == (if Instructions(txs[..n]) == [] then 0 else 1) + |JoinParts(GreedyParts(size, txs[n..]))|
  {
    assert ([txs[..n]] + GreedyParts(size, txs[n..]))[1..] == GreedyParts(size, txs[n..]);
  }

  lemma SameFirstPart<I, K>(
    size: seq<I> -> Result<nat>, empty: seq<Builder<I, K>>, rest: seq<Builder<I, K>>, all: seq<Builder<I, K>>, n: nat)
    requires Instructions(empty) == [] && all == empty + rest
    requires 0 < n == LongestFit(size, rest, |rest|) <= |rest| && LongestFit(size, all, |all|) == |empty| + n
    ensures |JoinParts(GreedyParts(size, all))| == |JoinParts(GreedyParts(size, rest))|
  {
    GreedyUnfolds(size, rest, n);
    GreedyUnfolds(size, all, |empty| + n);
    CutBehind(empty, rest, n);
    InstructionsAppend(empty, rest[..n]);
  }

  /** Groups without instructions at the front add no transaction. */
  lemma EmptyGroupsAreFree<I, K>(
    size: seq<I> -> Result<nat>, empty: seq<Builder<I, K>>, rest: seq<Builder<I, K>>, all: seq<Builder<I, K>>)
    requires Instructions(empty) == [] && EachFits(size, rest) && all == empty + rest
    ensures |JoinParts(GreedyParts(size, all))| <= |JoinParts(GreedyParts(size, rest))|
  {
    if rest == [] {
      assert all == empty;
      JoinedHaveInstructions(GreedyParts(size, all));
    } else {
      assert Fits(size, [rest[0]]) && rest[..1] == [rest[0]];
      LongestFitAtLeast(size, rest, 1, |rest|);
      LongestFitAtMost(size, rest, |rest|);
      LongestFitBehindEmpty(size, empty, rest, |rest|);
      SameFirstPart(size, empty, rest, all, LongestFit(size, rest, |rest|));
    }
  }

  // ----- the greedy packing is the smallest -----

  /** From any group on, the greedy grouping needs no more transactions than a packing that starts at or before it. */
  lemma {:induction false} GreedyStaysAhead<I(!new), K>(
    size: seq<I> -> Result<nat>, txs: seq<Builder<I, K>>, parts: seq<seq<Builder<I, K>>>, j: nat, i: nat)
    requires Monotone(size) && j <= i <= |txs| && IsPacking(size, txs[j..], parts)
    ensures |JoinParts(GreedyParts(size, txs[i..]))| <= |JoinParts(parts)|
    decreases parts
  {
    if i < |txs| {
      PackingTail(size, txs, parts, j);
      var p := j + |parts[0]|;
      if p <= i {
        GreedyStaysAhead(size, txs, parts[1..], p, i);
      } else if Instructions(parts[0]) != [] {
        var next := GreedyReaches(size, txs, j, i, p);
        GreedyStaysAhead(size, txs, parts[1..], p, next);
      } else {
        assert txs[j..p] == txs[j..i] + txs[i..p] && txs[i..] == txs[i..p] + txs[p..];
        InstructionsAppend(txs[j..i], txs[i..p]);
        PackedGroupsFit(size, txs[p..], parts[1..]);
        EmptyGroupsAreFree(size, txs[i..p], txs[p..], txs[i..]);
        GreedyStaysAhead(size, txs, parts[1..], p, p);
      }
    }
  }

  /** A packing that no other one beats in the number of transactions that carry instructions. */
  ghost predicate IsSmallestPacking<I(!new), K(!new)>(
    size: seq<I> -> Result<nat>, txs: seq<Builder<I, K>>, parts: seq<seq<Builder<I, K>>>)
  {
    IsPacking(size, txs, parts) && NoPackingBelow(size, txs, |JoinParts(parts)|)
  }

  /**
   With monotone sizes there is a packing exactly if every group fits on its own, and then the
   greedy grouping is a packing and no order-preserving one has fewer transactions.
   */
  lemma GreedyIsOptimal<I(!new), K(!new)>(size: seq<I> -> Result<nat>, txs: seq<Builder<I, K>>)
    requires Monotone(size)
    ensures EachFits(size, txs) <==> exists parts :: IsPacking(size, txs, parts)
    ensures EachFits(size, txs) ==> IsSmallestPacking(size, txs, GreedyParts(size, txs))
  {
    forall parts | IsPacking(size, txs, parts)
      ensures EachFits(size, txs) && |JoinParts(GreedyParts(size, txs))| <= |JoinParts(parts)|
    {
      assert txs[0..] == txs;
      PackedGroupsFit(size, txs, parts);
      GreedyStaysAhead(size, txs, parts, 0, 0);
    }
    if EachFits(size, txs) { GreedyIsPacking(size, txs); }
  }

  // ----- when the result is the smallest -----

  predicate NeighboursFit<I, K>(size: seq<I> -> Result<nat>, txs: seq<Builder<I, K>>, k: nat)
    requires k + 1 < |txs|
  {
    Fits(size, txs[k..k + 2])
  }

  predicate NoNeighboursFit<I, K>(size: seq<I> -> Result<nat>, txs: seq<Builder<I, K>>) {
    forall k: nat :: k + 1 < |txs| ==> !NeighboursFit(size, txs, k)
  }

  /** Every packing has at least n transactions. */
  ghost predicate NoPackingBelow<I(!new), K(!new)>(size: seq<I> -> Result<nat>, txs: seq<Builder<I, K>>, n: nat) {
    forall parts :: IsPacking(size, txs, parts) ==> n <= |JoinParts(parts)|
  }

  function Singles<T>(s: seq<T>): (parts: seq<seq<T>>)
    ensures |parts| == |s| && Flatten(parts) == s
    ensures forall k :: 0 <= k < |parts| ==> parts[k] == [s[k]]
  {
    if s == [] then [] else
    assert s == [s[0]] + s[1..];
    [[s[0]]] + Singles(s[1..])
  }

  lemma FlattenThree<T>(before: seq<seq<T>>, pair: seq<T>, after: seq<seq<T>>)
    ensures Flatten(before + [pair] + after) == Flatten(before) + pair + Flatten(after)
  {
    FlattenAppend(before + [pair], after);
    FlattenAppend(before, [pair]);
    assert Flatten([pair]) == pair;
  }

  lemma ThreeAt<A>(a: seq<A>, x: A, b: seq<A>, j: nat)
    requires j < |a| + 1 + |b|
    ensures (a + [x] + b)[j] == if j < |a| then a[j] else if j == |a| then x else b[j - |a| - 1]
  {
  }

  /** The parts of a merge of the groups k and k + 1. */
  lemma MergedPart<T>(before: seq<T>, pair: seq<T>, after: seq<T>, j: nat)
    requires j < |before| + 1 + |after|
    ensures var parts := Singles(before) + [pair] + Singles(after);
            && |parts| == |before| + 1 + |after|
            && parts[j] == if j < |before| then [before[j]]
                           else if j == |before| then pair else [after[j - |before| - 1]]
  {
    var a, b := Singles(before), Singles(after);
    ThreeAt(a, pair, b, j);
  }

  /** Merging two neighbours that fit together saves a transaction. */
  lemma MergingNeighbours<I, K>(size: seq<I> -> Result<nat>, txs: seq<Builder<I, K>>, k: nat)
    returns (parts: seq<seq<Builder<I, K>>>)
    requires EachFits(size, txs) && k + 1 < |txs| && NeighboursFit(size, txs, k)
    ensures IsPacking(size, txs, parts) && |parts| == |txs| - 1
  {
    var before, pair, after := txs[..k], txs[k..k + 2], txs[k + 2..];
    parts := Singles(before) + [pair] + Singles(after);
    FlattenThree(Singles(before), pair, Singles(after));
    SplitInThree(txs, k);
    forall j | 0 <= j < |parts| ensures Fits(size, parts[j]) {
      MergedPart(before, pair, after, j);
      if j < k {
        assert Fits(size, [txs[j]]);
      } else if k < j {
        assert Fits(size, [txs[j + 1]]);
      }
    }
  }

  lemma SplitInThree<T>(s: seq<T>, k: nat)
    requires k + 1 < |s|
    ensures s == s[..k] + s[k..k + 2] + s[k + 2..]
  {
  }

  /** Two groups that share a part of a packing are neighbours that fit. */
  lemma PartnersFit<I(!new), K>(
    size: seq<I> -> Result<nat>, before: seq<Builder<I, K>>, part: seq<Builder<I, K>>, after: seq<Builder<I, K>>,
    all: seq<Builder<I, K>>)
    requires Monotone(size) && Fits(size, part) && 2 <= |part| && all == before + (part + after)
    ensures NeighboursFit(size, all, |before|)
  {
    assert part == [] + part[..2] + part[2..];
    SubgroupFits(size, [], part[..2], part[2..]);
    assert all[|before|..|before| + 2] == part[..2];
  }

  /** If no neighbours fit together, every packing has a transaction for each group. */
  lemma {:induction false} NothingToMerge<I(!new), K>(
    size: seq<I> -> Result<nat>, txs: seq<Builder<I, K>>, parts: seq<seq<Builder<I, K>>>, before: seq<Builder<I, K>>)
    requires Monotone(size) && IsPacking(size, txs, parts)
    requires forall k :: 0 <= k < |txs| ==> txs[k].instructions != []
    requires NoNeighboursFit(size, before + txs)
    ensures |txs| <= |JoinParts(parts)|
    decreases parts
  {
    if parts != [] {
      var first, rest := parts[0], Flatten(parts[1..]);
      if 2 <= |first| { PartnersFit(size, before, first, rest, before + txs); }
      assert before + txs == (before + first) + rest;
      assert forall k :: 0 <= k < |rest| ==> rest[k] == txs[|first| + k];
      NothingToMerge(size, rest, parts[1..], before + first);
      if |first| == 1 {
        assert first[0] == txs[0] && first[1..] == [];
        assert Instructions(first) == first[0].instructions + [];
      }
    }
  }

  /** A group without instructions fits together with its neighbour. */
  lemma EmptyGroupJoins<I, K>(size: seq<I> -> Result<nat>, txs: seq<Builder<I, K>>, k: nat)
    requires EachFits(size, txs) && 2 <= |txs| && k < |txs| && txs[k].instructions == []
    ensures NeighboursFit(size, txs, if k + 1 < |txs| then k else k - 1)
  {
    var j, other := if k + 1 < |txs| then k else k - 1, if k + 1 < |txs| then k + 1 else k - 1;
    TwoElements(txs, j);
    assert [txs[j], txs[j + 1]] == [txs[j]] + [txs[j + 1]];
    InstructionsAppend([txs[j]], [txs[j + 1]]);
    assert Instructions([txs[k]]) == txs[k].instructions + [];
    assert Fits(size, [txs[other]]);
    assert Instructions([txs[j]] + [txs[j + 1]]) == Instructions([txs[other]]);
  }

  /**
   The promise of the smallest number of transactions is kept if and only if the greedy packing has
   fewer than twenty parts or no two neighbouring groups fit together.
   */
  lemma CondensedIsSmallest<I(!new), K(!new)>(size: seq<I> -> Result<nat>, txs: seq<Builder<I, K>>)
    requires Monotone(size) && EachFits(size, txs)
    ensures NoPackingBelow(size, txs, |Condensed(size, txs)|)
            <==> |GreedyParts(size, txs)| < MAX_ATTEMPTS || NoNeighboursFit(size, txs)
  {
    GreedyIsOptimal(size, txs);
    if MAX_ATTEMPTS <= |GreedyParts(size, txs)| {
      GreedyPartsAtMost(size, txs);
      if k: nat :| k + 1 < |txs| && NeighboursFit(size, txs, k) {
        var parts := MergingNeighbours(size, txs, k);
        GroupingKeepsInstructions(parts);
      } else {
        forall parts | IsPacking(size, txs, parts) ensures |txs| <= |JoinParts(parts)| {
          forall k | 0 <= k < |txs| ensures txs[k].instructions != [] {
            if txs[k].instructions == [] { EmptyGroupJoins(size, txs, k); }
          }
          assert [] + txs == txs;
          NothingToMerge(size, txs, parts, []);
        }
      }
    }
  }

  lemma {:induction false} GreedyPartsAtMost<I, K>(size: seq<I> -> Result<nat>, txs: seq<Builder<I, K>>)
    ensures |GreedyParts(size, txs)| <= |txs|
    decreases txs
  {
    if txs != [] {
      LongestFitAtMost(size, txs, |txs|);
      GreedyPartsAtMost(size, txs[(if LongestFit(size, txs, |txs|) < 1 then 1 else LongestFit(size, txs, |txs|))..]);
    }
  }

  // ----- an input on which it is not -----

  /** Instructions of 600 bytes each: two of them fit. */
  function Size600(x: seq<nat>): Result<nat> {
    Ok(600 * |x|)
  }

  const FORTY: seq<Builder<nat, nat>> := seq(40, i requires 0 <= i => Builder([i], []))

  lemma {:induction false} LengthOfInstructions(txs: seq<Builder<nat, nat>>)
    requires forall k :: 0 <= k < |txs| ==> |txs[k].instructions| == 1
    ensures |Instructions(txs)| == |txs|
    decreases txs
  {
    if txs != [] { LengthOfInstructions(txs[1..]); }
  }

  lemma {:induction false} AtMostTwoEach<T>(parts: seq<seq<T>>)
    requires forall k :: 0 <= k < |parts| ==> |parts[k]| <= 2
    ensures |Flatten(parts)| <= 2 * |parts|
    decreases parts
  {
    if parts != [] { AtMostTwoEach(parts[1..]); }
  }

  lemma {:induction false} PartsOfFlatten<T>(parts: seq<seq<T>>, k: nat, j: nat)
    requires k < |parts| && j < |parts[k]|
    ensures parts[k][j] in Flatten(parts)
    decreases parts
  {
    if k > 0 { PartsOfFlatten(parts[1..], k - 1, j); }
  }

  /** Forty groups, any two of which fit together: the greedy packing gives up and all forty are returned. */
  lemma CondenseCanMissTheSmallest()
    ensures Monotone(Size600) && EachFits(Size600, FORTY)
    ensures Condensed(Size600, FORTY) == FORTY
    ensures exists parts :: IsPacking(Size600, FORTY, parts) && |JoinParts(parts)| < |FORTY|
  {
    forall k | 0 <= k < |FORTY| ensures Fits(Size600, [FORTY[k]]) { LengthOfInstructions([FORTY[k]]); }
    GreedyIsPacking(Size600, FORTY);
    var greedy: seq<seq<Builder<nat, nat>>> := GreedyParts(Size600, FORTY);
    forall k | 0 <= k < |greedy| ensures |greedy[k]| <= 2 {
      forall j | 0 <= j < |greedy[k]| ensures |greedy[k][j].instructions| == 1 { PartsOfFlatten(greedy, k, j); }
      LengthOfInstructions(greedy[k]);
      assert Fits(Size600, greedy[k]);
    }
    AtMostTwoEach(greedy);
    LengthOfInstructions(FORTY[0..2]);
    assert NeighboursFit(Size600, FORTY, 0);
    var parts := MergingNeighbours(Size600, FORTY, 0);
    GroupingKeepsInstructions(parts);
  }

  // ----- packing from the right -----

  function Reverse<T>(s: seq<T>): (r: seq<T>)
    ensures |r| == |s|
  {
    if s == [] then [] else Reverse(s[1..]) + [s[0]]
  }

  function DeepReverse<I, K>(txs: seq<Builder<I, K>>): (r: seq<Builder<I, K>>)
    ensures |r| == |txs|
  {
    if txs == [] then [] else DeepReverse(txs[1..]) + [txs[0].(instructions := Reverse(txs[0].instructions))]
  }

  lemma {:induction false} ReverseAppend<T>(a: seq<T>, b: seq<T>)
    ensures Reverse(a + b) == Reverse(b) + Reverse(a)
    decreases a
  {
    if a == [] {
      assert a + b == b;
    } else {
      ReverseAppend(a[1..], b);
      assert (a + b)[1..] == a[1..] + b;
      Associative(Reverse(b), Reverse(a[1..]), [a[0]]);
    }
  }

  lemma {:induction false} ReverseTwice<T>(s: seq<T>)
    ensures Reverse(Reverse(s)) == s
  {
    if s != [] {
      ReverseAppend(Reverse(s[1..]), [s[0]]);
      ReverseTwice(s[1..]);
    }
  }

  lemma {:induction false} DeepReverseAppend<I, K>(a: seq<Builder<I, K>>, b: seq<Builder<I, K>>)
    ensures DeepReverse(a + b) == DeepReverse(b) + DeepReverse(a)
    decreases a
  {
    if a == [] {
      assert a + b == b;
    } else {
      DeepReverseAppend(a[1..], b);
      assert (a + b)[1..] == a[1..] + b;
      Associative(DeepReverse(b), DeepReverse(a[1..]), [a[0].(instructions := Reverse(a[0].instructions))]);
    }
  }

  /** Reversing the groups and each group's instructions reverses the whole list of instructions. */
  lemma {:induction false} DeepReverseInstructions<I, K>(txs: seq<Builder<I, K>>)
    ensures Instructions(DeepReverse(txs)) == Reverse(Instructions(txs))
    decreases txs
  {
    if txs != [] {
      var first := txs[0].(instructions := Reverse(txs[0].instructions));
      DeepReverseInstructions(txs[1..]);
      InstructionsAppend(DeepReverse(txs[1..]), [first]);
      assert Instructions([first]) == first.instructions;
      ReverseAppend(txs[0].instructions, Instructions(txs[1..]));
    }
  }

  lemma {:induction false} DeepReverseTwice<I, K>(txs: seq<Builder<I, K>>)
    ensures DeepReverse(DeepReverse(txs)) == txs
    decreases txs
  {
    if txs != [] {
      DeepReverseAppend(DeepReverse(txs[1..]), [txs[0].(instructions := Reverse(txs[0].instructions))]);
      DeepReverseTwice(txs[1..]);
      ReverseTwice(txs[0].instructions);
    }
  }

  lemma {:induction false} DeepReverseAt<I, K>(txs: seq<Builder<I, K>>, k: nat)
    requires k < |txs|
    ensures DeepReverse(txs)[k] == txs[|txs| - 1 - k].(instructions := Reverse(txs[|txs| - 1 - k].instructions))
    decreases txs
  {
    if k < |txs| - 1 { DeepReverseAt(txs[1..], k); }
  }

  lemma {:induction false} SignersAppend<I, K>(a: seq<Builder<I, K>>, b: seq<Builder<I, K>>)
    ensures Signers(a + b) == Signers(a) + Signers(b)
    decreases a
  {
    if a == [] {
      assert a + b == b;
    } else {
      SignersAppend(a[1..], b);
      assert (a + b)[1..] == a[1..] + b;
      Associative(a[0].signers, Signers(a[1..]), Signers(b));
    }
  }

  lemma {:induction false} DeepReverseSigners<I, K>(txs: seq<Builder<I, K>>)
    ensures multiset(Signers(DeepReverse(txs))) == multiset(Signers(txs))
    decreases txs
  {
    if txs != [] {
      var first := txs[0].(instructions := Reverse(txs[0].instructions));
      DeepReverseSigners(txs[1..]);
      SignersAppend(DeepReverse(txs[1..]), [first]);
      assert Signers([first]) == first.signers + [];
    }
  }

  /** A packing read from the end is a packing of the reversed groups. */
  function ReversedParts<I, K>(parts: seq<seq<Builder<I, K>>>): (r: seq<seq<Builder<I, K>>>)
    ensures |r| == |parts|
  {
    if parts == [] then [] else ReversedParts(parts[1..]) + [DeepReverse(parts[0])]
  }

  lemma {:induction false} ReversedPartsAt<I, K>(parts: seq<seq<Builder<I, K>>>, k: nat)
    requires k < |parts|
    ensures ReversedParts(parts)[k] == DeepReverse(parts[|parts| - 1 - k])
    decreases parts
  {
    if k < |parts| - 1 { ReversedPartsAt(parts[1..], k); }
  }

  lemma {:induction false} FlattenReversed<I, K>(parts: seq<seq<Builder<I, K>>>)
    ensures Flatten(ReversedParts(parts)) == DeepReverse(Flatten(parts))
    decreases parts
  {
    if parts != [] {
      FlattenReversed(parts[1..]);
      DeepReverseAppend(parts[0], Flatten(parts[1..]));
      FlattenAppend(ReversedParts(parts[1..]), [DeepReverse(parts[0])]);
      assert Flatten([DeepReverse(parts[0])]) == DeepReverse(parts[0]);
    }
  }

  /** The same transactions in the same order; only the signers within one may be listed in another order. */
  ghost predicate SameTransactions<I, K>(a: seq<Builder<I, K>>, b: seq<Builder<I, K>>) {
    && |a| == |b|
    && forall k :: 0 <= k < |a|
         ==> a[k].instructions == b[k].instructions && multiset(a[k].signers) == multiset(b[k].signers)
  }

  /** Joining reversed parts and reversing the result joins the parts read from the end. */
  lemma {:induction false} JoinReversed<I, K>(parts: seq<seq<Builder<I, K>>>)
    ensures SameTransactions(DeepReverse(JoinParts(parts)), JoinParts(ReversedParts(parts)))
    decreases parts
  {
    if parts != [] {
      var first := parts[0];
      JoinReversed(parts[1..]);
      JoinPartsAppend(ReversedParts(parts[1..]), DeepReverse(first));
      DeepReverseInstructions(first);
      DeepReverseSigners(first);
      if Instructions(first) != [] {
        ReverseTwice(Instructions(first));
        assert JoinParts(parts)[1..] == JoinParts(parts[1..]);
      }
    }
  }

  /** Each transaction carries its part's instructions in their order, and its signers in some order. */
  ghost predicate CarriesInAnyOrder<I, K>(sent: seq<Builder<I, K>>, parts: seq<seq<Builder<I, K>>>) {
    && |sent| == |parts|
    && forall k :: 0 <= k < |sent|
         ==> && sent[k].instructions == Flatten(InstructionLists(parts[k]))
             && multiset(sent[k].signers) == multiset(Flatten(SignerLists(parts[k])))
  }

  lemma {:induction false} SignersCarriedInAnyOrder<I, K>(sent: seq<Builder<I, K>>, parts: seq<seq<Builder<I, K>>>)
    requires CarriesInAnyOrder(sent, parts)
    ensures multiset(Flatten(SignerLists(sent))) == multiset(Flatten(SignerLists(Flatten(parts))))
    decreases parts
  {
    if parts != [] {
      var first, rest := parts[0], Flatten(parts[1..]);
      SignersCarriedInAnyOrder(sent[1..], parts[1..]);
      SignersOfFirst(sent);
      SignersOfBoth(first, rest);
    }
  }

  /** What was merged fits, in the order in which the reversed list is encoded. */
  ghost predicate MergedPartsFitReversed<I, K>(size: seq<I> -> Result<nat>, parts: seq<seq<Builder<I, K>>>) {
    forall k :: 0 <= k < |parts| && 2 <= |parts[k]| ==> Fits(size, DeepReverse(parts[k]))
  }

  lemma MergedFromTheRight<I, K>(size: seq<I> -> Result<nat>, parts: seq<seq<Builder<I, K>>>)
    requires MergedPartsFit(size, parts)
    ensures MergedPartsFitReversed(size, ReversedParts(parts))
  {
    forall k | 0 <= k < |parts| && 2 <= |ReversedParts(parts)[k]|
      ensures Fits(size, DeepReverse(ReversedParts(parts)[k]))
    {
      ReversedPartsAt(parts, k);
      DeepReverseTwice(parts[|parts| - 1 - k]);
    }
  }

  /** What was joined from the reversed list carries, reversed back, what the parts read from the end have. */
  lemma RightCarries<I, K>(txs: seq<Builder<I, K>>, left: seq<Builder<I, K>>, parts: seq<seq<Builder<I, K>>>)
    requires Flatten(parts) == DeepReverse(txs) && left == JoinParts(parts)
    ensures var right, sent := DeepReverse(left), PartsSent(ReversedParts(parts));
            && Flatten(ReversedParts(parts)) == txs && CarriesInAnyOrder(right, sent)
            && multiset(Flatten(SignerLists(right))) == multiset(Flatten(SignerLists(Flatten(sent))))
  {
    DeepReverseTwice(txs);
    FlattenReversed(parts);
    JoinReversed(parts);
    JoinedCarry(ReversedParts(parts));
    SignersCarriedInAnyOrder(DeepReverse(left), PartsSent(ReversedParts(parts)));
  }

  /**
   Merges groups from the right: the same packing on the reversed list, reversed back. Whatever the
   sizes and guesses, the instructions and their order are unchanged, every group ends up whole in
   one transaction (`parts` says which ones went together) that carries exactly its groups'
   instructions and signers, and what was merged fits. With monotone
   sizes the groups are the greedy ones from the end.
   */
  method CondenseRight<I(!new), K>(
    txs: seq<Builder<I, K>>, size: seq<I> -> Result<nat>, guess: (nat, nat) -> nat)
    returns (r: Result<seq<Builder<I, K>>>, ghost parts: seq<seq<Builder<I, K>>>)
    ensures r.Ok? ==> Instructions(r.value) == Instructions(txs)
    ensures r.Ok? ==> r.value == txs || (Flatten(parts) == txs && CarriesInAnyOrder(r.value, PartsSent(parts)))
    ensures r.Ok? && r.value != txs
            ==> multiset(Flatten(SignerLists(r.value))) == multiset(Flatten(SignerLists(Flatten(PartsSent(parts)))))
    ensures MergedPartsFitReversed(size, parts)
    ensures Monotone(size) && EachFits(size, DeepReverse(txs))
            ==> r == Ok(DeepReverse(Condensed(size, DeepReverse(txs))))
  {
    var left, leftParts := CondenseLeft(DeepReverse(txs), size, guess);
    parts := ReversedParts(leftParts);
    MergedFromTheRight(size, leftParts);
    DeepReverseTwice(txs);
    DeepReverseInstructions(txs);
    ReverseTwice(Instructions(txs));
    if left.Err? {
      return left, parts;
    }
    DeepReverseInstructions(left.value);
    if left.value != DeepReverse(txs) { RightCarries(txs, left.value, leftParts); }
    return Ok(DeepReverse(left.value)), parts;
  }

  // ----- packing from the right is optimal too -----

  /** The size does not depend on the order of the instructions being reversed. */
  ghost predicate ReversalInvariant<I(!new)>(size: seq<I> -> Result<nat>) {
    forall x: seq<I> :: size(Reverse(x)) == size(x)
  }

  lemma ReversedFits<I(!new), K>(size: seq<I> -> Result<nat>, txs: seq<Builder<I, K>>)
    requires ReversalInvariant(size)
    ensures Fits(size, DeepReverse(txs)) <==> Fits(size, txs)
  {
    DeepReverseInstructions(txs);
  }

  lemma ReversedEachFits<I(!new), K>(size: seq<I> -> Result<nat>, txs: seq<Builder<I, K>>)
    requires ReversalInvariant(size) && EachFits(size, txs)
    ensures EachFits(size, DeepReverse(txs))
  {
    forall k | 0 <= k < |txs| ensures Fits(size, [DeepReverse(txs)[k]]) {
      var group := txs[|txs| - 1 - k];
      DeepReverseAt(txs, k);
      assert DeepReverse([group]) == [DeepReverse(txs)[k]];
      ReversedFits(size, [group]);
    }
  }

  lemma ReversedPacking<I(!new), K>(
    size: seq<I> -> Result<nat>, txs: seq<Builder<I, K>>, parts: seq<seq<Builder<I, K>>>)
    requires ReversalInvariant(size) && IsPacking(size, txs, parts)
    ensures IsPacking(size, DeepReverse(txs), ReversedParts(parts))
    ensures |JoinParts(ReversedParts(parts))| == |JoinParts(parts)|
  {
    FlattenReversed(parts);
    JoinReversed(parts);
    forall k | 0 <= k < |parts| ensures Fits(size, ReversedParts(parts)[k]) {
      ReversedPartsAt(parts, k);
      ReversedFits(size, parts[|parts| - 1 - k]);
    }
  }

  /** The greedy packing from the end, as parts of the list in its own order. */
  function GreedyFromTheRight<I, K>(size: seq<I> -> Result<nat>, txs: seq<Builder<I, K>>): seq<seq<Builder<I, K>>> {
    ReversedParts(GreedyParts(size, DeepReverse(txs)))
  }

  /** So packing from the right gives a packing too, it is the one that is returned, and none is smaller. */
  lemma RightIsOptimal<I(!new), K(!new)>(size: seq<I> -> Result<nat>, txs: seq<Builder<I, K>>)
    requires Monotone(size) && ReversalInvariant(size) && EachFits(size, txs)
    ensures EachFits(size, DeepReverse(txs))
    ensures IsSmallestPacking(size, txs, GreedyFromTheRight(size, txs))
    ensures SameTransactions(DeepReverse(JoinParts(GreedyParts(size, DeepReverse(txs)))),
                             JoinParts(GreedyFromTheRight(size, txs)))
  {
    var back, greedy := DeepReverse(txs), GreedyParts(size, DeepReverse(txs));
    ReversedEachFits(size, txs);
    GreedyIsOptimal(size, back);
    DeepReverseTwice(txs);
    ReversedPacking(size, back, greedy);
    JoinReversed(greedy);
    forall other | IsPacking(size, txs, other) ensures |JoinParts(greedy)| <= |JoinParts(other)| {
      ReversedPacking(size, txs, other);
    }
  }

  lemma TwoElements<T>(s: seq<T>, j: nat)
    requires j + 1 < |s|
    ensures s[j..j + 2] == [s[j], s[j + 1]]
  {
  }

  lemma DeepReversePair<I, K>(a: Builder<I, K>, b: Builder<I, K>)
    ensures DeepReverse([a, b])
            == [b.(instructions := Reverse(b.instructions)), a.(instructions := Reverse(a.instructions))]
  {
    assert [a, b][1..] == [b];
  }

  lemma NoNeighboursReversed<I(!new), K>(size: seq<I> -> Result<nat>, txs: seq<Builder<I, K>>)
    requires ReversalInvariant(size) && NoNeighboursFit(size, DeepReverse(txs))
    ensures NoNeighboursFit(size, txs)
  {
    var back := DeepReverse(txs);
    forall k: nat | k + 1 < |txs| ensures !NeighboursFit(size, txs, k) {
      var j := |txs| - 2 - k;
      DeepReverseAt(txs, j);
      DeepReverseAt(txs, j + 1);
      TwoElements(txs, k);
      TwoElements(back, j);
      DeepReversePair(txs[k], txs[k + 1]);
      ReversedFits(size, [txs[k], txs[k + 1]]);
      assert !NeighboursFit(size, back, j);
    }
  }

  lemma FewestReversed<I(!new), K(!new)>(size: seq<I> -> Result<nat>, txs: seq<Builder<I, K>>, n: nat)
    requires ReversalInvariant(size) && NoPackingBelow(size, DeepReverse(txs), n)
    ensures NoPackingBelow(size, txs, n)
  {
    forall parts | IsPacking(size, txs, parts) ensures n <= |JoinParts(parts)| {
      ReversedPacking(size, txs, parts);
    }
  }

  /** From the right, too, the promise of the smallest number is kept under exactly that condition. */
  lemma CondensedRightIsSmallest<I(!new), K(!new)>(size: seq<I> -> Result<nat>, txs: seq<Builder<I, K>>)
    requires Monotone(size) && ReversalInvariant(size) && EachFits(size, txs)
    ensures NoPackingBelow(size, txs, |DeepReverse(Condensed(size, DeepReverse(txs)))|)
            <==> |GreedyFromTheRight(size, txs)| < MAX_ATTEMPTS || NoNeighboursFit(size, txs)
  {
    var back := DeepReverse(txs);
    ReversedEachFits(size, txs);
    CondensedIsSmallest(size, back);
    DeepReverseTwice(txs);
    var n := |Condensed(size, back)|;
    if NoPackingBelow(size, back, n) { FewestReversed(size, txs, n); }
    if NoPackingBelow(size, txs, n) { FewestReversed(size, back, n); }
    if NoNeighboursFit(size, back) { NoNeighboursReversed(size, txs); }
    if NoNeighboursFit(size, txs) { NoNeighboursReversed(size, back); }
  }

  /** The last k groups. */
  function Final<T>(s: seq<T>, k: nat): seq<T>
    requires k <= |s|
  {
    s[|s| - k..]
  }

  lemma TailOfReversed<I(!new), K>(size: seq<I> -> Result<nat>, txs: seq<Builder<I, K>>, k: nat)
    requires ReversalInvariant(size) && k <= |txs|
    ensures DeepReverse(txs)[..k] == DeepReverse(Final(txs, k))
    ensures Fits(size, DeepReverse(txs)[..k]) <==> Fits(size, Final(txs, k))
  {
    var cut := |txs| - k;
    assert txs == txs[..cut] + txs[cut..];
    DeepReverseAppend(txs[..cut], txs[cut..]);
    CutBehind(DeepReverse(txs[cut..]), DeepReverse(txs[..cut]), 0);
    assert DeepReverse(txs[cut..]) + DeepReverse(txs[..cut])[..0] == DeepReverse(txs[cut..]);
    ReversedFits(size, txs[cut..]);
  }

  /** And its last transaction is the longest run of final groups that fits. */
  lemma LastTransactionIsMaximal<I(!new), K>(size: seq<I> -> Result<nat>, txs: seq<Builder<I, K>>)
    requires Monotone(size) && ReversalInvariant(size) && txs != [] && EachFits(size, txs)
    ensures GreedyParts(size, DeepReverse(txs)) != []
    ensures var last := GreedyParts(size, DeepReverse(txs))[0];
            && 1 <= |last| <= |txs| && last == DeepReverse(Final(txs, |last|))
            && Fits(size, Final(txs, |last|))
            && forall k :: |last| < k <= |txs| ==> !Fits(size, Final(txs, k))
  {
    var back := DeepReverse(txs);
    var n := LongestFit(size, back, |back|);
    ReversedEachFits(size, txs);
    assert back[..1] == [back[0]];
    LongestFitAtLeast(size, back, 1, |back|);
    LongestFitFits(size, back, |back|);
    TailOfReversed(size, txs, n);
    GreedyUnfolds(size, back, n);
    forall k | n < k <= |txs| ensures !Fits(size, Final(txs, k)) {
      TailOfReversed(size, txs, k);
      if Fits(size, back[..k]) { LongestFitAtLeast(size, back, k, |back|); }
    }
  }
}
