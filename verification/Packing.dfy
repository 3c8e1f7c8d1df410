/**
 Packing groups of instructions into as few transactions as possible.

 The encoded size of a list of instructions is a parameter: it stands for the encoding with the
 payer and the lookup tables of the call, and it may fail. The guess of the search is a parameter
 too, so that nothing depends on how the ratio is rounded.
 */
module Packing {
  import opened Outcomes
  import opened Rounding

  const MAX_TX_SIZE: nat := 1_232
  const MAX_ATTEMPTS: nat := 20

  datatype Builder<I, K> = Builder(instructions: seq<I>, signers: seq<K>)

  // ----- joining and grouping -----

  function Instructions<I, K>(txs: seq<Builder<I, K>>): seq<I> {
    if txs == [] then [] else txs[0].instructions + Instructions(txs[1..])
  }

  function Signers<I, K>(txs: seq<Builder<I, K>>): seq<K> {
    if txs == [] then [] else txs[0].signers + Signers(txs[1..])
  }

  function Join<I, K>(txs: seq<Builder<I, K>>): Builder<I, K> {
    Builder(Instructions(txs), Signers(txs))
  }

  function Flatten<T>(parts: seq<seq<T>>): seq<T> {
    if parts == [] then [] else parts[0] + Flatten(parts[1..])
  }

  /** Each part joined into one transaction; a part without instructions is dropped. */
  function JoinParts<I, K>(parts: seq<seq<Builder<I, K>>>): seq<Builder<I, K>> {
    if parts == [] then [] else
    var rest := JoinParts(parts[1..]);
    if Instructions(parts[0]) == [] then rest else [Join(parts[0])] + rest
  }

  lemma Associative<T>(a: seq<T>, b: seq<T>, c: seq<T>)
    ensures (a + b) + c == a + (b + c)
  {
  }

  lemma CutBehind<T>(a: seq<T>, b: seq<T>, n: nat)
    requires n <= |b|
    ensures (a + b)[..|a| + n] == a + b[..n] && (a + b)[|a| + n..] == b[n..]
  {
  }

  lemma {:induction false} InstructionsAppend<I, K>(a: seq<Builder<I, K>>, b: seq<Builder<I, K>>)
    ensures Instructions(a + b) == Instructions(a) + Instructions(b)
    decreases a
  {
    if a == [] {
      assert a + b == b;
    } else {
      InstructionsAppend(a[1..], b);
      assert (a + b)[1..] == a[1..] + b;
      Associative(a[0].instructions, Instructions(a[1..]), Instructions(b));
    }
  }

  lemma {:induction false} FlattenAppend<T>(a: seq<seq<T>>, b: seq<seq<T>>)
    ensures Flatten(a + b) == Flatten(a) + Flatten(b)
    decreases a
  {
    if a == [] {
      assert a + b == b;
    } else {
      FlattenAppend(a[1..], b);
      assert (a + b)[1..] == a[1..] + b;
      Associative(a[0], Flatten(a[1..]), Flatten(b));
    }
  }

  lemma {:induction false} JoinPartsAppend<I, K>(parts: seq<seq<Builder<I, K>>>, last: seq<Builder<I, K>>)
    ensures JoinParts(parts + [last])
            == if Instructions(last) == [] then JoinParts(parts) else JoinParts(parts) + [Join(last)]
    decreases parts
  {
    if parts == [] {
      assert parts + [last] == [last];
      assert [last][1..] == [];
    } else {
      JoinPartsAppend(parts[1..], last);
      assert (parts + [last])[1..] == parts[1..] + [last];
    }
  }

  /** Joining the parts of a grouping keeps every instruction, in order. */
  lemma {:induction false} GroupingKeepsInstructions<I, K>(parts: seq<seq<Builder<I, K>>>)
    ensures Instructions(JoinParts(parts)) == Instructions(Flatten(parts))
    ensures |JoinParts(parts)| <= |parts|
    decreases parts
  {
    if parts != [] {
      GroupingKeepsInstructions(parts[1..]);
      InstructionsAppend(parts[0], Flatten(parts[1..]));
      var joined := JoinParts(parts);
      if Instructions(parts[0]) != [] { assert joined[1..] == JoinParts(parts[1..]); }
    }
  }

  // ----- what a transaction carries -----

  /** The instruction lists and the signer lists of the groups, one for each group. */
  function InstructionLists<I, K>(txs: seq<Builder<I, K>>): seq<seq<I>> {
    seq(|txs|, k requires 0 <= k < |txs| => txs[k].instructions)
  }

  function SignerLists<I, K>(txs: seq<Builder<I, K>>): seq<seq<K>> {
    seq(|txs|, k requires 0 <= k < |txs| => txs[k].signers)
  }

  /** The parts that have an instruction; the others make no transaction. */
  function PartsSent<I, K>(parts: seq<seq<Builder<I, K>>>): seq<seq<Builder<I, K>>> {
    if parts == [] then []
    else (if Flatten(InstructionLists(parts[0])) == [] then [] else [parts[0]]) + PartsSent(parts[1..])
  }

  /** Each transaction carries the instructions and the signers of the groups of its part, in their order. */
  ghost predicate Carries<I, K>(sent: seq<Builder<I, K>>, parts: seq<seq<Builder<I, K>>>) {
    && |sent| == |parts|
    && forall k :: 0 <= k < |sent|
         ==> && sent[k].instructions == Flatten(InstructionLists(parts[k]))
             && sent[k].signers == Flatten(SignerLists(parts[k]))
  }

  lemma {:induction false} InstructionsAre<I, K>(txs: seq<Builder<I, K>>)
    ensures Instructions(txs) == Flatten(InstructionLists(txs))
    decreases txs
  {
    if txs != [] {
      InstructionsAre(txs[1..]);
      assert InstructionLists(txs)[1..] == InstructionLists(txs[1..]);
    }
  }

  lemma {:induction false} SignersAre<I, K>(txs: seq<Builder<I, K>>)
    ensures Signers(txs) == Flatten(SignerLists(txs))
    decreases txs
  {
    if txs != [] {
      SignersAre(txs[1..]);
      assert SignerLists(txs)[1..] == SignerLists(txs[1..]);
    }
  }

  /** Joining the parts gives one transaction for each part that has an instruction, carrying just what it has. */
  lemma {:induction false} JoinedCarry<I, K>(parts: seq<seq<Builder<I, K>>>)
    ensures Carries(JoinParts(parts), PartsSent(parts))
    decreases parts
  {
    if parts != [] {
      var joined, sent := JoinParts(parts[1..]), PartsSent(parts[1..]);
      JoinedCarry(parts[1..]);
      InstructionsAre(parts[0]);
      SignersAre(parts[0]);
      CarryOneMore(Join(parts[0]), parts[0], joined, sent);
    }
  }

  lemma CarryOneMore<I, K>(
    tx: Builder<I, K>, part: seq<Builder<I, K>>, sent: seq<Builder<I, K>>, parts: seq<seq<Builder<I, K>>>)
    requires Carries(sent, parts)
    requires tx.instructions == Flatten(InstructionLists(part)) && tx.signers == Flatten(SignerLists(part))
    ensures Carries([tx] + sent, [part] + parts)
  {
    forall k | 0 <= k < |sent| + 1
      ensures ([tx] + sent)[k].instructions == Flatten(InstructionLists(([part] + parts)[k]))
      ensures ([tx] + sent)[k].signers == Flatten(SignerLists(([part] + parts)[k]))
    {
      if 0 < k { assert ([tx] + sent)[k] == sent[k - 1] && ([part] + parts)[k] == parts[k - 1]; }
    }
  }

  lemma SignersOfFirst<I, K>(txs: seq<Builder<I, K>>)
    requires txs != []
    ensures Flatten(SignerLists(txs)) == txs[0].signers + Flatten(SignerLists(txs[1..]))
  {
    assert SignerLists(txs)[1..] == SignerLists(txs[1..]);
  }

  lemma SignersOfBoth<I, K>(a: seq<Builder<I, K>>, b: seq<Builder<I, K>>)
    ensures Flatten(SignerLists(a + b)) == Flatten(SignerLists(a)) + Flatten(SignerLists(b))
  {
    assert SignerLists(a + b) == SignerLists(a) + SignerLists(b);
    FlattenAppend(SignerLists(a), SignerLists(b));
  }

  /** All the signers of the result are those of the groups that are sent. */
  lemma {:induction false} SignersCarried<I, K>(sent: seq<Builder<I, K>>, parts: seq<seq<Builder<I, K>>>)
    requires Carries(sent, parts)
    ensures Flatten(SignerLists(sent)) == Flatten(SignerLists(Flatten(parts)))
    decreases parts
  {
    if parts != [] {
      var first, rest := parts[0], Flatten(parts[1..]);
      SignersCarried(sent[1..], parts[1..]);
      SignersOfFirst(sent);
      SignersOfBoth(first, rest);
    }
  }

  // ----- what fits -----

  predicate Fits<I, K>(size: seq<I> -> Result<nat>, txs: seq<Builder<I, K>>) {
    size(Instructions(txs)).Ok? && size(Instructions(txs)).value <= MAX_TX_SIZE
  }

  /** The size is always defined and never shrinks when instructions are added at either end. */
  ghost predicate Monotone<I(!new)>(size: seq<I> -> Result<nat>) {
    && (forall x: seq<I> :: size(x).Ok?)
    && (forall x: seq<I>, y: seq<I> :: PartOf(x, y) ==> size(x).value <= size(y).value)
  }

  ghost predicate PartOf<I(!new)>(x: seq<I>, y: seq<I>) {
    exists i, j :: 0 <= i <= j <= |y| && y[i..j] == x
  }

  predicate EachFits<I, K>(size: seq<I> -> Result<nat>, txs: seq<Builder<I, K>>) {
    forall k :: 0 <= k < |txs| ==> Fits(size, [txs[k]])
  }

  /** A smaller group of neighbours fits if a larger one does. */
  lemma SubgroupFits<I(!new), K>(
    size: seq<I> -> Result<nat>, before: seq<Builder<I, K>>, group: seq<Builder<I, K>>, after: seq<Builder<I, K>>)
    requires Monotone(size) && Fits(size, before + group + after)
    ensures Fits(size, group)
  {
    InstructionsAppend(before + group, after);
    InstructionsAppend(before, group);
    var whole, part := Instructions(before + group + after), Instructions(group);
    var i := |Instructions(before)|;
    assert whole[i..i + |part|] == part;
    assert PartOf(part, whole);
  }

  /** The longest prefix of at most k groups that fits, or zero. */
  function LongestFit<I, K>(size: seq<I> -> Result<nat>, txs: seq<Builder<I, K>>, k: nat): nat
    requires k <= |txs|
  {
    if k == 0 || Fits(size, txs[..k]) then k else LongestFit(size, txs, k - 1)
  }

  predicate IsLongestFit<I, K>(size: seq<I> -> Result<nat>, txs: seq<Builder<I, K>>, n: nat) {
    && 1 <= n <= |txs| && Fits(size, txs[..n])
    && forall k :: n < k <= |txs| ==> !Fits(size, txs[..k])
  }

  lemma {:induction false} LongestFitFrom<I, K>(size: seq<I> -> Result<nat>, txs: seq<Builder<I, K>>, n: nat, k: nat)
    requires IsLongestFit(size, txs, n) && n <= k <= |txs|
    ensures LongestFit(size, txs, k) == n
    decreases k
  {
    if n < k { LongestFitFrom(size, txs, n, k - 1); }
  }

  // ----- the search -----

  /**
   Finds the largest prefix that fits in one transaction. It ends for every size function and every
   guess. It returns the longest prefix that fits when sizes grow with the prefix and one group
   fits; in any case a prefix of two or more groups that it returns does fit, and it returns none
   only when the first group alone is too large.
   */
  method FindFirstCondensed<I, K>(
    txs: seq<Builder<I, K>>, size: seq<I> -> Result<nat>, guess: (nat, nat) -> nat) returns (r: Result<nat>)
    ensures r.Ok? ==> r.value <= |txs|
    ensures r.Ok? && 2 <= r.value ==> Fits(size, txs[..r.value])
    ensures r.Ok? && r.value == 0 && txs != [] ==> !Fits(size, txs[..1])
    ensures PrefixesGrow(size, txs) && txs != [] && Fits(size, txs[..1])
            ==> r.Ok? && IsLongestFit(size, txs, r.value)
  {
    var tryLen := |txs|;
    var lo, hi := Min(|txs|, 1), tryLen;
    while lo != hi
      invariant lo <= |txs| && hi <= |txs| && 0 <= tryLen <= hi
      invariant lo <= hi ==> lo <= tryLen && (txs != [] && lo == 0 ==> !Fits(size, txs[..1]))
      invariant lo <= 1 || Fits(size, txs[..lo])
      invariant lo < hi ==> 1 <= lo
      invariant hi < lo ==> lo == 1 && hi == 0 && !Fits(size, txs[..1])
      invariant PrefixesGrow(size, txs) ==> forall k :: hi < k <= |txs| ==> !Fits(size, txs[..k])
      decreases if hi < lo then 1 else if hi == lo then 0 else 2 * (hi - lo) + (if tryLen == lo then 1 else 0)
    {
      var encoded :- size(Instructions(txs[..tryLen]));
      if encoded > MAX_TX_SIZE {
        if tryLen == 0 {
          return Err(Panic);
        }
        PrefixTooLong(size, txs, tryLen);
        hi := tryLen - 1;
      } else {
        lo := tryLen;
      }
      var maybeTry := Min(hi, Max(lo, guess(encoded, tryLen)));
      if maybeTry == tryLen {
        tryLen := (lo + hi + 1) / 2;
      } else {
        tryLen := maybeTry;
      }
    }
    return Ok(lo);
  }

  /** Longer prefixes are at least as large. */
  ghost predicate PrefixesGrow<I, K>(size: seq<I> -> Result<nat>, txs: seq<Builder<I, K>>) {
    && (forall k :: 0 <= k <= |txs| ==> size(Instructions(txs[..k])).Ok?)
    && (forall j, k :: 0 <= j <= k <= |txs|
          ==> size(Instructions(txs[..j])).value <= size(Instructions(txs[..k])).value)
  }

  lemma PrefixTooLong<I, K>(size: seq<I> -> Result<nat>, txs: seq<Builder<I, K>>, j: nat)
    requires j <= |txs| && !Fits(size, txs[..j])
    ensures PrefixesGrow(size, txs) ==> forall k :: j <= k <= |txs| ==> !Fits(size, txs[..k])
  {
  }

  lemma GrowsWhenMonotone<I(!new), K>(size: seq<I> -> Result<nat>, txs: seq<Builder<I, K>>)
    requires Monotone(size)
    ensures PrefixesGrow(size, txs)
  {
    forall j, k | 0 <= j <= k <= |txs|
      ensures size(Instructions(txs[..j])).value <= size(Instructions(txs[..k])).value
    {
      assert txs[..k] == txs[..j] + txs[j..k];
      InstructionsAppend(txs[..j], txs[j..k]);
      var x, y := Instructions(txs[..j]), Instructions(txs[..k]);
      assert y[0..|x|] == x;
      assert PartOf(x, y);
    }
  }

  // ----- packing from the left -----

  /** The greedy grouping: always the longest prefix that fits. */
  function GreedyParts<I, K>(size: seq<I> -> Result<nat>, txs: seq<Builder<I, K>>): (parts: seq<seq<Builder<I, K>>>)
    ensures Flatten(parts) == txs
    decreases txs
  {
    if txs == [] then [] else
    var n := Max(1, LongestFit(size, txs, |txs|));
    LongestFitAtMost(size, txs, |txs|);
    [txs[..n]] + GreedyParts(size, txs[n..])
  }

  lemma {:induction false} LongestFitAtMost<I, K>(size: seq<I> -> Result<nat>, txs: seq<Builder<I, K>>, k: nat)
    requires k <= |txs|
    ensures LongestFit(size, txs, k) <= k
  {
    if k > 0 { LongestFitAtMost(size, txs, k - 1); }
  }

  /** The groups handled so far, as parts, and those still to come. */
  ghost predicate Split<I(!new), K>(
    txs: seq<Builder<I, K>>, parts: seq<seq<Builder<I, K>>>, rest: seq<Builder<I, K>>, condensed: seq<Builder<I, K>>)
  {
    Flatten(parts) + rest == txs && condensed == JoinParts(parts)
  }

  /** With monotone sizes and groups that fit, the parts so far are the first ones of the greedy grouping. */
  ghost predicate SplitsGreedily<I(!new), K>(
    size: seq<I> -> Result<nat>, txs: seq<Builder<I, K>>, parts: seq<seq<Builder<I, K>>>, rest: seq<Builder<I, K>>)
  {
    Monotone(size) && EachFits(size, txs)
    ==> EachFits(size, rest) && parts + GreedyParts(size, rest) == GreedyParts(size, txs)
  }

  lemma AdvanceSplit<I(!new), K>(
    txs: seq<Builder<I, K>>, parts: seq<seq<Builder<I, K>>>, rest: seq<Builder<I, K>>, condensed: seq<Builder<I, K>>,
    n: nat)
    requires Split(txs, parts, rest, condensed) && n <= |rest|
    ensures Split(txs, parts + [rest[..n]], rest[n..],
                  if Instructions(rest[..n]) == [] then condensed else condensed + [Join(rest[..n])])
  {
    FlattenAppend(parts, [rest[..n]]);
    assert Flatten([rest[..n]]) == rest[..n];
    assert rest == rest[..n] + rest[n..];
    Associative(Flatten(parts), rest[..n], rest[n..]);
    JoinPartsAppend(parts, rest[..n]);
  }

  lemma AdvanceGreedily<I(!new), K>(
    size: seq<I> -> Result<nat>, txs: seq<Builder<I, K>>, parts: seq<seq<Builder<I, K>>>, rest: seq<Builder<I, K>>,
    n: nat)
    requires SplitsGreedily(size, txs, parts, rest) && n <= |rest|
    requires Monotone(size) && EachFits(size, rest) ==> IsLongestFit(size, rest, n)
    ensures SplitsGreedily(size, txs, parts + [rest[..n]], rest[n..])
  {
    if Monotone(size) && EachFits(size, txs) {
      LongestFitFrom(size, rest, n, |rest|);
      Associative(parts, [rest[..n]], GreedyParts(size, rest[n..]));
    }
  }

  lemma FirstFits<I(!new), K>(size: seq<I> -> Result<nat>, txs: seq<Builder<I, K>>)
    requires txs != []
    ensures Monotone(size) && EachFits(size, txs) ==> PrefixesGrow(size, txs) && Fits(size, txs[..1])
  {
    if Monotone(size) && EachFits(size, txs) {
      GrowsWhenMonotone(size, txs);
      assert txs[..1] == [txs[0]];
    }
  }

  lemma NothingLeft<I(!new), K>(
    size: seq<I> -> Result<nat>, txs: seq<Builder<I, K>>, parts: seq<seq<Builder<I, K>>>, condensed: seq<Builder<I, K>>)
    requires Split(txs, parts, [], condensed) && SplitsGreedily(size, txs, parts, [])
    ensures Flatten(parts) == txs && Instructions(condensed) == Instructions(txs)
    ensures Monotone(size) && EachFits(size, txs) ==> parts == GreedyParts(size, txs)
  {
    assert Flatten(parts) + [] == Flatten(parts) && parts + [] == parts;
    GroupingKeepsInstructions(parts);
  }

  lemma NoneLeftOut<I(!new), K>(
    size: seq<I> -> Result<nat>, txs: seq<Builder<I, K>>, parts: seq<seq<Builder<I, K>>>, rest: seq<Builder<I, K>>)
    requires SplitsGreedily(size, txs, parts, rest)
    ensures Monotone(size) && EachFits(size, txs) ==> |parts| <= |GreedyParts(size, txs)|
  {
  }

  /** Whatever was merged fits in one transaction; a group on its own may be too large. */
  ghost predicate MergedPartsFit<I, K>(size: seq<I> -> Result<nat>, parts: seq<seq<Builder<I, K>>>) {
    forall k :: 0 <= k < |parts| && 2 <= |parts[k]| ==> Fits(size, parts[k])
  }

  /** What packing from the left gives when sizes are monotone and each group fits. */
  function Condensed<I, K>(size: seq<I> -> Result<nat>, txs: seq<Builder<I, K>>): seq<Builder<I, K>> {
    var greedy := GreedyParts(size, txs);
    if |greedy| < MAX_ATTEMPTS then JoinParts(greedy) else txs
  }

  /**
   Merges groups from the left. Whatever the sizes and guesses, the instructions and their order
   are unchanged, every group ends up whole in one transaction (`parts` says which ones went
   together) that carries exactly its groups' instructions and signers, and no transaction made of
   two groups or more exceeds the limit. When sizes are
   monotone and each group fits, the result is the greedy grouping if that has fewer than twenty
   parts; from twenty on, the input is returned as it was.
   */
  method CondenseLeft<I(!new), K>(
    txs: seq<Builder<I, K>>, size: seq<I> -> Result<nat>, guess: (nat, nat) -> nat)
    returns (r: Result<seq<Builder<I, K>>>, ghost parts: seq<seq<Builder<I, K>>>)
    ensures r.Ok? ==> Instructions(r.value) == Instructions(txs)
    ensures r.Ok? ==> r.value == txs || (Flatten(parts) == txs && Carries(r.value, PartsSent(parts)))
    ensures r.Ok? && r.value != txs ==> r.value == JoinParts(parts)
    ensures r.Ok? && r.value != txs ==> Flatten(SignerLists(r.value)) == Flatten(SignerLists(Flatten(PartsSent(parts))))
    ensures MergedPartsFit(size, parts)
    ensures Monotone(size) && EachFits(size, txs) ==> r == Ok(Condensed(size, txs))
  {
    var shrinkMe := txs;
    var condensed: seq<Builder<I, K>> := [];
    var attempts := 0;
    parts := [];
    while attempts < MAX_ATTEMPTS
      invariant attempts <= MAX_ATTEMPTS && |parts| == attempts
      invariant Split(txs, parts, shrinkMe, condensed)
      invariant SplitsGreedily(size, txs, parts, shrinkMe)
      invariant MergedPartsFit(size, parts)
    {
      if shrinkMe == [] {
        NothingLeft(size, txs, parts, condensed);
        JoinedCarry(parts);
        SignersCarried(condensed, PartsSent(parts));
        return Ok(condensed), parts;
      }
      attempts := attempts + 1;
      FirstFits(size, shrinkMe);
      var next := FindFirstCondensed(shrinkMe, size, guess);
      if next.Err? {
        return Err(next.error), parts;
      }
      var n := next.value;
      AdvanceSplit(txs, parts, shrinkMe, condensed, n);
      AdvanceGreedily(size, txs, parts, shrinkMe, n);
      var nextTx := Join(shrinkMe[..n]);
      if nextTx.instructions != [] {
        condensed := condensed + [nextTx];
      }
      parts := parts + [shrinkMe[..n]];
      shrinkMe := shrinkMe[n..];
    }
    NoneLeftOut(size, txs, parts, shrinkMe);
    return Ok(txs), parts;
  }
}
