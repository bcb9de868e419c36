/**
 Distinct stimuli: `ChallengeFactory._ring_pairs` and `_delay_patterns` of
 app/hardware/puf/simulator.py, and the shape check their challenges must pass. Both loops repeat
 until enough distinct stimuli are drawn; here they take the number of draws they may make.
 */
module ChallengeFactory {
  import opened Wrappers
  import opened Draws
  import opened PufCrypto
  import opened Prng

  type Pair = (int, int)

  /*** Ring-oscillator pairs ***/

  /** The unordered pair of two draws; the second draw skips the first oscillator. */
  function PairOf(left: int, right: int): Pair {
    var other := if right >= left then right + 1 else right;
    if left < other then (left, other) else (other, left)
  }

  /** Each pair comes from exactly two of the draws. */
  lemma PairFromTwoDraws(n: nat, pair: Pair, left: int, right: int)
    requires 0 <= pair.0 < pair.1 < n && 0 <= left < n && 0 <= right < n - 1
    ensures PairOf(left, right) == pair <==> (left, right) == (pair.0, pair.1 - 1) || (left, right) == (pair.1, pair.0)
  {
  }

  function AllPairs(n: nat): (pairs: set<Pair>)
    ensures forall a, b :: (a, b) in pairs <==> 0 <= a < b < n
  {
    set a, b | 0 <= a < b < n :: (a, b)
  }

  function PairsUpTo(n: nat, last: nat): set<Pair> {
    set a | 0 <= a < n :: (a, last)
  }

  lemma {:induction false} PairsUpToSize(n: nat, last: nat)
    ensures |PairsUpTo(n, last)| == n
  {
    if n == 0 {
    } else {
      PairsUpToSize(n - 1, last);
      assert PairsUpTo(n, last) == PairsUpTo(n - 1, last) + {(n - 1, last)};
    }
  }

  lemma AllPairsSplit(m: nat)
    ensures |AllPairs(m + 1)| == |AllPairs(m)| + |PairsUpTo(m, m)|
  {
    assert AllPairs(m + 1) == AllPairs(m) + PairsUpTo(m, m);
    assert AllPairs(m) !! PairsUpTo(m, m);
  }

  lemma Triangular(m: nat)
    ensures (m + 1) * m == m * (m - 1) + 2 * m
  {
  }

  lemma {:induction false} AllPairsSize(n: nat)
    ensures 2 * |AllPairs(n)| == n * (n - 1)
  {
    if n == 0 {
      assert AllPairs(0) == {};
    } else {
      AllPairsSize(n - 1);
      PairsUpToSize(n - 1, n - 1);
      AllPairsSplit(n - 1);
      Triangular(n - 1);
    }
  }

  /** `PUFConfig._validate_relationships`, the ring-oscillator clause. */
  predicate RingConfigAccepted(oscillators: nat, responseBits: nat) {
    8 <= oscillators <= 4096 && 1 <= responseBits <= 1024 && responseBits * 2 <= oscillators * (oscillators - 1)
  }

  predicate DrawGives(n: nat, left: int, right: int, seen: set<Pair>) {
    0 <= left < n && 0 <= right < n - 1 && PairOf(left, right) !in seen
  }

  /** Every draw that could still be needed has an unseen outcome: the loop can always progress. */
  ghost predicate PairsCanProgress(n: nat, required: nat) {
    forall seen: set<Pair> :: seen <= AllPairs(n) && |seen| < required ==>
      exists left, right :: DrawGives(n, left, right, seen)
  }

  lemma SubsetSize<T>(small: set<T>, big: set<T>)
    requires small <= big
    ensures |small| <= |big| && (|small| == |big| ==> small == big)
  {
    assert big == small + (big - small);
  }

  lemma Missing<T>(small: set<T>, big: set<T>) returns (x: T)
    requires small <= big && |small| < |big|
    ensures x in big && x !in small
  {
    assert big == small + (big - small);
    x :| x in big - small;
  }

  /** The configured bound is exactly what progress needs. */
  lemma PairsProgressIff(n: nat, required: nat)
    ensures PairsCanProgress(n, required) <==> required * 2 <= n * (n - 1) || required == 0
  {
    AllPairsSize(n);
    if required * 2 <= n * (n - 1) || required == 0 {
      forall seen: set<Pair> | seen <= AllPairs(n) && |seen| < required
        ensures exists left, right :: DrawGives(n, left, right, seen)
      {
        var pair := Missing(seen, AllPairs(n));
        PairFromTwoDraws(n, pair, pair.0, pair.1 - 1);
        assert DrawGives(n, pair.0, pair.1 - 1, seen);
      }
    } else {
      var seen := AllPairs(n);
      forall left, right ensures !DrawGives(n, left, right, seen) {
      }
      assert !(seen <= AllPairs(n) && |seen| < required ==> exists left, right :: DrawGives(n, left, right, seen));
    }
  }

  function NextPair(word: nat -> nat, position: nat, n: nat, fuel: nat): Option<Drawn<Pair>>
    requires n >= 2
  {
    match Draw(word, position, n, fuel)
    case None => None
    case Some(left) =>
      match Draw(word, left.position, n - 1, fuel)
      case None => None
      case Some(right) => Some(Drawn(PairOf(left.value, right.value), right.position))
  }

  function AddNew<T(==)>(selected: seq<T>, x: T): seq<T> {
    if x in selected then selected else selected + [x]
  }

  /** The pairs collected, in the order drawn. */
  function CollectPairs(word: nat -> nat, position: nat, n: nat, required: nat, selected: seq<Pair>, fuel: nat)
    : Option<Drawn<seq<Pair>>>
    requires n >= 2
    decreases fuel
  {
    if |selected| >= required then Some(Drawn(selected, position))
    else if fuel == 0 then None
    else
      match NextPair(word, position, n, fuel)
      case None => None
      case Some(pair) => CollectPairs(word, pair.position, n, required, AddNew(selected, pair.value), fuel - 1)
  }

  predicate DistinctPairs(n: nat, pairs: seq<Pair>) {
    && (forall i :: 0 <= i < |pairs| ==> 0 <= pairs[i].0 < pairs[i].1 < n)
    && (forall i, j :: 0 <= i < j < |pairs| ==> pairs[i] != pairs[j])
  }

  /** What is collected is distinct, ordered and in range, and of the required number. */
  lemma {:induction false} CollectedPairsOk(word: nat -> nat, position: nat, n: nat, required: nat,
                                            selected: seq<Pair>, fuel: nat)
    requires n >= 2 && DistinctPairs(n, selected) && |selected| <= required
    requires CollectPairs(word, position, n, required, selected, fuel).Some?
    ensures var pairs := CollectPairs(word, position, n, required, selected, fuel).value.value;
      |pairs| == required && DistinctPairs(n, pairs)
    decreases fuel
  {
    if |selected| < required {
      var pair := NextPair(word, position, n, fuel).value;
      CollectedPairsOk(word, pair.position, n, required, AddNew(selected, pair.value), fuel - 1);
    }
  }

  /** The words of the stream are those from which these pairs are drawn, two for each. */
  predicate SpellsPairs(word: nat -> nat, position: nat, pairs: seq<Pair>) {
    forall i: nat :: i < |pairs| ==>
      word(position + 16 * i) == pairs[i].0 && word(position + 16 * i + 8) == pairs[i].1 - 1
  }

  function Natural(x: int): nat {
    if x < 0 then 0 else x
  }

  /** Word `i` of the words from which these pairs are drawn. */
  function PairWord(pairs: seq<Pair>, i: nat): nat {
    if i / 2 >= |pairs| then 0
    else if i % 2 == 0 then Natural(pairs[i / 2].0) else Natural(pairs[i / 2].1 - 1)
  }

  function PairStream(pairs: seq<Pair>): nat -> nat {
    (p: nat) => PairWord(pairs, p / 8)
  }

  lemma PairWordBelow(n: nat, pairs: seq<Pair>, i: nat)
    requires 1 <= n <= TWO_64 && DistinctPairs(n, pairs)
    ensures PairWord(pairs, i) < TWO_64
  {
  }

  lemma PairStreamAt(pairs: seq<Pair>, i: nat)
    requires i < |pairs| && 0 <= pairs[i].0 < pairs[i].1
    ensures PairStream(pairs)(16 * i) == pairs[i].0 && PairStream(pairs)(16 * i + 8) == pairs[i].1 - 1
  {
    assert (16 * i) / 8 == 2 * i && (16 * i + 8) / 8 == 2 * i + 1;
  }

  lemma StreamSpellsPairs(n: nat, pairs: seq<Pair>)
    requires 1 <= n <= TWO_64 && DistinctPairs(n, pairs)
    ensures SpellsPairs(PairStream(pairs), 0, pairs) && Words64(PairStream(pairs))
  {
    forall i: nat | i < |pairs|
      ensures PairStream(pairs)(0 + 16 * i) == pairs[i].0 && PairStream(pairs)(0 + 16 * i + 8) == pairs[i].1 - 1
    {
      PairStreamAt(pairs, i);
    }
    forall p: nat ensures PairStream(pairs)(p) < TWO_64 {
      PairWordBelow(n, pairs, p / 8);
    }
  }

  lemma SpelledPairDrawn(word: nat -> nat, position: nat, n: nat, fuel: nat, pair: Pair)
    requires 0 <= pair.0 < pair.1 < n <= TWO_64 && fuel >= 1
    requires word(position) == pair.0 && word(position + 8) == pair.1 - 1
    ensures NextPair(word, position, n, fuel) == Some(Drawn(pair, position + 16))
  {
    SmallWordKept(pair.0, n);
    SmallWordKept(pair.1 - 1, n - 1);
    PairFromTwoDraws(n, pair, pair.0, pair.1 - 1);
  }

  lemma NotYetSelected(n: nat, selected: seq<Pair>, pairs: seq<Pair>, all: seq<Pair>)
    requires DistinctPairs(n, all) && all == selected + pairs && pairs != []
    ensures pairs[0] !in selected && all == selected + [pairs[0]] + pairs[1..]
    ensures 0 <= pairs[0].0 < pairs[0].1 < n && |selected| < |all|
  {
    assert all[|selected|] == pairs[0];
    forall i | 0 <= i < |selected| ensures selected[i] != pairs[0] {
      assert all[i] == selected[i];
    }
  }

  lemma NewPairCollected(word: nat -> nat, position: nat, next: nat, n: nat, required: nat, selected: seq<Pair>,
                         pair: Pair, fuel: nat)
    requires n >= 2 && fuel >= 1 && |selected| < required && pair !in selected
    requires NextPair(word, position, n, fuel) == Some(Drawn(pair, next))
    ensures CollectPairs(word, position, n, required, selected, fuel)
      == CollectPairs(word, next, n, required, selected + [pair], fuel - 1)
  {
  }

  lemma SpelledPairs(word: nat -> nat, position: nat, pairs: seq<Pair>)
    requires pairs != [] && SpellsPairs(word, position, pairs)
    ensures word(position) == pairs[0].0 && word(position + 8) == pairs[0].1 - 1
    ensures SpellsPairs(word, position + 16, pairs[1..])
  {
    assert word(position + 16 * 0) == pairs[0].0 && word(position + 16 * 0 + 8) == pairs[0].1 - 1;
    forall i: nat | i < |pairs| - 1
      ensures word(position + 16 + 16 * i) == pairs[1..][i].0
      ensures word(position + 16 + 16 * i + 8) == pairs[1..][i].1 - 1
    {
      assert position + 16 + 16 * i == position + 16 * (i + 1);
      assert word(position + 16 * (i + 1) + 8) == pairs[i + 1].1 - 1;
    }
  }

  /** Distinct pairs spelled by the words of a stream are collected as they are, in that order. */
  lemma {:induction false} SpelledPairsCollected(word: nat -> nat, position: nat, n: nat, selected: seq<Pair>,
                                                 pairs: seq<Pair>, all: seq<Pair>, fuel: nat)
    requires 2 <= n <= TWO_64 && DistinctPairs(n, all) && all == selected + pairs && fuel >= |pairs|
    requires SpellsPairs(word, position, pairs)
    ensures CollectPairs(word, position, n, |all|, selected, fuel) == Some(Drawn(all, position + 16 * |pairs|))
    decreases |pairs|
  {
    if pairs == [] {
      assert all == selected;
    } else {
      var next := position + 16;
      NotYetSelected(n, selected, pairs, all);
      SpelledPairs(word, position, pairs);
      SpelledPairDrawn(word, position, n, fuel, pairs[0]);
      NewPairCollected(word, position, next, n, |all|, selected, pairs[0], fuel);
      SpelledPairsCollected(word, next, n, selected + [pairs[0]], pairs[1..], all, fuel - 1);
    }
  }

  lemma WholeListCollected(word: nat -> nat, n: nat, pairs: seq<Pair>)
    requires 2 <= n <= TWO_64 && DistinctPairs(n, pairs) && SpellsPairs(word, 0, pairs)
    ensures CollectPairs(word, 0, n, |pairs|, [], |pairs|) == Some(Drawn(pairs, 16 * |pairs|))
  {
    SpelledPairsCollected(word, 0, n, [], pairs, pairs, |pairs|);
  }

  /** Every list of distinct pairs, in every order, is what some 64-bit words draw. */
  lemma EveryPairListDrawn(n: nat, pairs: seq<Pair>) returns (word: nat -> nat)
    requires 2 <= n <= TWO_64 && DistinctPairs(n, pairs)
    ensures Words64(word)
    ensures CollectPairs(word, 0, n, |pairs|, [], |pairs|) == Some(Drawn(pairs, 16 * |pairs|))
  {
    word := PairStream(pairs);
    StreamSpellsPairs(n, pairs);
    WholeListCollected(word, n, pairs);
  }

  ghost predicate DrawsNewPair(word: nat -> nat, n: nat, seen: set<Pair>)
    requires n >= 2
  {
    && Words64(word)
    && var pair := NextPair(word, 0, n, 1);
       pair.Some? && pair.value.value !in seen
  }

  /** With fewer pairs than required selected, some words draw one that was not. */
  ghost predicate PairWordsCanProgress(n: nat, required: nat)
    requires n >= 2
  {
    forall seen: set<Pair> :: seen <= AllPairs(n) && |seen| < required ==>
      exists word: nat -> nat :: DrawsNewPair(word, n, seen)
  }

  lemma DrawnPairInRange(word: nat -> nat, position: nat, n: nat, fuel: nat)
    requires n >= 2 && NextPair(word, position, n, fuel).Some?
    ensures NextPair(word, position, n, fuel).value.value in AllPairs(n) && n <= TWO_64
  {
    var k := DrawIsFirstAccepted(word, position, n, fuel);
    LimitIsMultiple(n);
  }

  /** While pairs are missing some 64-bit words draw a new one, for every selection so far, exactly
      when no more are requested than there are. */
  lemma PairWordsProgressIff(n: nat, required: nat)
    requires n >= 2
    ensures PairWordsCanProgress(n, required)
      <==> required == 0 || (n <= TWO_64 && required * 2 <= n * (n - 1))
  {
    AllPairsSize(n);
    if required == 0 || (n <= TWO_64 && required * 2 <= n * (n - 1)) {
      forall seen: set<Pair> | seen <= AllPairs(n) && |seen| < required
        ensures exists word: nat -> nat :: DrawsNewPair(word, n, seen)
      {
        var pair := Missing(seen, AllPairs(n));
        var ws := [pair.0, pair.1 - 1];
        SpelledPairDrawn(StreamOf(ws), 0, n, 1, pair);
        assert DrawsNewPair(StreamOf(ws), n, seen);
      }
    } else {
      var seen := if n <= TWO_64 then AllPairs(n) else {};
      forall word: nat -> nat ensures !DrawsNewPair(word, n, seen) {
        if NextPair(word, 0, n, 1).Some? {
          DrawnPairInRange(word, 0, n, 1);
        }
      }
      assert !(seen <= AllPairs(n) && |seen| < required ==>
        exists word: nat -> nat :: DrawsNewPair(word, n, seen));
    }
  }

  /** Every accepted configuration can always find the next pair. */
  lemma AcceptedRingProgresses(oscillators: nat, responseBits: nat)
    requires RingConfigAccepted(oscillators, responseBits)
    ensures PairsCanProgress(oscillators, responseBits) && PairWordsCanProgress(oscillators, responseBits)
  {
    PairsProgressIff(oscillators, responseBits);
    PairWordsProgressIff(oscillators, responseBits);
  }

  method DrawPair(rng: DeterministicPrng, n: nat, fuel: nat) returns (r: Option<Pair>)
    requires rng.Valid() && n >= 2
    modifies rng
    ensures rng.Valid()
    ensures match NextPair(rng.word, old(rng.position), n, fuel)
      case None => r == None
      case Some(pair) => r == Some(pair.value) && rng.position == pair.position
  {
    ghost var words, p0 := rng.word, rng.position;
    var left := rng.RandInt(0, n - 1, fuel);
    ghost var first := Draw(words, p0, n, fuel);
    if left.value.None? {
      assert first.None?;
      return None;
    }
    assert first.Some? && left.value.value == first.value.value && rng.position == first.value.position;
    var right := rng.RandInt(0, n - 2, fuel);
    ghost var second := Draw(words, first.value.position, n - 1, fuel);
    if right.value.None? {
      assert second.None?;
      return None;
    }
    assert second.Some? && right.value.value == second.value.value && rng.position == second.value.position;
    return Some(PairOf(left.value.value, right.value.value));
  }

  /** Configuration guarantees at least eight oscillators. */
  method RingPairs(rng: DeterministicPrng, n: nat, required: nat, fuel: nat) returns (r: Option<seq<Pair>>)
    requires rng.Valid() && n >= 2
    modifies rng
    ensures rng.Valid()
    ensures match CollectPairs(rng.word, old(rng.position), n, required, [], fuel)
      case None => r == None
      case Some(drawn) => r == Some(drawn.value) && rng.position == drawn.position
    ensures r.Some? ==> |r.value| == required && DistinctPairs(n, r.value)
  {
    ghost var words, start := rng.word, rng.position;
    ghost var whole := CollectPairs(words, start, n, required, [], fuel);
    var selected: seq<Pair> := [];
    var left: nat := fuel;
    while |selected| < required && left > 0
      invariant rng.Valid()
      invariant CollectPairs(words, rng.position, n, required, selected, left) == whole
      decreases left
    {
      ghost var p, before := rng.position, selected;
      var pair := DrawPair(rng, n, left);
      if pair.None? {
        return None;
      }
      if pair.value !in selected {
        selected := selected + [pair.value];
      }
      left := left - 1;
      assert selected == AddNew(before, pair.value);
      assert NextPair(words, p, n, left + 1) == Some(Drawn(pair.value, rng.position));
    }
    if whole.Some? {
      CollectedPairsOk(words, start, n, required, [], fuel);
    }
    return if |selected| >= required then Some(selected) else None;
  }

  /*** Delay-chain patterns ***/

  /** One switch per stage, from one fraction each. */
  function PatternAt(word: nat -> nat, position: nat, stages: nat): (pattern: string)
    ensures |pattern| == stages && IsBinary(pattern)
  {
    if stages == 0 then ""
    else PatternAt(word, position, stages - 1)
         + [if Fraction(word(position + 8 * (stages - 1))) >= 0.5 then '1' else '0']
  }

  function CollectPatterns(word: nat -> nat, position: nat, stages: nat, required: nat, selected: seq<string>,
                           fuel: nat)
    : Option<Drawn<seq<string>>>
    decreases fuel
  {
    if |selected| >= required then Some(Drawn(selected, position))
    else if fuel == 0 then None
    else
      var more := AddNew(selected, PatternAt(word, position, stages));
      CollectPatterns(word, position + 8 * stages, stages, required, more, fuel - 1)
  }

  predicate DistinctPatterns(stages: nat, patterns: seq<string>) {
    && (forall i :: 0 <= i < |patterns| ==> |patterns[i]| == stages && IsBinary(patterns[i]))
    && (forall i, j :: 0 <= i < j < |patterns| ==> patterns[i] != patterns[j])
  }

  lemma {:induction false} CollectedPatternsOk(word: nat -> nat, position: nat, stages: nat, required: nat,
                                               selected: seq<string>, fuel: nat)
    requires DistinctPatterns(stages, selected) && |selected| <= required
    requires CollectPatterns(word, position, stages, required, selected, fuel).Some?
    ensures var patterns := CollectPatterns(word, position, stages, required, selected, fuel).value.value;
      |patterns| == required && DistinctPatterns(stages, patterns)
    decreases fuel
  {
    if |selected| < required {
      var more := AddNew(selected, PatternAt(word, position, stages));
      CollectedPatternsOk(word, position + 8 * stages, stages, required, more, fuel - 1);
    }
  }

  method DrawPattern(rng: DeterministicPrng, stages: nat) returns (pattern: string)
    requires rng.Valid()
    modifies rng
    ensures rng.Valid() && rng.position == old(rng.position) + 8 * stages
    ensures pattern == PatternAt(rng.word, old(rng.position), stages)
  {
    pattern := "";
    for k := 0 to stages
      invariant rng.Valid() && rng.position == old(rng.position) + 8 * k
      invariant pattern == PatternAt(rng.word, old(rng.position), k)
    {
      var fraction := rng.Random();
      pattern := pattern + [if fraction >= 0.5 then '1' else '0'];
    }
  }

  method DelayPatterns(rng: DeterministicPrng, stages: nat, required: nat, fuel: nat) returns (r: Option<seq<string>>)
    requires rng.Valid()
    modifies rng
    ensures rng.Valid()
    ensures match CollectPatterns(rng.word, old(rng.position), stages, required, [], fuel)
      case None => r == None
      case Some(drawn) => r == Some(drawn.value) && rng.position == drawn.position
    ensures r.Some? ==> |r.value| == required && DistinctPatterns(stages, r.value)
  {
    ghost var words, start := rng.word, rng.position;
    ghost var whole := CollectPatterns(words, start, stages, required, [], fuel);
    var patterns: seq<string> := [];
    var left: nat := fuel;
    while |patterns| < required && left > 0
      invariant rng.Valid()
      invariant CollectPatterns(words, rng.position, stages, required, patterns, left) == whole
      decreases left
    {
      ghost var p, before := rng.position, patterns;
      var pattern := DrawPattern(rng, stages);
      if pattern !in patterns {
        patterns := patterns + [pattern];
      }
      left := left - 1;
      assert patterns == AddNew(before, PatternAt(words, p, stages)) && rng.position == p + 8 * stages;
    }
    if whole.Some? {
      CollectedPatternsOk(words, start, stages, required, [], fuel);
    }
    return if |patterns| >= required then Some(patterns) else None;
  }

  function Extend(patterns: set<string>, c: char): set<string> {
    set p | p in patterns :: p + [c]
  }

  lemma InExtend(patterns: set<string>, c: char, p: string)
    ensures p in Extend(patterns, c) <==> p != "" && p[|p| - 1] == c && p[..|p| - 1] in patterns
  {
    if p in Extend(patterns, c) {
      var q :| q in patterns && p == q + [c];
      assert p[..|p| - 1] == q;
    }
    if p != "" && p[|p| - 1] == c {
      assert p == p[..|p| - 1] + [c];
    }
  }

  lemma {:induction false} ExtendSize(patterns: set<string>, c: char)
    ensures |Extend(patterns, c)| == |patterns|
  {
    if patterns == {} {
    } else {
      var p :| p in patterns;
      var rest := patterns - {p};
      ExtendSize(rest, c);
      forall q ensures q in Extend(patterns, c) <==> q in Extend(rest, c) + {p + [c]} {
        InExtend(patterns, c, q);
        InExtend(rest, c, q);
        InExtend({p}, c, q);
        assert Extend({p}, c) == {p + [c]};
      }
      InExtend(rest, c, p + [c]);
      assert (p + [c])[..|p|] == p;
      assert Extend(patterns, c) == Extend(rest, c) + {p + [c]};
    }
  }

  function AllPatterns(stages: nat): set<string> {
    if stages == 0 then {""} else Extend(AllPatterns(stages - 1), '0') + Extend(AllPatterns(stages - 1), '1')
  }

  lemma {:induction false} InAllPatterns(stages: nat, p: string)
    ensures p in AllPatterns(stages) <==> |p| == stages && IsBinary(p)
  {
    if stages == 0 {
    } else {
      var before := AllPatterns(stages - 1);
      InExtend(before, '0', p);
      InExtend(before, '1', p);
      if p != "" {
        InAllPatterns(stages - 1, p[..|p| - 1]);
        assert p == p[..|p| - 1] + [p[|p| - 1]];
      }
    }
  }

  lemma ExtensionsDisjoint(patterns: set<string>)
    ensures Extend(patterns, '0') !! Extend(patterns, '1')
  {
    forall p | p in Extend(patterns, '0') ensures p !in Extend(patterns, '1') {
      InExtend(patterns, '0', p);
      InExtend(patterns, '1', p);
    }
  }

  lemma {:induction false} AllPatternsSize(stages: nat)
    ensures |AllPatterns(stages)| == Pow2(stages)
  {
    if stages == 0 {
    } else {
      AllPatternsSize(stages - 1);
      var before := AllPatterns(stages - 1);
      ExtendSize(before, '0');
      ExtendSize(before, '1');
      ExtensionsDisjoint(before);
      assert AllPatterns(stages) == Extend(before, '0') + Extend(before, '1');
    }
  }

  lemma {:induction false} DistinctMembers<T>(values: seq<T>)
    requires forall i, j :: 0 <= i < j < |values| ==> values[i] != values[j]
    ensures |set x | x in values| == |values|
  {
    if values == [] {
    } else {
      var init, last := values[..|values| - 1], values[|values| - 1];
      DistinctMembers(init);
      assert values == init + [last];
      assert (set x | x in values) == (set x | x in init) + {last};
    }
  }

  /** More patterns than there are can never be collected, from any stream in any number of
      draws. */
  lemma TooManyPatternsNeverEnd(word: nat -> nat, position: nat, stages: nat, required: nat, fuel: nat)
    requires required > Pow2(stages)
    ensures CollectPatterns(word, position, stages, required, [], fuel) == None
  {
    if CollectPatterns(word, position, stages, required, [], fuel).Some? {
      CollectedPatternsOk(word, position, stages, required, [], fuel);
      var patterns := CollectPatterns(word, position, stages, required, [], fuel).value.value;
      DistinctMembers(patterns);
      forall p | p in patterns ensures p in AllPatterns(stages) {
        InAllPatterns(stages, p);
      }
      SubsetSize((set p | p in patterns), AllPatterns(stages));
      AllPatternsSize(stages);
    }
  }

  /** The words from which a pattern is drawn at the start of a stream: the top bit of each decides. */
  function WordsFor(pattern: string): nat -> nat {
    (p: nat) => if p / 8 < |pattern| && pattern[p / 8] == '1' then TWO_63 else 0
  }

  const TWO_63: nat := 0x8000_0000_0000_0000

  lemma TopBitDecides(w: nat)
    ensures Fraction(w) >= 0.5 <==> w >= TWO_63
  {
    var top := w / 2048;
    assert top >= 0x10_0000_0000_0000 <==> w >= TWO_63;
    assert Fraction(w) == top as real / TWO_53 as real;
  }

  /** Every pattern is what some words of 64 bits draw. */
  lemma {:induction false} EveryPatternDrawn(pattern: string, stages: nat)
    requires IsBinary(pattern) && stages <= |pattern|
    ensures PatternAt(WordsFor(pattern), 0, stages) == pattern[..stages]
    ensures forall p: nat :: WordsFor(pattern)(p) < TWO_64
  {
    if stages == 0 {
    } else {
      EveryPatternDrawn(pattern, stages - 1);
      TopBitDecides(WordsFor(pattern)(0 + 8 * (stages - 1)));
      assert pattern[..stages] == pattern[..stages - 1] + [pattern[stages - 1]];
    }
  }

  /** Switch `k` of a pattern is the top bit of word `k`. */
  lemma {:induction false} SwitchIsTopBit(word: nat -> nat, position: nat, stages: nat, k: nat)
    requires k < stages
    ensures PatternAt(word, position, stages)[k] == '1' <==> word(position + 8 * k) >= TWO_63
    decreases stages
  {
    if k == stages - 1 {
      TopBitDecides(word(position + 8 * k));
    } else {
      SwitchIsTopBit(word, position, stages - 1, k);
    }
  }

  predicate SpellsBits(word: nat -> nat, position: nat, bits: string) {
    forall i: nat :: i < |bits| ==> (word(position + 8 * i) >= TWO_63 <==> bits[i] == '1')
  }

  lemma SpelledPattern(word: nat -> nat, position: nat, pattern: string)
    requires IsBinary(pattern) && SpellsBits(word, position, pattern)
    ensures PatternAt(word, position, |pattern|) == pattern
  {
    var drawn := PatternAt(word, position, |pattern|);
    forall k | 0 <= k < |pattern| ensures drawn[k] == pattern[k] {
      SwitchIsTopBit(word, position, |pattern|, k);
    }
  }

  lemma SpellsSplit(word: nat -> nat, position: nat, a: string, b: string)
    requires SpellsBits(word, position, a + b)
    ensures SpellsBits(word, position, a) && SpellsBits(word, position + 8 * |a|, b)
  {
    forall i: nat | i < |a| ensures word(position + 8 * i) >= TWO_63 <==> a[i] == '1' {
      assert (a + b)[i] == a[i];
    }
    forall i: nat | i < |b| ensures word(position + 8 * |a| + 8 * i) >= TWO_63 <==> b[i] == '1' {
      assert (a + b)[|a| + i] == b[i];
      assert position + 8 * |a| + 8 * i == position + 8 * (|a| + i);
    }
  }

  function Joined(patterns: seq<string>): string {
    if patterns == [] then "" else patterns[0] + Joined(patterns[1..])
  }

  lemma NotYetCollected(stages: nat, selected: seq<string>, patterns: seq<string>, all: seq<string>)
    requires DistinctPatterns(stages, all) && all == selected + patterns && patterns != []
    ensures patterns[0] !in selected && all == selected + [patterns[0]] + patterns[1..]
    ensures |patterns[0]| == stages && IsBinary(patterns[0]) && |selected| < |all|
  {
    assert all[|selected|] == patterns[0];
    forall i | 0 <= i < |selected| ensures selected[i] != patterns[0] {
      assert all[i] == selected[i];
    }
  }

  lemma NewPatternCollected(word: nat -> nat, position: nat, stages: nat, required: nat, selected: seq<string>,
                            pattern: string, fuel: nat)
    requires fuel >= 1 && |selected| < required && pattern !in selected
    requires PatternAt(word, position, stages) == pattern
    ensures CollectPatterns(word, position, stages, required, selected, fuel)
      == CollectPatterns(word, position + 8 * stages, stages, required, selected + [pattern], fuel - 1)
  {
  }

  /** Distinct patterns spelled by the words of a stream are collected as they are, in that order. */
  lemma {:induction false} SpelledPatternsCollected(word: nat -> nat, position: nat, stages: nat,
                                                    selected: seq<string>, patterns: seq<string>, all: seq<string>,
                                                    fuel: nat)
    requires DistinctPatterns(stages, all) && all == selected + patterns && fuel >= |patterns|
    requires SpellsBits(word, position, Joined(patterns))
    ensures var collected := CollectPatterns(word, position, stages, |all|, selected, fuel);
      collected.Some? && collected.value.value == all
    decreases |patterns|
  {
    if patterns == [] {
      assert all == selected;
    } else {
      NotYetCollected(stages, selected, patterns, all);
      SpellsSplit(word, position, patterns[0], Joined(patterns[1..]));
      SpelledPattern(word, position, patterns[0]);
      NewPatternCollected(word, position, stages, |all|, selected, patterns[0], fuel);
      SpelledPatternsCollected(word, position + 8 * stages, stages, selected + [patterns[0]], patterns[1..], all,
                               fuel - 1);
    }
  }

  lemma WordsForSpells(bits: string)
    ensures SpellsBits(WordsFor(bits), 0, bits) && Words64(WordsFor(bits))
  {
    forall i: nat | i < |bits| ensures WordsFor(bits)(0 + 8 * i) >= TWO_63 <==> bits[i] == '1' {
      assert (0 + 8 * i) / 8 == i;
    }
  }

  lemma WholePatternListCollected(word: nat -> nat, stages: nat, patterns: seq<string>)
    requires DistinctPatterns(stages, patterns) && SpellsBits(word, 0, Joined(patterns))
    ensures var collected := CollectPatterns(word, 0, stages, |patterns|, [], |patterns|);
      collected.Some? && collected.value.value == patterns
  {
    SpelledPatternsCollected(word, 0, stages, [], patterns, patterns, |patterns|);
  }

  /** Every list of distinct patterns, in every order, is what some 64-bit words draw. */
  lemma EveryPatternListDrawn(stages: nat, patterns: seq<string>) returns (word: nat -> nat)
    requires DistinctPatterns(stages, patterns)
    ensures Words64(word)
    ensures var collected := CollectPatterns(word, 0, stages, |patterns|, [], |patterns|);
      collected.Some? && collected.value.value == patterns
  {
    word := WordsFor(Joined(patterns));
    WordsForSpells(Joined(patterns));
    WholePatternListCollected(word, stages, patterns);
  }

  /** With fewer patterns than required selected, some words draw one that was not. */
  ghost predicate PatternsCanProgress(stages: nat, required: nat) {
    forall seen: set<string> :: seen <= AllPatterns(stages) && |seen| < required ==>
      exists word: nat -> nat :: DrawsNew(word, stages, seen)
  }

  ghost predicate DrawsNew(word: nat -> nat, stages: nat, seen: set<string>) {
    (forall p: nat :: word(p) < TWO_64) && PatternAt(word, 0, stages) !in seen
  }

  /** While patterns are missing some words draw a new one, for every selection so far, exactly when
      no more are requested than there are. */
  lemma PatternsProgressIff(stages: nat, required: nat)
    ensures PatternsCanProgress(stages, required) <==> required <= Pow2(stages)
  {
    AllPatternsSize(stages);
    if required <= Pow2(stages) {
      forall seen: set<string> | seen <= AllPatterns(stages) && |seen| < required
        ensures exists word: nat -> nat :: DrawsNew(word, stages, seen)
      {
        var p := Missing(seen, AllPatterns(stages));
        InAllPatterns(stages, p);
        EveryPatternDrawn(p, stages);
        assert p[..stages] == p;
        assert DrawsNew(WordsFor(p), stages, seen);
      }
    } else {
      var seen := AllPatterns(stages);
      forall word: nat -> nat ensures !DrawsNew(word, stages, seen) {
        InAllPatterns(stages, PatternAt(word, 0, stages));
      }
      assert !(seen <= AllPatterns(stages) && |seen| < required ==>
        exists word: nat -> nat :: DrawsNew(word, stages, seen));
    }
  }

  /** The ranges `PUFConfig.from_dict` checks; no relation between the two is required. */
  predicate DelayConfigAccepted(stages: nat, responseBits: nat) {
    8 <= stages <= 2048 && 1 <= responseBits <= 1024
  }

  lemma {:induction false} Pow2Grows(k: nat, n: nat)
    requires k <= n
    ensures Pow2(k) <= Pow2(n)
    decreases n - k
  {
    if k >= n {
    } else {
      Pow2Grows(k, n - 1);
    }
  }

  /** Among the accepted settings, exactly those with too few stages for their response bits run out
      of patterns before the request is met. */
  lemma AcceptedButEndless(stages: nat, responseBits: nat)
    requires DelayConfigAccepted(stages, responseBits)
    ensures !PatternsCanProgress(stages, responseBits)
      <==> (stages == 8 && responseBits > 256) || (stages == 9 && responseBits > 512)
  {
    PatternsProgressIff(stages, responseBits);
    Pow2Of8();
    assert Pow2(9) == 512 && Pow2(10) == 1024;
    if stages >= 10 {
      Pow2Grows(10, stages);
    }
  }

  /*** The shape check ***/

  predicate ValidPair(pair: Pair, oscillators: nat) {
    var (left, right) := pair;
    !(left == right || left < 0 || right < 0 || left >= oscillators || right >= oscillators)
  }

  function ValidateChallengeShape(pairs: seq<Pair>, patterns: seq<string>, oscillators: nat, ringBits: nat,
                                  stages: nat, delayBits: nat)
    : Result<()>
  {
    if |pairs| != ringBits then Err(IntegrityError)
    else if |patterns| != delayBits then Err(IntegrityError)
    else if exists i :: 0 <= i < |pairs| && !ValidPair(pairs[i], oscillators) then Err(IntegrityError)
    else if exists i :: 0 <= i < |patterns| && !(|patterns[i]| == stages && IsBinary(patterns[i])) then
      Err(IntegrityError)
    else Ok(())
  }

  /** Two different oscillators of the array. */
  predicate Oscillators(pair: Pair, oscillators: nat) {
    0 <= pair.0 < oscillators && 0 <= pair.1 < oscillators && pair.0 != pair.1
  }

  /** The check accepts exactly as many pairs of different oscillators and binary patterns of the stage count as
      are configured. */
  lemma ShapeAcceptedIff(pairs: seq<Pair>, patterns: seq<string>, oscillators: nat, ringBits: nat, stages: nat,
                         delayBits: nat)
    ensures ValidateChallengeShape(pairs, patterns, oscillators, ringBits, stages, delayBits).Ok?
      <==>
      (|pairs| == ringBits && |patterns| == delayBits
       && (forall i :: 0 <= i < |pairs| ==> Oscillators(pairs[i], oscillators))
       && (forall i :: 0 <= i < |patterns| ==> |patterns[i]| == stages && IsBinary(patterns[i])))
  {
    forall i | 0 <= i < |pairs| ensures ValidPair(pairs[i], oscillators) <==> Oscillators(pairs[i], oscillators) {
    }
  }

  /** A challenge made of collected pairs and patterns passes the simulator's check. */
  lemma CollectedChallengeAccepted(word: nat -> nat, p: nat, q: nat, oscillators: nat, ringBits: nat, stages: nat,
                                   delayBits: nat, fuel: nat)
    requires oscillators >= 2
    requires CollectPairs(word, p, oscillators, ringBits, [], fuel).Some?
    requires CollectPatterns(word, q, stages, delayBits, [], fuel).Some?
    ensures var pairs := CollectPairs(word, p, oscillators, ringBits, [], fuel).value.value;
      var patterns := CollectPatterns(word, q, stages, delayBits, [], fuel).value.value;
      ValidateChallengeShape(pairs, patterns, oscillators, ringBits, stages, delayBits) == Ok(())
  {
    CollectedPairsOk(word, p, oscillators, ringBits, [], fuel);
    CollectedPatternsOk(word, q, stages, delayBits, [], fuel);
  }
}
