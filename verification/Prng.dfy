/**
 `DeterministicPRNG` of app/hardware/puf/crypto.py: HMAC in counter mode behind a buffer, bounded
 integers by rejection, and the shuffle that draws from them. `randint` may reject for ever, so
 the loops here take the number of attempts they may make.
 */
module Draws {
  import opened Wrappers
  import opened Bytes
  import opened BlockStream

  const TWO_64: nat := 0x1_0000_0000_0000_0000
  const TWO_53: nat := 0x20_0000_0000_0000

  /** Words below this limit are accepted for a span. */
  function Limit(span: nat): nat
    requires span >= 1
  {
    TWO_64 - TWO_64 % span
  }

  /** The eight-byte words of a stream, by the position where they begin. */
  function Words(block: nat -> Digest): nat -> nat {
    (position: nat) => Value(Slice(block, position, 8))
  }

  ghost predicate Words64(word: nat -> nat) {
    forall p: nat :: word(p) < TWO_64
  }

  /** A value drawn, and the stream position after it. */
  datatype Drawn<T> = Drawn(value: T, position: nat)

  /** The first accepted word from `position` on, reduced to the span. */
  function Draw(word: nat -> nat, position: nat, span: nat, fuel: nat): (r: Option<Drawn<nat>>)
    requires span >= 1
    ensures r.Some? ==> r.value.value < span
    decreases fuel
  {
    if fuel == 0 then None
    else if word(position) < Limit(span) then Some(Drawn(word(position) % span, position + 8))
    else Draw(word, position + 8, span, fuel - 1)
  }

  predicate Accepted(word: nat -> nat, position: nat, span: nat, k: nat)
    requires span >= 1
  {
    word(position + 8 * k) < Limit(span)
  }

  /** A draw succeeds exactly when one of the words it may look at is accepted. */
  lemma {:induction false} DrawSucceeds(word: nat -> nat, position: nat, span: nat, fuel: nat)
    requires span >= 1
    ensures Draw(word, position, span, fuel).Some? <==> exists k: nat :: k < fuel && Accepted(word, position, span, k)
    decreases fuel
  {
    if fuel == 0 {
    } else {
      var next := position + 8;
      DrawSucceeds(word, next, span, fuel - 1);
      assert Accepted(word, position, span, 0) <==> word(position) < Limit(span);
      forall k: nat | k >= 1 ensures Accepted(word, position, span, k) <==> Accepted(word, next, span, k - 1) {
        assert next + 8 * (k - 1) == position + 8 * k;
      }
      if k: nat :| k < fuel - 1 && Accepted(word, next, span, k) {
        assert Accepted(word, position, span, k + 1);
      }
    }
  }

  /** Attempt `k` is the first to look at an accepted word. */
  ghost predicate FirstAccepted(word: nat -> nat, position: nat, span: nat, k: nat)
    requires span >= 1
  {
    Accepted(word, position, span, k) && forall j: nat :: j < k ==> !Accepted(word, position, span, j)
  }

  /** The value drawn is the first accepted word, reduced to the span; the stream goes on behind it. */
  ghost predicate DrawnAt(word: nat -> nat, position: nat, span: nat, drawn: Drawn<nat>, k: nat)
    requires span >= 1
  {
    && FirstAccepted(word, position, span, k)
    && drawn.value == word(position + 8 * k) % span
    && drawn.position == position + 8 * (k + 1)
  }

  ghost predicate DrawnWithin(word: nat -> nat, position: nat, span: nat, drawn: Drawn<nat>, fuel: nat)
    requires span >= 1
  {
    exists k: nat :: k < fuel && DrawnAt(word, position, span, drawn, k)
  }

  predicate NoneAccepted(word: nat -> nat, position: nat, span: nat, fuel: nat)
    requires span >= 1
  {
    forall k: nat :: k < fuel ==> !Accepted(word, position, span, k)
  }

  lemma AttemptsShift(word: nat -> nat, position: nat, span: nat, j: nat)
    requires span >= 1 && j >= 1
    ensures Accepted(word, position, span, j) <==> Accepted(word, position + 8, span, j - 1)
  {
    assert position + 8 + 8 * (j - 1) == position + 8 * j;
  }

  lemma {:induction false} DrawIsFirstAccepted(word: nat -> nat, position: nat, span: nat, fuel: nat)
    returns (k: nat)
    requires span >= 1 && Draw(word, position, span, fuel).Some?
    ensures k < fuel && DrawnAt(word, position, span, Draw(word, position, span, fuel).value, k)
    decreases fuel
  {
    assert Accepted(word, position, span, 0) <==> word(position) < Limit(span);
    if word(position) < Limit(span) {
      k := 0;
    } else {
      var before := DrawIsFirstAccepted(word, position + 8, span, fuel - 1);
      k := before + 1;
      forall j: nat | 1 <= j <= k
        ensures Accepted(word, position, span, j) <==> Accepted(word, position + 8, span, j - 1)
      {
        AttemptsShift(word, position, span, j);
      }
    }
  }

  lemma DrawSpecified(word: nat -> nat, position: nat, span: nat, fuel: nat)
    requires span >= 1
    ensures match Draw(word, position, span, fuel)
      case None => NoneAccepted(word, position, span, fuel)
      case Some(drawn) => DrawnWithin(word, position, span, drawn, fuel)
  {
    DrawSucceeds(word, position, span, fuel);
    if Draw(word, position, span, fuel).Some? {
      var k := DrawIsFirstAccepted(word, position, span, fuel);
    }
  }

  /** More attempts never change a value that was drawn. */
  lemma {:induction false} DrawMoreFuel(word: nat -> nat, position: nat, span: nat, fuel: nat, more: nat)
    requires span >= 1 && fuel <= more && Draw(word, position, span, fuel).Some?
    ensures Draw(word, position, span, more) == Draw(word, position, span, fuel)
    decreases fuel
  {
    if word(position) >= Limit(span) {
      DrawMoreFuel(word, position + 8, span, fuel - 1, more - 1);
    }
  }

  lemma MulAtLeast(a: int, b: nat)
    requires a >= 1
    ensures a * b >= b
  {
  }

  /** Quotient and remainder are the only ones. */
  lemma DivModUnique(n: nat, span: nat, q: nat, r: nat)
    requires n == q * span + r && r < span
    ensures n / span == q && n % span == r
  {
    var p, t := n / span, n % span;
    assert n == p * span + t;
    if p > q {
      MulAtLeast(p - q, span);
    } else if p < q {
      MulAtLeast(q - p, span);
    }
  }

  /** Some word is accepted exactly for spans of at most 2^64, and then more than half of them;
      the accepted range is a whole number of spans. */
  lemma LimitIsMultiple(span: nat)
    requires span >= 1
    ensures Limit(span) == TWO_64 / span * span
    ensures Limit(span) > 0 <==> span <= TWO_64
    ensures span <= TWO_64 ==> 2 * Limit(span) > TWO_64
  {
    var q, r := TWO_64 / span, TWO_64 % span;
    assert TWO_64 == q * span + r;
    if span <= TWO_64 {
      if q == 0 {
        assert false;
      }
      MulAtLeast(q, span);
    } else if q > 0 {
      MulAtLeast(q, span);
      assert false;
    }
  }

  function Preimage(k: nat, span: nat, value: nat): nat {
    k * span + value
  }

  function Preimages(copies: nat, span: nat, value: nat): set<nat> {
    set k: nat | k < copies :: Preimage(k, span, value)
  }

  lemma PreimagesGrow(j: nat, k: nat, span: nat, value: nat)
    requires j < k && span >= 1
    ensures Preimage(j, span, value) + span <= Preimage(k, span, value)
  {
    MulAtLeast(k - j, span);
    assert k * span == j * span + (k - j) * span;
  }

  lemma {:induction false} PreimagesSize(copies: nat, span: nat, value: nat)
    requires span >= 1
    ensures |Preimages(copies, span, value)| == copies
  {
    if copies == 0 {
    } else {
      PreimagesSize(copies - 1, span, value);
      var before, x := Preimages(copies - 1, span, value), Preimage(copies - 1, span, value);
      forall k: nat | k < copies - 1 ensures Preimage(k, span, value) != x {
        PreimagesGrow(k, copies - 1, span, value);
      }
      assert Preimages(copies, span, value) == before + {x};
    }
  }

  lemma AcceptedIffPreimage(span: nat, value: nat, word: nat)
    requires 1 <= span <= TWO_64 && value < span
    ensures word < Limit(span) && word % span == value <==> word in Preimages(TWO_64 / span, span, value)
  {
    var q, k := TWO_64 / span, word / span;
    LimitIsMultiple(span);
    assert Limit(span) == Preimage(q, span, 0);
    if word < Limit(span) && word % span == value {
      assert word == Preimage(k, span, value);
      if k > q {
        PreimagesGrow(q, k, span, 0);
      }
      assert k < q;
    }
    if word in Preimages(q, span, value) {
      var j: nat :| j < q && word == Preimage(j, span, value);
      DivModUnique(word, span, j, value);
      PreimagesGrow(j, q, span, 0);
    }
  }

  /** Every value of the span has the same number of accepted words: `Limit(span) / span`. */
  lemma AcceptedWordsPerValue(span: nat, value: nat)
    requires 1 <= span <= TWO_64 && value < span
    ensures |set word: nat | word < Limit(span) && word % span == value| == Limit(span) / span
  {
    var q := TWO_64 / span;
    LimitIsMultiple(span);
    DivModUnique(Limit(span), span, q, 0);
    forall word: nat { AcceptedIffPreimage(span, value, word); }
    assert (set word: nat | word < Limit(span) && word % span == value) == Preimages(q, span, value);
    PreimagesSize(q, span, value);
  }

  /*** Fairness ***/

  /** All lists of `n` words of 64 bits. */
  ghost function WordLists(n: nat): set<seq<nat>> {
    if n == 0 then {[]} else set w: nat, ws | w < TWO_64 && ws in WordLists(n - 1) :: [w] + ws
  }

  lemma {:induction false} InWordLists(n: nat, ws: seq<nat>)
    ensures ws in WordLists(n) <==> |ws| == n && forall i :: 0 <= i < n ==> ws[i] < TWO_64
  {
    if n == 0 {
    } else if ws == [] {
    } else {
      InWordLists(n - 1, ws[1..]);
      assert ws == [ws[0]] + ws[1..];
      assert forall w: nat, rest: seq<nat> :: [w] + rest == ws ==> w == ws[0] && rest == ws[1..];
    }
  }

  /** A stream that begins with these words. */
  function StreamOf(ws: seq<nat>): nat -> nat {
    (p: nat) => if p / 8 < |ws| then ws[p / 8] else 0
  }

  /** A draw from these words, one attempt for each, answers `value`. */
  predicate Answers(ws: seq<nat>, span: nat, value: nat)
    requires span >= 1
  {
    var drawn := Draw(StreamOf(ws), 0, span, |ws|);
    drawn.Some? && drawn.value.value == value
  }

  ghost function AnswerLists(n: nat, span: nat, value: nat): set<seq<nat>>
    requires span >= 1
  {
    set ws | ws in WordLists(n) && Answers(ws, span, value)
  }

  /** A draw looks at no other words. */
  lemma {:induction false} DrawLooksAt(v: nat -> nat, p: nat, w: nat -> nat, q: nat, span: nat, fuel: nat)
    requires span >= 1 && forall i: nat :: i < fuel ==> v(p + 8 * i) == w(q + 8 * i)
    ensures Draw(v, p, span, fuel).Some? <==> Draw(w, q, span, fuel).Some?
    ensures Draw(v, p, span, fuel).Some? ==>
      var (a, b) := (Draw(v, p, span, fuel).value, Draw(w, q, span, fuel).value);
      a.value == b.value && a.position - p == b.position - q
    decreases fuel
  {
    if fuel == 0 {
    } else {
      assert v(p + 8 * 0) == w(q + 8 * 0);
      forall i: nat | i < fuel - 1 ensures v(p + 8 + 8 * i) == w(q + 8 + 8 * i) {
        assert p + 8 + 8 * i == p + 8 * (i + 1) && q + 8 + 8 * i == q + 8 * (i + 1);
      }
      DrawLooksAt(v, p + 8, w, q + 8, span, fuel - 1);
    }
  }

  lemma AnswersUnfold(ws: seq<nat>, span: nat, value: nat)
    requires span >= 1 && ws != []
    ensures Answers(ws, span, value)
      <==> if ws[0] < Limit(span) then ws[0] % span == value else Answers(ws[1..], span, value)
  {
    var rest := ws[1..];
    forall i: nat | i < |rest| ensures StreamOf(ws)(8 + 8 * i) == StreamOf(rest)(0 + 8 * i) {
      assert (8 + 8 * i) / 8 == i + 1;
    }
    DrawLooksAt(StreamOf(ws), 8, StreamOf(rest), 0, span, |rest|);
  }

  /** The same words, but the first accepted one is moved from one remainder to another. */
  function Retarget(ws: seq<nat>, span: nat, from: nat, to: nat): (r: seq<nat>)
    requires span >= 1
    ensures |r| == |ws|
  {
    if ws == [] then []
    else if from <= ws[0] < Limit(span) then [ws[0] - from + to] + ws[1..]
    else [ws[0]] + Retarget(ws[1..], span, from, to)
  }

  lemma MovedPreimage(k: nat, span: nat, from: nat, to: nat)
    ensures Preimage(k, span, to) == Preimage(k, span, from) - from + to
  {
  }

  lemma MovedWord(w: nat, span: nat, from: nat, to: nat)
    requires 1 <= span <= TWO_64 && from < span && to < span && w < Limit(span) && w % span == from
    ensures from <= w && w - from + to < Limit(span) && (w - from + to) % span == to
  {
    AcceptedIffPreimage(span, from, w);
    var k: nat :| k < TWO_64 / span && w == Preimage(k, span, from);
    MovedPreimage(k, span, from, to);
    assert Preimage(k, span, to) in Preimages(TWO_64 / span, span, to);
    AcceptedIffPreimage(span, to, Preimage(k, span, to));
  }

  lemma SpanFits(w: nat, span: nat)
    requires span >= 1 && w < Limit(span)
    ensures span <= TWO_64
  {
    LimitIsMultiple(span);
  }

  lemma {:induction false} RetargetAnswers(ws: seq<nat>, span: nat, from: nat, to: nat)
    requires span >= 1 && from < span && to < span && Answers(ws, span, from)
    requires forall i :: 0 <= i < |ws| ==> ws[i] < TWO_64
    ensures Answers(Retarget(ws, span, from, to), span, to)
    ensures forall i :: 0 <= i < |ws| ==> Retarget(ws, span, from, to)[i] < TWO_64
    ensures Retarget(Retarget(ws, span, from, to), span, to, from) == ws
  {
    if ws == [] {
    } else {
      var there := Retarget(ws, span, from, to);
      AnswersUnfold(ws, span, from);
      AnswersUnfold(there, span, to);
      if ws[0] < Limit(span) {
        SpanFits(ws[0], span);
        MovedWord(ws[0], span, from, to);
        assert there[1..] == ws[1..];
      } else {
        RetargetAnswers(ws[1..], span, from, to);
        assert there[1..] == Retarget(ws[1..], span, from, to);
      }
    }
  }

  lemma {:induction false} InjectionSize<A, B>(a: set<A>, b: set<B>, f: A -> B)
    requires forall x :: x in a ==> f(x) in b
    requires forall x, y :: x in a && y in a && f(x) == f(y) ==> x == y
    ensures |a| <= |b|
    decreases |a|
  {
    if a == {} {
    } else {
      var x :| x in a;
      InjectionSize(a - {x}, b - {f(x)}, f);
    }
  }

  lemma AtMostAsMany(n: nat, span: nat, from: nat, to: nat)
    requires span >= 1 && from < span && to < span
    ensures |AnswerLists(n, span, from)| <= |AnswerLists(n, span, to)|
  {
    var a, b := AnswerLists(n, span, from), AnswerLists(n, span, to);
    var f := (ws: seq<nat>) => Retarget(ws, span, from, to);
    forall ws | ws in a ensures f(ws) in b && Retarget(f(ws), span, to, from) == ws {
      InWordLists(n, ws);
      RetargetAnswers(ws, span, from, to);
      InWordLists(n, f(ws));
    }
    InjectionSize(a, b, f);
  }

  /** However many attempts are allowed, every value is the answer to the same number of word lists. */
  lemma DrawsAreFair(n: nat, span: nat, v: nat, u: nat)
    requires v < span && u < span
    ensures |AnswerLists(n, span, v)| == |AnswerLists(n, span, u)|
  {
    AtMostAsMany(n, span, v, u);
    AtMostAsMany(n, span, u, v);
  }

  /** Of the single words, that number is `Limit(span) / span`. */
  lemma OneAttemptPerValue(span: nat, value: nat)
    requires 1 <= span <= TWO_64 && value < span
    ensures |AnswerLists(1, span, value)| == Limit(span) / span
  {
    var lists, words := AnswerLists(1, span, value), set w: nat | w < Limit(span) && w % span == value;
    AcceptedWordsPerValue(span, value);
    forall ws: seq<nat> | |ws| == 1 ensures ws in lists <==> ws[0] in words {
      InWordLists(1, ws);
      AnswersUnfold(ws, span, value);
      assert !Answers(ws[1..], span, value);
    }
    forall ws | ws in lists ensures |ws| == 1 && ws == [ws[0]] {
      InWordLists(1, ws);
    }
    InjectionSize(words, lists, (w: nat) => [w]);
    InjectionSize(lists, words, (ws: seq<nat>) => if ws == [] then 0 else ws[0]);
  }
}

module Prng {
  import opened Wrappers
  import opened Bytes
  import opened BlockStream
  import opened Draws
  import opened PufCrypto
  import FisherYates

  function PrngBlocks(mac: Mac, key: bytes, context: bytes): nat -> Digest {
    (i: nat) => mac(key, Ascii("puf-prng") + context + BigEndian(i, 8))
  }

  /** Equal blocks of two generators with one key have one context and one counter, or two messages
      share a tag. */
  lemma PrngBlockBinds(mac: Mac, key: bytes, a: bytes, b: bytes, i: nat, j: nat) returns (messages: (bytes, bytes))
    requires i < Pow256(8) && j < Pow256(8)
    requires PrngBlocks(mac, key, a)(i) == PrngBlocks(mac, key, b)(j)
    ensures TagsCollide(mac, key, messages) || (a == b && i == j)
  {
    var prefix := Ascii("puf-prng");
    messages := (prefix + a + BigEndian(i, 8), prefix + b + BigEndian(j, 8));
    if messages.0 == messages.1 {
      LabelledMessages(prefix, a, b, i, j, 8);
    }
  }

  /** What `shuffle` makes of its values, drawing from `position` on. */
  function Shuffled<T>(word: nat -> nat, position: nat, values: seq<T>, fuel: nat): (r: Option<Drawn<seq<T>>>)
    ensures r.Some? ==> |r.value.value| == |values|
    decreases |values|
  {
    if |values| <= 1 then Some(Drawn(values, position))
    else
      match Draw(word, position, |values|, fuel)
      case None => None
      case Some(target) =>
        var last := |values| - 1;
        var swapped := FisherYates.Swap(values, last, target.value);
        match Shuffled(word, target.position, swapped[..last], fuel)
        case None => None
        case Some(rest) => Some(Drawn(rest.value + [swapped[last]], rest.position))
  }

  /** The targets are drawn one after the other, each from one value fewer. */
  predicate DrawnTargets(word: nat -> nat, position: nat, n: nat, fuel: nat, targets: seq<nat>)
    decreases n
  {
    if n <= 1 then targets == []
    else
      && targets != []
      && Draw(word, position, n, fuel).Some?
      && var target := Draw(word, position, n, fuel).value;
         targets[0] == target.value && DrawnTargets(word, target.position, n - 1, fuel, targets[1..])
  }

  /** A shuffle is the exchange shuffle for the targets it drew, hence a permutation. */
  lemma {:induction false} ShuffledApplies<T>(word: nat -> nat, position: nat, values: seq<T>, fuel: nat)
    returns (targets: seq<nat>)
    requires Shuffled(word, position, values, fuel).Some?
    ensures FisherYates.Targets(targets, |values|) && DrawnTargets(word, position, |values|, fuel, targets)
    ensures Shuffled(word, position, values, fuel).value.value == FisherYates.Apply(values, targets)
    decreases |values|
  {
    if |values| <= 1 {
      targets := [];
    } else {
      var last := |values| - 1;
      var target := Draw(word, position, |values|, fuel).value;
      var rest := ShuffledApplies(word, target.position, FisherYates.Swap(values, last, target.value)[..last], fuel);
      FisherYates.ApplyCons(values, target.value, rest);
      targets := [target.value] + rest;
    }
  }

  lemma SmallWordKept(w: nat, span: nat)
    requires w < span <= TWO_64
    ensures w < Limit(span) && w % span == w
  {
    LimitIsMultiple(span);
    MulAtLeast(TWO_64 / span, span);
    DivModUnique(w, span, 0, w);
  }

  lemma ShuffledCons<T>(word: nat -> nat, position: nat, values: seq<T>, target: nat, fuel: nat, rest: Drawn<seq<T>>)
    requires |values| > 1 && target < |values| && fuel >= 1
    requires word(position) == target < Limit(|values|) && target % |values| == target
    requires Shuffled(word, position + 8, FisherYates.Swap(values, |values| - 1, target)[..|values| - 1], fuel)
      == Some(rest)
    ensures Shuffled(word, position, values, fuel) == Some(Drawn(rest.value + [values[target]], rest.position))
  {
  }

  predicate Spells(word: nat -> nat, position: nat, targets: seq<nat>) {
    forall i: nat :: i < |targets| ==> word(position + 8 * i) == targets[i]
  }

  lemma SpellsRest(word: nat -> nat, position: nat, targets: seq<nat>)
    requires targets != [] && Spells(word, position, targets)
    ensures word(position) == targets[0] && Spells(word, position + 8, targets[1..])
  {
    assert word(position + 8 * 0) == targets[0];
    forall i: nat | i < |targets| - 1 ensures word(position + 8 + 8 * i) == targets[1..][i] {
      assert position + 8 + 8 * i == position + 8 * (i + 1);
    }
  }

  /** Words that are valid targets are taken as they are. */
  lemma {:induction false} ShuffleFollows<T>(word: nat -> nat, position: nat, values: seq<T>, targets: seq<nat>,
                                             fuel: nat)
    requires FisherYates.Targets(targets, |values|) && fuel >= 1 && |values| <= TWO_64
    requires Spells(word, position, targets)
    ensures Shuffled(word, position, values, fuel)
      == Some(Drawn(FisherYates.Apply(values, targets), position + 8 * |targets|))
    decreases |values|
  {
    if |values| <= 1 {
    } else {
      var swapped, rest := FisherYates.Swap(values, |values| - 1, targets[0]), targets[1..];
      assert targets == [targets[0]] + rest;
      SpellsRest(word, position, targets);
      SmallWordKept(targets[0], |values|);
      ShuffleFollows(word, position + 8, swapped[..|values| - 1], rest, fuel);
      FisherYates.ApplyCons(values, targets[0], rest);
      ShuffledCons(word, position, values, targets[0], fuel,
                   Drawn(FisherYates.Apply(swapped[..|values| - 1], rest), position + 8 + 8 * |rest|));
    }
  }

  /** Every permutation is what a shuffle makes of some 64-bit words. */
  lemma EveryPermutationDrawn<T>(values: seq<T>, wanted: seq<T>) returns (ws: seq<nat>)
    requires multiset(values) == multiset(wanted) && |values| <= TWO_64
    ensures forall i :: 0 <= i < |ws| ==> ws[i] < TWO_64
    ensures Shuffled(StreamOf(ws), 0, values, 1) == Some(Drawn(wanted, 8 * |ws|))
  {
    ws := FisherYates.ApplySurjective(values, wanted);
    ShuffleFollows(StreamOf(ws), 0, values, ws, 1);
  }

  /** A shuffled part with the settled values behind it. */
  function Followed<T>(part: Option<Drawn<seq<T>>>, suffix: seq<T>): Option<Drawn<seq<T>>> {
    match part
    case None => None
    case Some(drawn) => Some(Drawn(drawn.value + suffix, drawn.position))
  }

  /** What the loop still has to do when the first `n` values are in play. */
  function Unsettled<T>(word: nat -> nat, position: nat, values: seq<T>, n: nat, fuel: nat): Option<Drawn<seq<T>>>
    requires n <= |values|
  {
    Followed(Shuffled(word, position, values[..n], fuel), values[n..])
  }

  /** The exchange of one round, seen from both sides of the settled part. */
  lemma SwapSplits<T>(values: seq<T>, n: nat, target: nat)
    requires target < n <= |values|
    ensures var swapped, part := FisherYates.Swap(values, n - 1, target), FisherYates.Swap(values[..n], n - 1, target);
      swapped[..n - 1] == part[..n - 1] && swapped[n - 1..] == [part[n - 1]] + values[n..]
  {
  }

  /** One round of the loop: the last of the values in play is settled. */
  lemma ShuffleRound<T>(word: nat -> nat, position: nat, values: seq<T>, n: nat, fuel: nat)
    requires 1 < n <= |values|
    ensures match Draw(word, position, n, fuel)
      case None => Unsettled(word, position, values, n, fuel) == None
      case Some(target) =>
        var swapped := FisherYates.Swap(values, n - 1, target.value);
        Unsettled(word, position, values, n, fuel) == Unsettled(word, target.position, swapped, n - 1, fuel)
  {
    if Draw(word, position, n, fuel).Some? {
      var target := Draw(word, position, n, fuel).value;
      SwapSplits(values, n, target.value);
      var swapped := FisherYates.Swap(values[..n], n - 1, target.value);
      var rest := Shuffled(word, target.position, swapped[..n - 1], fuel);
      if rest.Some? {
        assert (rest.value.value + [swapped[n - 1]]) + values[n..]
          == rest.value.value + ([swapped[n - 1]] + values[n..]);
      }
    }
  }

  lemma AllOrNothingUnsettled<T>(word: nat -> nat, position: nat, values: seq<T>, n: nat, fuel: nat)
    requires n <= |values|
    ensures Unsettled(word, position, values, |values|, fuel) == Shuffled(word, position, values, fuel)
    ensures n <= 1 ==> Unsettled(word, position, values, n, fuel) == Some(Drawn(values, position))
  {
    assert values[..|values|] == values && values[..n] + values[n..] == values;
    var whole := Shuffled(word, position, values, fuel);
    if whole.Some? {
      assert whole.value.value + values[|values|..] == whole.value.value;
    }
  }

  class DeterministicPrng {
    const mac: Mac
    const key: bytes
    const context: bytes
    var counter: nat
    var buffer: bytes
    /** The number of bytes handed out so far. */
    ghost var position: nat
    /** The eight-byte words of the stream. */
    ghost const word: nat -> nat

    function Source(): nat -> Digest {
      PrngBlocks(mac, key, context)
    }

    /** The buffer is the part of the generated blocks that has not been handed out. */
    ghost predicate Valid()
      reads this
    {
      && position <= 32 * counter && buffer == Blocks(Source(), counter)[position..]
      && forall p: nat {:trigger Slice(Source(), p, 8)} :: word(p) == Value(Slice(Source(), p, 8))
    }

    constructor (mac: Mac, key: bytes, context: bytes)
      ensures Valid() && position == 0
      ensures this.mac == mac && this.key == key && this.context == context
      ensures word == Words(PrngBlocks(mac, key, context))
    {
      this.mac, this.key, this.context := mac, key, context;
      word := Words(PrngBlocks(mac, key, context));
      counter, buffer, position := 0, [], 0;
    }

    method Refill()
      requires Valid()
      modifies this`counter, this`buffer
      ensures Valid() && |buffer| == old(|buffer|) + 32
    {
      buffer := buffer + mac(key, Ascii("puf-prng") + context + BigEndian(counter, 8));
      counter := counter + 1;
    }

    /** The next bytes of the stream, whatever reads came before. */
    method Bytes(length: int) returns (r: Result<bytes>)
      requires Valid()
      modifies this
      ensures Valid()
      ensures length < 0 ==> r == Err(ValueError) && position == old(position)
      ensures length >= 0 ==> r == Ok(Slice(Source(), old(position), length)) && position == old(position) + length
    {
      if length < 0 {
        return Err(ValueError);
      }
      while |buffer| < length
        invariant Valid() && position == old(position)
        decreases length - |buffer|
      {
        Refill();
      }
      SliceOfBlocks(Source(), counter, position, length);
      r, buffer := Ok(buffer[..length]), buffer[length..];
      position := position + length;
    }

    /** A fraction in [0, 1): the top 53 bits of a word. */
    method Random() returns (r: real)
      requires Valid()
      modifies this
      ensures Valid() && position == old(position) + 8
      ensures r == Fraction(word(old(position)))
      ensures 0.0 <= r < 1.0
    {
      var eight := Bytes(8);
      ValueBigEndian(eight.value);
      assert Pow256(8) == TWO_64 by { assert Pow256(4) == 0x1_0000_0000; }
      r := Fraction(Value(eight.value));
    }

    /** Ends with a value of the range, or with no word accepted in `fuel` attempts. */
    method RandInt(minimum: int, maximum: int, fuel: nat) returns (r: Result<Option<int>>)
      requires Valid()
      modifies this
      ensures Valid()
      ensures maximum < minimum ==> r == Err(ValueError) && position == old(position)
      ensures minimum <= maximum ==>
        match Draw(word, old(position), maximum - minimum + 1, fuel)
        case None => r == Ok(None)
        case Some(drawn) => r == Ok(Some(minimum + drawn.value)) && position == drawn.position
      ensures r.Ok? && r.value.Some? ==>
        minimum <= r.value.value <= maximum
        && DrawnWithin(word, old(position), maximum - minimum + 1, Drawn(r.value.value - minimum, position), fuel)
      ensures minimum <= maximum && r == Ok(None) ==>
        NoneAccepted(word, old(position), maximum - minimum + 1, fuel)
    {
      if maximum < minimum {
        return Err(ValueError);
      }
      var span: nat := maximum - minimum + 1;
      var limit := TWO_64 - TWO_64 % span;
      DrawSpecified(word, position, span, fuel);
      var attempts := 0;
      while attempts < fuel
        invariant Valid() && attempts <= fuel
        invariant Draw(word, position, span, fuel - attempts) == Draw(word, old(position), span, fuel)
      {
        var eight := Bytes(8);
        var value := Value(eight.value);
        if value < limit {
          return Ok(Some(minimum + value % span));
        }
        attempts := attempts + 1;
      }
      return Ok(None);
    }

    /** One round of the shuffle: exchanges value `n - 1` with a drawn target. */
    method SettleLast<T>(values: array<T>, n: nat, fuel: nat) returns (drawn: bool)
      requires Valid() && 1 < n <= values.Length
      modifies this, values
      ensures Valid() && multiset(values[..]) == multiset(old(values[..]))
      ensures Unsettled(word, old(position), old(values[..]), n, fuel)
        == if drawn then Unsettled(word, position, values[..], n - 1, fuel) else None
    {
      ghost var p0, before := position, values[..];
      ShuffleRound(word, p0, before, n, fuel);
      var target := RandInt(0, n - 1, fuel);
      assert values[..] == before;
      if target.value.None? {
        assert Draw(word, p0, n, fuel).None?;
        return false;
      }
      assert Draw(word, p0, n, fuel).Some?;
      SwapInPlace(values, n - 1, target.value.value);
      assert values[..] == FisherYates.Swap(before, n - 1, target.value.value);
      return true;
    }

    /** Permutes in place; `done` tells whether every draw was accepted in time. */
    method Shuffle<T>(values: array<T>, fuel: nat) returns (done: bool)
      requires Valid()
      modifies this, values
      ensures Valid() && multiset(values[..]) == multiset(old(values[..]))
      ensures match Shuffled(word, old(position), old(values[..]), fuel)
        case None => !done
        case Some(drawn) => done && values[..] == drawn.value && position == drawn.position
    {
      ghost var whole := Shuffled(word, position, values[..], fuel);
      var n: nat := values.Length;
      AllOrNothingUnsettled(word, position, values[..], n, fuel);
      while n > 1
        invariant n <= values.Length && Valid()
        invariant multiset(values[..]) == multiset(old(values[..]))
        invariant Unsettled(word, position, values[..], n, fuel) == whole
      {
        var drawn := SettleLast(values, n, fuel);
        if !drawn {
          return false;
        }
        n := n - 1;
      }
      AllOrNothingUnsettled(word, position, values[..], n, fuel);
      return true;
    }
  }

  /** `(word >> 11) / 2**53`. */
  function Fraction(word: nat): real {
    (word / 2048) as real / TWO_53 as real
  }

  /** The fraction is the word over 2^64, cut to a multiple of 2^-53. */
  lemma FractionBounds(word: nat)
    ensures Fraction(word) * TWO_64 as real <= word as real < Fraction(word) * TWO_64 as real + 2048.0
  {
    var top := word / 2048;
    assert Fraction(word) * TWO_64 as real == (top * 2048) as real;
  }

  method SwapInPlace<T>(values: array<T>, i: nat, j: nat)
    requires i < values.Length && j < values.Length
    modifies values
    ensures values[..] == FisherYates.Swap(old(values[..]), i, j)
    ensures multiset(values[..]) == multiset(old(values[..]))
  {
    ghost var before := values[..];
    values[i], values[j] := values[j], values[i];
    assert values[..] == FisherYates.Swap(before, i, j);
    FisherYates.SwapPermutes(before, i, j);
  }
}
