/**
 The shape of the tree of app/blockchain/ethereum/merkle.py for any node type and any pairing
 function: an odd layer is padded with a copy of its last node, and a proof lists one sibling
 per layer.
 */
module MerkleTree {

  datatype Step<D> = Step(sibling: D, onLeft: bool)

  /** The node of a padded layer: an index one past the end reads the last node again. */
  function At<D>(layer: seq<D>, i: nat): D
    requires layer != []
  {
    if i < |layer| then layer[i] else layer[|layer| - 1]
  }

  /** One round of pairing. */
  function NextLayer<D>(h: (D, D) -> D, layer: seq<D>): (next: seq<D>)
    requires layer != []
    ensures |next| == (|layer| + 1) / 2
    decreases |layer|
  {
    if |layer| <= 2 then [h(layer[0], At(layer, 1))]
    else [h(layer[0], layer[1])] + NextLayer(h, layer[2..])
  }

  lemma {:induction false} NextLayerAt<D>(h: (D, D) -> D, layer: seq<D>, k: nat)
    requires layer != [] && k < (|layer| + 1) / 2
    ensures NextLayer(h, layer)[k] == h(At(layer, 2 * k), At(layer, 2 * k + 1))
    decreases |layer|
  {
    if k == 0 {
    } else {
      NextLayerAt(h, layer[2..], k - 1);
    }
  }

  function Root<D>(h: (D, D) -> D, layer: seq<D>): D
    requires layer != []
    decreases |layer|
  {
    if |layer| == 1 then layer[0] else Root(h, NextLayer(h, layer))
  }

  /** The number of rounds, hence of proof steps, for `n` leaves. */
  function Height(n: nat): nat
    requires n >= 1
  {
    if n == 1 then 0 else 1 + Height((n + 1) / 2)
  }

  function Width(n: nat, level: nat): (w: nat)
    requires n >= 1
    ensures w >= 1
  {
    if level == 0 then n else (Width(n, level - 1) + 1) / 2
  }

  function Clamp(i: nat, width: nat): nat
    requires width >= 1
  {
    if i < width then i else width - 1
  }

  /** The tree read from the top: node `i` of a level, its index clamped to the level's width. */
  function Node<D>(h: (D, D) -> D, leaves: seq<D>, level: nat, i: nat): D
    requires leaves != []
    decreases level
  {
    var k := Clamp(i, Width(|leaves|, level));
    if level == 0 then leaves[k]
    else h(Node(h, leaves, level - 1, 2 * k), Node(h, leaves, level - 1, 2 * k + 1))
  }

  function SiblingOf(i: nat): nat {
    if i % 2 == 1 then i - 1 else i + 1
  }

  function ProofStepAt<D>(layer: seq<D>, index: nat): Step<D>
    requires layer != []
  {
    Step(At(layer, SiblingOf(index)), SiblingOf(index) < index)
  }

  function Proof<D>(h: (D, D) -> D, layer: seq<D>, index: nat): (proof: seq<Step<D>>)
    requires index < |layer|
    ensures |proof| == Height(|layer|)
    decreases |layer|
  {
    if |layer| == 1 then []
    else [ProofStepAt(layer, index)] + Proof(h, NextLayer(h, layer), index / 2)
  }

  /** The two children a step pairs, left one first. */
  function Children<D>(current: D, step: Step<D>): (D, D) {
    if step.onLeft then (step.sibling, current) else (current, step.sibling)
  }

  function Combine<D>(h: (D, D) -> D, current: D, step: Step<D>): D {
    var (left, right) := Children(current, step);
    h(left, right)
  }

  function Climb<D>(h: (D, D) -> D, current: D, proof: seq<Step<D>>): D
    decreases |proof|
  {
    if proof == [] then current else Climb(h, Combine(h, current, proof[0]), proof[1..])
  }

  lemma ProofUnfold<D>(h: (D, D) -> D, layer: seq<D>, index: nat, before: seq<Step<D>>)
    requires index < |layer| && |layer| > 1
    ensures before + Proof(h, layer, index)
      == before + [ProofStepAt(layer, index)] + Proof(h, NextLayer(h, layer), index / 2)
  {
  }

  lemma ClimbUnfold<D>(h: (D, D) -> D, current: D, step: Step<D>, rest: seq<Step<D>>)
    ensures Climb(h, current, [step] + rest) == Climb(h, Combine(h, current, step), rest)
  {
    assert ([step] + rest)[1..] == rest;
  }

  /*** The tree, bottom up and top down ***/

  lemma {:induction false} WidthShift(n: nat, level: nat)
    requires n >= 1
    ensures Width((n + 1) / 2, level) == Width(n, level + 1)
  {
    if level == 0 {
    } else {
      WidthShift(n, level - 1);
    }
  }

  /** `next` holds the parents of `layer`, node by node. */
  predicate IsNextLayer<D(==)>(h: (D, D) -> D, layer: seq<D>, next: seq<D>) {
    && layer != []
    && |next| == (|layer| + 1) / 2
    && forall k :: 0 <= k < |next| ==> next[k] == h(At(layer, 2 * k), At(layer, 2 * k + 1))
  }

  lemma NextLayerIsNext<D>(h: (D, D) -> D, layer: seq<D>)
    requires layer != []
    ensures IsNextLayer(h, layer, NextLayer(h, layer))
  {
    forall k | 0 <= k < (|layer| + 1) / 2 {
      NextLayerAt(h, layer, k);
    }
  }

  lemma NodeShiftBase<D>(h: (D, D) -> D, leaves: seq<D>, next: seq<D>, i: nat)
    requires IsNextLayer(h, leaves, next)
    ensures Node(h, next, 0, i) == Node(h, leaves, 1, i)
  {
    var k := Clamp(i, |next|);
    assert Node(h, leaves, 0, 2 * k) == At(leaves, 2 * k);
    assert Node(h, leaves, 0, 2 * k + 1) == At(leaves, 2 * k + 1);
  }

  lemma NodeShiftStep<D>(h: (D, D) -> D, leaves: seq<D>, next: seq<D>, level: nat, i: nat, k: nat)
    requires leaves != [] && next != [] && level > 0 && Width(|next|, level) == Width(|leaves|, level + 1)
    requires k == Clamp(i, Width(|next|, level))
    requires Node(h, next, level - 1, 2 * k) == Node(h, leaves, level, 2 * k)
    requires Node(h, next, level - 1, 2 * k + 1) == Node(h, leaves, level, 2 * k + 1)
    ensures Node(h, next, level, i) == Node(h, leaves, level + 1, i)
  {
  }

  lemma {:induction false} NodeShift<D>(h: (D, D) -> D, leaves: seq<D>, next: seq<D>, level: nat, i: nat)
    requires IsNextLayer(h, leaves, next)
    ensures Node(h, next, level, i) == Node(h, leaves, level + 1, i)
    decreases level
  {
    if level == 0 {
      NodeShiftBase(h, leaves, next, i);
    } else {
      var k := Clamp(i, Width(|next|, level));
      WidthShift(|leaves|, level);
      NodeShift(h, leaves, next, level - 1, 2 * k);
      NodeShift(h, leaves, next, level - 1, 2 * k + 1);
      NodeShiftStep(h, leaves, next, level, i, k);
    }
  }

  /** Pairing layers up to the root computes the top node of the clamped-index tree. */
  lemma {:induction false} RootIsTopNode<D>(h: (D, D) -> D, leaves: seq<D>)
    requires leaves != []
    ensures Root(h, leaves) == Node(h, leaves, Height(|leaves|), 0)
    decreases |leaves|
  {
    if |leaves| <= 1 {
    } else {
      var next := NextLayer(h, leaves);
      RootIsTopNode(h, next);
      NextLayerIsNext(h, leaves);
      NodeShift(h, leaves, next, Height(|next|), 0);
    }
  }

  /*** Completeness ***/

  lemma HonestStep<D>(h: (D, D) -> D, layer: seq<D>, index: nat)
    requires index < |layer|
    ensures NextLayer(h, layer)[index / 2] == Combine(h, layer[index], ProofStepAt(layer, index))
  {
    var k := index / 2;
    NextLayerAt(h, layer, k);
    if index % 2 == 1 {
      assert index == 2 * k + 1 && SiblingOf(index) == 2 * k;
    } else {
      assert index == 2 * k && SiblingOf(index) == 2 * k + 1;
    }
  }

  /** Every generated proof climbs from its leaf to the root. */
  lemma {:induction false} ProofClimbsToRoot<D>(h: (D, D) -> D, layer: seq<D>, index: nat)
    requires index < |layer|
    ensures Climb(h, layer[index], Proof(h, layer, index)) == Root(h, layer)
    decreases |layer|
  {
    if |layer| <= 1 {
    } else {
      var proof := Proof(h, layer, index);
      assert proof[1..] == Proof(h, NextLayer(h, layer), index / 2);
      HonestStep(h, layer, index);
      ProofClimbsToRoot(h, NextLayer(h, layer), index / 2);
    }
  }

  /** The index whose binary digits, lowest first, are the proof's direction bits. */
  function IndexOf<D>(proof: seq<Step<D>>): nat {
    if proof == [] then 0 else (if proof[0].onLeft then 1 else 0) + 2 * IndexOf(proof[1..])
  }

  lemma {:induction false} DirectionsSpellIndex<D>(h: (D, D) -> D, layer: seq<D>, index: nat)
    requires index < |layer|
    ensures IndexOf(Proof(h, layer, index)) == index
    decreases |layer|
  {
    if |layer| <= 1 {
    } else {
      assert Proof(h, layer, index)[1..] == Proof(h, NextLayer(h, layer), index / 2);
      DirectionsSpellIndex(h, NextLayer(h, layer), index / 2);
    }
  }

  /*** Binding ***/

  predicate PairCollides<D(==)>(h: (D, D) -> D, a: (D, D), b: (D, D)) {
    a != b && h(a.0, a.1) == h(b.0, b.1)
  }

  predicate SameShape<D>(a: seq<Step<D>>, b: seq<Step<D>>) {
    |a| == |b| && forall i :: 0 <= i < |a| ==> a[i].onLeft == b[i].onLeft
  }

  /** Walks a foreign leaf up beside the honest one and returns the first two pairs of children
      that differ while their parents agree. */
  function ClimbCollision<D(==)>(h: (D, D) -> D, layer: seq<D>, index: nat, leaf: D, proof: seq<Step<D>>)
    : ((D, D), (D, D))
    requires index < |layer| && |proof| == Height(|layer|)
    decreases |layer|
  {
    if |layer| == 1 then ((leaf, leaf), (leaf, leaf))
    else
      var honest := Children(layer[index], ProofStepAt(layer, index));
      var mine := Children(leaf, proof[0]);
      var next := NextLayer(h, layer);
      if Combine(h, leaf, proof[0]) == next[index / 2] && mine != honest then (mine, honest)
      else ClimbCollision(h, next, index / 2, Combine(h, leaf, proof[0]), proof[1..])
  }

  /** A proof with the length and directions of the generated one that reaches the root is the
      generated one, for the leaf it was generated for; otherwise the two climbs exhibit a
      collision of the pairing function. */
  lemma {:induction false} ProofBinding<D>(h: (D, D) -> D, layer: seq<D>, index: nat, leaf: D, proof: seq<Step<D>>)
    requires index < |layer|
    requires SameShape(proof, Proof(h, layer, index))
    requires Climb(h, leaf, proof) == Root(h, layer)
    ensures var (mine, honest) := ClimbCollision(h, layer, index, leaf, proof);
      (leaf == layer[index] && proof == Proof(h, layer, index)) || PairCollides(h, mine, honest)
    decreases |layer|
  {
    var generated := Proof(h, layer, index);
    if |layer| == 1 {
      assert proof == generated;
    } else {
      assert generated[0] == ProofStepAt(layer, index);
      var next := NextLayer(h, layer);
      assert generated[1..] == Proof(h, next, index / 2);
      HonestStep(h, layer, index);
      assert SameShape(proof[1..], generated[1..]) by {
        assert forall i :: 0 <= i < |generated| - 1 ==>
          proof[1..][i] == proof[i + 1] && generated[1..][i] == generated[i + 1];
      }
      ProofBinding(h, next, index / 2, Combine(h, leaf, proof[0]), proof[1..]);
      assert proof == [proof[0]] + proof[1..] && generated == [generated[0]] + generated[1..];
    }
  }

  /** The first index at which two layers of equal length differ, or their length. */
  function FirstDifference<D(==)>(a: seq<D>, b: seq<D>): (k: nat)
    requires |a| == |b|
    ensures k <= |a| && (k < |a| ==> a[k] != b[k]) && (k == |a| ==> a == b)
  {
    if a == [] || a[0] != b[0] then 0
    else
      assert a == [a[0]] + a[1..] && b == [b[0]] + b[1..];
      1 + FirstDifference(a[1..], b[1..])
  }

  function RootCollision<D(==)>(h: (D, D) -> D, a: seq<D>, b: seq<D>): ((D, D), (D, D))
    requires a != [] && |a| == |b|
    decreases |a|
  {
    if |a| == 1 then ((a[0], a[0]), (a[0], a[0]))
    else
      var nextA, nextB := NextLayer(h, a), NextLayer(h, b);
      if nextA == nextB then
        var e := FirstDifference(a, b) / 2 * 2;
        ((At(a, e), At(a, e + 1)), (At(b, e), At(b, e + 1)))
      else RootCollision(h, nextA, nextB)
  }

  /** Two leaf lists of one length with one root are the same list, or yield a collision. */
  lemma {:induction false} RootBinding<D>(h: (D, D) -> D, a: seq<D>, b: seq<D>)
    requires a != [] && |a| == |b| && Root(h, a) == Root(h, b)
    ensures var (left, right) := RootCollision(h, a, b);
      a == b || PairCollides(h, left, right)
    decreases |a|
  {
    if |a| == 1 {
      assert a == b;
    } else {
      var nextA, nextB := NextLayer(h, a), NextLayer(h, b);
      if nextA != nextB {
        RootBinding(h, nextA, nextB);
      } else {
        var k := FirstDifference(a, b);
        if k < |a| {
          NextLayerAt(h, a, k / 2);
          NextLayerAt(h, b, k / 2);
        }
      }
    }
  }

  /** Equal length cannot be dropped: padding makes an odd list and the same list with its last
      leaf repeated share their root, whatever the pairing function. */
  lemma RepeatedLastLeafKeepsRoot<D>(h: (D, D) -> D, leaves: seq<D>)
    requires |leaves| % 2 == 1 && |leaves| > 1
    ensures Root(h, leaves + [leaves[|leaves| - 1]]) == Root(h, leaves)
  {
    var longer := leaves + [leaves[|leaves| - 1]];
    forall k: nat | k < (|leaves| + 1) / 2
      ensures NextLayer(h, longer)[k] == NextLayer(h, leaves)[k]
    {
      NextLayerAt(h, longer, k);
      NextLayerAt(h, leaves, k);
    }
    assert NextLayer(h, longer) == NextLayer(h, leaves);
  }

  /** `x` paired with itself, `height` times over. */
  function Tower<D>(h: (D, D) -> D, x: D, height: nat): D {
    if height == 0 then x else Tower(h, h(x, x), height - 1)
  }

  lemma {:induction false} TowerOfTower<D>(h: (D, D) -> D, x: D, a: nat, b: nat)
    ensures Tower(h, Tower(h, x, a), b) == Tower(h, x, a + b)
  {
    if a == 0 {
    } else {
      TowerOfTower(h, h(x, x), a - 1, b);
    }
  }

  function Copies<D>(x: D, n: nat): (leaves: seq<D>)
    ensures |leaves| == n && forall i :: 0 <= i < n ==> leaves[i] == x
  {
    seq(n, _ => x)
  }

  lemma PairedCopies<D>(h: (D, D) -> D, x: D, n: nat)
    requires n >= 1
    ensures NextLayer(h, Copies(x, n)) == Copies(h(x, x), (n + 1) / 2)
  {
    var next := NextLayer(h, Copies(x, n));
    forall k | 0 <= k < |next| ensures next[k] == h(x, x) {
      NextLayerAt(h, Copies(x, n), k);
    }
    assert next == Copies(h(x, x), (n + 1) / 2);
  }

  lemma {:induction false} RootOfCopies<D>(h: (D, D) -> D, x: D, n: nat)
    requires n >= 1
    ensures Root(h, Copies(x, n)) == Tower(h, x, Height(n))
    decreases n
  {
    if n == 1 {
    } else {
      PairedCopies(h, x, n);
      RootOfCopies(h, h(x, x), (n + 1) / 2);
    }
  }

  /** Roots bind no two different lengths: whatever the pairing function, any two have leaf lists
      with one root. */
  lemma AnyLengthsShareRoot<D>(h: (D, D) -> D, x: D, n: nat, m: nat) returns (a: seq<D>, b: seq<D>)
    requires n >= 1 && m >= 1
    ensures |a| == n && |b| == m && Root(h, a) == Root(h, b)
  {
    var p, q := Height(n), Height(m);
    var low, high := Tower(h, x, if p < q then q - p else 0), Tower(h, x, if q < p then p - q else 0);
    a, b := Copies(low, n), Copies(high, m);
    RootOfCopies(h, low, n);
    RootOfCopies(h, high, m);
    TowerOfTower(h, x, if p < q then q - p else 0, p);
    TowerOfTower(h, x, if q < p then p - q else 0, q);
  }

  /*** Proofs of any shape ***/

  /** The node of its level at which a proof starts, by its directions, read from the root down. */
  function Start<D>(n: nat, level: nat, proof: seq<Step<D>>): nat
    requires n >= 1
    decreases |proof|
  {
    if proof == [] then 0
    else
      2 * Clamp(Start(n, level + 1, proof[1..]), Width(n, level + 1)) + (if proof[0].onLeft then 1 else 0)
  }

  /** Where a climb that ends at the root first meets the tree, as a pair of pairs of children. */
  function PathCollision<D(==)>(h: (D, D) -> D, leaves: seq<D>, level: nat, value: D, proof: seq<Step<D>>)
    : ((D, D), (D, D))
    requires leaves != [] && proof != []
    decreases |proof|
  {
    var above := Start(|leaves|, level + 1, proof[1..]);
    var parent := Combine(h, value, proof[0]);
    if parent == Node(h, leaves, level + 1, above) || |proof| == 1 then
      var k := Clamp(above, Width(|leaves|, level + 1));
      (Children(value, proof[0]), (Node(h, leaves, level, 2 * k), Node(h, leaves, level, 2 * k + 1)))
    else PathCollision(h, leaves, level + 1, parent, proof[1..])
  }

  /** A parent of the tree has the children of the tree, or collides with them. */
  lemma ChildOfNode<D>(h: (D, D) -> D, leaves: seq<D>, level: nat, above: nat, value: D, step: Step<D>)
    requires leaves != [] && Combine(h, value, step) == Node(h, leaves, level + 1, above)
    ensures var k := Clamp(above, Width(|leaves|, level + 1));
      || value == Node(h, leaves, level, 2 * k + (if step.onLeft then 1 else 0))
      || PairCollides(h, Children(value, step), (Node(h, leaves, level, 2 * k), Node(h, leaves, level, 2 * k + 1)))
  {
    var k := Clamp(above, Width(|leaves|, level + 1));
    assert Node(h, leaves, level + 1, above) == h(Node(h, leaves, level, 2 * k), Node(h, leaves, level, 2 * k + 1));
  }

  /** Any proof that reaches the root, whatever its length up to the height and whatever its
      directions, starts at a node of the tree: the one that its directions lead to, as many levels
      below the root as it has steps. Otherwise the climb exhibits a collision. */
  lemma {:induction false} AnyProofBinding<D>(h: (D, D) -> D, leaves: seq<D>, level: nat, value: D, proof: seq<Step<D>>)
    requires leaves != [] && level + |proof| == Height(|leaves|)
    requires Climb(h, value, proof) == Root(h, leaves)
    ensures value == Node(h, leaves, level, Start(|leaves|, level, proof))
      || (proof != [] && PairCollides(h, PathCollision(h, leaves, level, value, proof).0,
                                      PathCollision(h, leaves, level, value, proof).1))
    decreases |proof|
  {
    if proof == [] {
      RootIsTopNode(h, leaves);
    } else {
      var above := Start(|leaves|, level + 1, proof[1..]);
      AnyProofBinding(h, leaves, level + 1, Combine(h, value, proof[0]), proof[1..]);
      if Combine(h, value, proof[0]) == Node(h, leaves, level + 1, above) {
        ChildOfNode(h, leaves, level, above, value, proof[0]);
      }
    }
  }

  /** And every shorter tail of a generated proof is accepted, for an inner node in place of a leaf:
      nothing tells leaves and inner nodes apart. */
  lemma {:induction false} InnerNodePasses<D>(h: (D, D) -> D, layer: seq<D>, index: nat, level: nat) returns (i: nat)
    requires index < |layer| && level <= Height(|layer|)
    ensures Climb(h, Node(h, layer, level, i), Proof(h, layer, index)[level..]) == Root(h, layer)
    decreases level
  {
    if level == 0 {
      i := index;
      ProofClimbsToRoot(h, layer, index);
      assert Proof(h, layer, index)[0..] == Proof(h, layer, index);
    } else {
      var next := NextLayer(h, layer);
      i := InnerNodePasses(h, next, index / 2, level - 1);
      NextLayerIsNext(h, layer);
      NodeShift(h, layer, next, level - 1, i);
      assert Proof(h, layer, index)[level..] == Proof(h, next, index / 2)[level - 1..];
    }
  }
}
