/** Rocket-rocket collision: an axis-aligned box test of two 50 by 50 boxes and
    the scan over every unordered pair of rockets. The game detects collisions
    here but takes no action on them, so the scan reports the colliding pairs. */
module Collision {
  import opened Geometry

  /** Side length of the square box around each rocket. */
  const BOX_SIZE: real := 50.0

  /** Whether the boxes centred on the two translations overlap; boxes that
      only touch along an edge count as overlapping. */
  predicate AreRocketsColliding(a: Transform, b: Transform)
  {
    var aMin := Vec2(a.translation.x - BOX_SIZE / 2.0, a.translation.y - BOX_SIZE / 2.0);
    var aMax := Vec2(a.translation.x + BOX_SIZE / 2.0, a.translation.y + BOX_SIZE / 2.0);
    var bMin := Vec2(b.translation.x - BOX_SIZE / 2.0, b.translation.y - BOX_SIZE / 2.0);
    var bMax := Vec2(b.translation.x + BOX_SIZE / 2.0, b.translation.y + BOX_SIZE / 2.0);
    !(aMax.x < bMin.x || aMin.x > bMax.x || aMax.y < bMin.y || aMin.y > bMax.y)
  }

  /** The box test is a distance test per axis: centres at most 50 apart on both x and y. */
  lemma CollidingIffClose(a: Transform, b: Transform)
    ensures AreRocketsColliding(a, b) <==>
      Abs(a.translation.x - b.translation.x) <= BOX_SIZE && Abs(a.translation.y - b.translation.y) <= BOX_SIZE
  {
  }

  /** The test does not depend on the order of its arguments. */
  lemma CollidingSymmetric(a: Transform, b: Transform)
    ensures AreRocketsColliding(a, b) == AreRocketsColliding(b, a)
  {
  }

  /** Two rockets at the same place always collide, whatever their headings. */
  lemma CollidingWhenCoincident(a: Transform, b: Transform)
    requires Truncate(a.translation) == Truncate(b.translation)
    ensures AreRocketsColliding(a, b)
  {
  }

  /** The pairs (i, j) for j from `from` to n - 1: one row of the inner loop. */
  function Row(i: nat, from: nat, n: nat): seq<(nat, nat)>
    decreases n - from
  {
    if n <= from then [] else [(i, from)] + Row(i, from + 1, n)
  }

  lemma {:induction false} RowAt(i: nat, from: nat, n: nat)
    ensures |Row(i, from, n)| == if from <= n then n - from else 0
    ensures forall k :: 0 <= k < |Row(i, from, n)| ==> Row(i, from, n)[k] == (i, from + k)
    decreases n - from
  {
    if from < n {
      RowAt(i, from + 1, n);
    }
  }

  /** The pairs the nested loop visits once its outer index has reached i, in visiting order. */
  function PairsFrom(i: nat, n: nat): seq<(nat, nat)>
    decreases n - i
  {
    if n <= i then [] else Row(i, i + 1, n) + PairsFrom(i + 1, n)
  }

  /** Strict lexicographic order on index pairs. */
  predicate PairLess(p: (nat, nat), q: (nat, nat))
  {
    p.0 < q.0 || (p.0 == q.0 && p.1 < q.1)
  }

  /** Every pair from outer index i onwards is an unordered pair i <= a < b < n, the
      pairs come in strictly increasing order (so none repeats), and every such
      pair is there. */
  lemma {:induction false} PairsFromExact(i: nat, n: nat)
    ensures forall k :: 0 <= k < |PairsFrom(i, n)| ==> i <= PairsFrom(i, n)[k].0 < PairsFrom(i, n)[k].1 < n
    ensures forall k, l :: 0 <= k < l < |PairsFrom(i, n)| ==> PairLess(PairsFrom(i, n)[k], PairsFrom(i, n)[l])
    ensures forall a, b :: i <= a < b < n ==> (a, b) in PairsFrom(i, n)
    decreases n - i
  {
    if i < n {
      PairsFromExact(i + 1, n);
      RowAt(i, i + 1, n);
      var row, rest := Row(i, i + 1, n), PairsFrom(i + 1, n);
      assert PairsFrom(i, n) == row + rest;
      forall a, b | i <= a < b < n
        ensures (a, b) in PairsFrom(i, n)
      {
        if a == i {
          assert row[b - i - 1] == (a, b);
        } else {
          assert (a, b) in rest;
        }
      }
    }
  }

  /** The visiting order of the whole scan over n rockets: each unordered pair of
      distinct indices exactly once, and nothing else. */
  lemma AllPairsOnce(n: nat)
    ensures forall k :: 0 <= k < |PairsFrom(0, n)| ==> PairsFrom(0, n)[k].0 < PairsFrom(0, n)[k].1 < n
    ensures forall k, l :: 0 <= k < l < |PairsFrom(0, n)| ==> PairsFrom(0, n)[k] != PairsFrom(0, n)[l]
    ensures forall i, j :: 0 <= i < j < n ==> (i, j) in PairsFrom(0, n)
  {
    PairsFromExact(0, n);
    var s := PairsFrom(0, n);
    forall k, l | 0 <= k < l < |s|
      ensures s[k] != s[l]
    {
      assert PairLess(s[k], s[l]);
    }
  }

  lemma AppendAssoc<T>(a: seq<T>, b: seq<T>, c: seq<T>)
    ensures (a + b) + c == a + (b + c)
  {
  }

  /** The collision scan visits every unordered pair i < j exactly once, never a
      rocket with itself, and reports exactly the pairs whose boxes overlap. */
  method CheckCollision(rockets: seq<Transform>) returns (visited: seq<(nat, nat)>, colliding: set<(nat, nat)>)
    ensures visited == PairsFrom(0, |rockets|)
    ensures forall k :: 0 <= k < |visited| ==> visited[k].0 < visited[k].1 < |rockets|
    ensures forall k, l :: 0 <= k < l < |visited| ==> visited[k] != visited[l]
    ensures forall i, j :: 0 <= i < j < |rockets| ==> (i, j) in visited
    ensures forall p :: p in colliding <==>
      p in visited && AreRocketsColliding(rockets[p.0], rockets[p.1])
  {
    var n := |rockets|;
    visited := [];
    colliding := {};
    for i := 0 to n
      invariant visited + PairsFrom(i, n) == PairsFrom(0, n)
      invariant forall p :: p in visited ==> p.0 < p.1 < n
      invariant forall p :: p in colliding <==> p in visited && AreRocketsColliding(rockets[p.0], rockets[p.1])
    {
      assert PairsFrom(i, n) == Row(i, i + 1, n) + PairsFrom(i + 1, n);
      AppendAssoc(visited, Row(i, i + 1, n), PairsFrom(i + 1, n));
      for j := i + 1 to n
        invariant visited + Row(i, j, n) + PairsFrom(i + 1, n) == PairsFrom(0, n)
        invariant forall p :: p in visited ==> p.0 < p.1 < n
        invariant forall p :: p in colliding <==> p in visited && AreRocketsColliding(rockets[p.0], rockets[p.1])
      {
        assert Row(i, j, n) == [(i, j)] + Row(i, j + 1, n);
        AppendAssoc(visited, [(i, j)], Row(i, j + 1, n));
        if AreRocketsColliding(rockets[i], rockets[j]) {
          colliding := colliding + {(i, j)};
        }
        visited := visited + [(i, j)];
      }
      assert Row(i, n, n) == [];
    }
    assert PairsFrom(n, n) == [];
    assert visited == PairsFrom(0, n);
    AllPairsOnce(n);
  }
}
