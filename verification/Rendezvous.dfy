/**
 * Weighted rendezvous hashing (baselib/base/config/rendezvous_hash.cc and .h), over the reals.
 *
 * The two hash functions and std::pow are library code; they are parameters here, and Lawful states what is used of
 * them. Each law is wrapped in a predicate of its own so that it is applied only where a proof names it.
 */
module Rendezvous {
  const U64: nat := 0x1_0000_0000_0000_0000
  const MAX_HASH: real := 18446744073709551615.0
  const EPSILON: real := 1.0 / 4503599627370496.0

  datatype Library = Library(nameHash: string -> nat, mixHash: nat -> nat, pow: (real, real) -> real)

  /** A node's hash and weight. */
  datatype Node = Node(hash: nat, weight: real)

  // ----- the library's laws -----

  ghost predicate HashLaw(lib: Library, x: nat) { lib.mixHash(x) < U64 }

  ghost predicate EndsLaw(lib: Library, a: real) { a > 0.0 ==> lib.pow(0.0, a) == 0.0 && lib.pow(1.0, a) == 1.0 }

  ghost predicate FirstPowerLaw(lib: Library, x: real) { x >= 0.0 ==> lib.pow(x, 1.0) == x }

  ghost predicate GrowthLaw(lib: Library, x: real, y: real, a: real) {
    0.0 <= x < y && a > 0.0 ==> lib.pow(x, a) < lib.pow(y, a)
  }

  ghost predicate ProductLaw(lib: Library, x: real, a: real, b: real, product: real) {
    x >= 0.0 && a > 0.0 && b > 0.0 && product == a * b ==> lib.pow(lib.pow(x, a), b) == lib.pow(x, product)
  }

  ghost predicate SumLaw(lib: Library, x: real, a: real, b: real, sum: real) {
    x >= 0.0 && a > 0.0 && b > 0.0 && sum == a + b ==> lib.pow(x, sum) == lib.pow(x, a) * lib.pow(x, b)
  }

  ghost predicate Lawful(lib: Library) {
    && (forall x :: HashLaw(lib, x)) && (forall a :: EndsLaw(lib, a)) && (forall x :: FirstPowerLaw(lib, x))
    && (forall x, y, a :: GrowthLaw(lib, x, y, a))
    && (forall x, a, b, c :: ProductLaw(lib, x, a, b, c)) && (forall x, a, b, c :: SumLaw(lib, x, a, b, c))
  }

  lemma PowOrder(lib: Library, x: real, y: real, a: real)
    requires Lawful(lib) && x >= 0.0 && y >= 0.0 && a > 0.0
    ensures lib.pow(x, a) < lib.pow(y, a) <==> x < y
  {
    assert GrowthLaw(lib, x, y, a) && GrowthLaw(lib, y, x, a);
  }

  lemma PowInUnit(lib: Library, x: real, a: real)
    requires Lawful(lib) && 0.0 <= x <= 1.0 && a > 0.0
    ensures 0.0 <= lib.pow(x, a) <= 1.0 && (lib.pow(x, a) == 0.0 <==> x == 0.0)
  {
    assert EndsLaw(lib, a);
    PowOrder(lib, 0.0, x, a);
    PowOrder(lib, 1.0, x, a);
    PowOrder(lib, x, 1.0, a);
  }

  /** On the unit interval a larger exponent gives a smaller power. */
  lemma PowExponent(lib: Library, x: real, a: real, b: real)
    requires Lawful(lib) && 0.0 <= x <= 1.0 && 0.0 < a < b
    ensures lib.pow(x, b) <= lib.pow(x, a)
  {
    PowInUnit(lib, x, a);
    PowInUnit(lib, x, b - a);
    assert SumLaw(lib, x, a, b - a, b);
    Shrinks(lib.pow(x, a), lib.pow(x, b - a));
  }

  lemma Shrinks(p: real, q: real)
    requires p >= 0.0 && 0.0 <= q <= 1.0
    ensures p * q <= p
  {
  }

  // ----- scores -----

  /** The node's hash for a key, scaled to the unit interval. The sum of hash and key wraps at 64 bits. */
  function Scaled(lib: Library, n: Node, key: nat): real {
    lib.mixHash((n.hash + key) % U64) as real / MAX_HASH
  }

  lemma ScaledInUnit(lib: Library, n: Node, key: nat)
    requires Lawful(lib)
    ensures 0.0 <= Scaled(lib, n, key) <= 1.0
  {
    assert HashLaw(lib, (n.hash + key) % U64);
  }

  function Score(lib: Library, n: Node, key: nat): real {
    if n.weight > EPSILON then lib.pow(Scaled(lib, n, key), 1.0 / n.weight) else 0.0
  }

  lemma ScoreNonNegative(lib: Library, n: Node, key: nat)
    requires Lawful(lib)
    ensures Score(lib, n, key) >= 0.0
  {
    ScaledInUnit(lib, n, key);
    if n.weight > EPSILON { PowInUnit(lib, Scaled(lib, n, key), 1.0 / n.weight); }
  }

  function Scores(lib: Library, nodes: seq<Node>, key: nat): seq<real> {
    seq(|nodes|, i requires 0 <= i < |nodes| => Score(lib, nodes[i], key))
  }

  /** The least index that attains the maximum; 0 for no nodes. */
  ghost predicate IsChoice(scores: seq<real>, r: nat) {
    if scores == [] then r == 0
    else
      && r < |scores| && (forall j :: 0 <= j < |scores| ==> scores[j] <= scores[r])
      && (forall j :: 0 <= j < r ==> scores[j] < scores[r])
  }

  lemma ChoiceUnique(scores: seq<real>, r: nat, r': nat)
    requires IsChoice(scores, r) && IsChoice(scores, r')
    ensures r == r'
  {
    if scores != [] {
      assert scores[r] <= scores[r'] && scores[r'] <= scores[r];
    }
  }

  // ----- normalisation -----

  function Total(nodes: seq<Node>): real {
    if nodes == [] then 0.0 else Total(nodes[..|nodes| - 1]) + nodes[|nodes| - 1].weight
  }

  function Normalised(nodes: seq<Node>): seq<Node>
    requires Total(nodes) != 0.0
  {
    seq(|nodes|, i requires 0 <= i < |nodes| => Node(nodes[i].hash, nodes[i].weight / Total(nodes)))
  }

  predicate NonNegative(nodes: seq<Node>) { forall i :: 0 <= i < |nodes| ==> nodes[i].weight >= 0.0 }

  /** What the constructor accepts. */
  predicate Acceptable(nodes: seq<Node>) { NonNegative(nodes) && Total(nodes) >= EPSILON }

  /** The node's weight survives the cut-off when the weights add up to total. */
  predicate Kept(n: Node, total: real) { n.weight > EPSILON * total }

  /** The score by the weight as given, without normalisation. */
  function RawScore(lib: Library, n: Node, total: real, key: nat): real
    requires total > 0.0
  {
    if Kept(n, total) then KeptPositive(n, total); lib.pow(Scaled(lib, n, key), 1.0 / n.weight) else 0.0
  }

  lemma KeptPositive(n: Node, total: real)
    requires total > 0.0 && Kept(n, total)
    ensures n.weight > 0.0
  {
    assert EPSILON * total > 0.0;
  }

  function RawScores(lib: Library, nodes: seq<Node>, total: real, key: nat): seq<real>
    requires total > 0.0
  {
    seq(|nodes|, i requires 0 <= i < |nodes| => RawScore(lib, nodes[i], total, key))
  }

  lemma QuotientKept(w: real, total: real)
    requires total > 0.0
    ensures w / total > EPSILON <==> w > EPSILON * total
    ensures w > 0.0 ==> 1.0 / (w / total) == (1.0 / w) * total
  {
    assert (w / total) * total == w;
    if w > 0.0 {
      assert w / total > 0.0;
      assert (1.0 / w) * total * (w / total) == 1.0;
    }
  }

  lemma PowRescaled(lib: Library, x: real, w: real, total: real)
    requires Lawful(lib) && x >= 0.0 && w > 0.0 && total > 0.0
    ensures w / total > 0.0 && lib.pow(x, 1.0 / (w / total)) == lib.pow(lib.pow(x, 1.0 / w), total)
  {
    QuotientKept(w, total);
    assert 1.0 / w > 0.0;
    assert ProductLaw(lib, x, 1.0 / w, total, 1.0 / (w / total));
  }

  /** Normalising the weights raises every raw score to the same power, the total weight. */
  lemma NormalisedScore(lib: Library, n: Node, total: real, key: nat)
    requires Lawful(lib) && total > 0.0
    ensures Score(lib, Node(n.hash, n.weight / total), key) == lib.pow(RawScore(lib, n, total, key), total)
    ensures RawScore(lib, n, total, key) >= 0.0
  {
    QuotientKept(n.weight, total);
    if Kept(n, total) {
      KeptPositive(n, total);
      ScaledInUnit(lib, n, key);
      PowInUnit(lib, Scaled(lib, n, key), 1.0 / n.weight);
      PowRescaled(lib, Scaled(lib, n, key), n.weight, total);
    } else {
      assert EndsLaw(lib, total);
    }
  }

  lemma NormalisedOrder(lib: Library, nodes: seq<Node>, key: nat, i: nat, j: nat)
    requires Lawful(lib) && Acceptable(nodes) && i < |nodes| && j < |nodes|
    ensures Total(nodes) > 0.0
    ensures Scores(lib, Normalised(nodes), key)[i] < Scores(lib, Normalised(nodes), key)[j]
       <==> RawScores(lib, nodes, Total(nodes), key)[i] < RawScores(lib, nodes, Total(nodes), key)[j]
  {
    var total := Total(nodes);
    NormalisedScore(lib, nodes[i], total, key);
    NormalisedScore(lib, nodes[j], total, key);
    PowOrder(lib, RawScore(lib, nodes[i], total, key), RawScore(lib, nodes[j], total, key), total);
  }

  lemma SameOrderSameChoice(a: seq<real>, b: seq<real>, r: nat)
    requires |a| == |b|
    requires forall i, j :: 0 <= i < |a| && 0 <= j < |a| ==> (a[i] < a[j] <==> b[i] < b[j])
    ensures IsChoice(a, r) <==> IsChoice(b, r)
  {
    if r < |a| {
      assert forall j :: 0 <= j < |a| ==> (a[r] < a[j] <==> b[r] < b[j]);
      assert forall j :: 0 <= j < |a| ==> (a[j] < a[r] <==> b[j] < b[r]);
    }
  }

  /** Normalisation never changes the choice: it is that by the raw weights, with the cut-off scaled to their total. */
  lemma NormalisationKeepsChoice(lib: Library, nodes: seq<Node>, key: nat, r: nat)
    requires Lawful(lib) && Acceptable(nodes)
    ensures Total(nodes) > 0.0
    ensures IsChoice(Scores(lib, Normalised(nodes), key), r) <==> IsChoice(RawScores(lib, nodes, Total(nodes), key), r)
  {
    var a, b := Scores(lib, Normalised(nodes), key), RawScores(lib, nodes, Total(nodes), key);
    forall i, j | 0 <= i < |a| && 0 <= j < |a| ensures a[i] < a[j] <==> b[i] < b[j] {
      NormalisedOrder(lib, nodes, key, i, j);
    }
    SameOrderSameChoice(a, b, r);
  }

  /** A node at or below the cut-off is not chosen while a node above it has a hash other than zero. */
  lemma CutOffNotChosen(lib: Library, nodes: seq<Node>, key: nat, r: nat, j: nat)
    requires Lawful(lib) && r < |nodes| && j < |nodes| && nodes[r].weight <= EPSILON < nodes[j].weight
    requires lib.mixHash((nodes[j].hash + key) % U64) != 0
    ensures !IsChoice(Scores(lib, nodes, key), r)
  {
    ScaledInUnit(lib, nodes[j], key);
    PowInUnit(lib, Scaled(lib, nodes[j], key), 1.0 / nodes[j].weight);
    assert Scores(lib, nodes, key)[j] > 0.0 == Scores(lib, nodes, key)[r];
  }

  // ----- what the scores are -----

  /** The hash of a node for a key, a 64-bit number. */
  function KeyHash(lib: Library, n: Node, key: nat): nat {
    lib.mixHash((n.hash + key) % 0x1_0000_0000_0000_0000)
  }

  lemma {:induction false} EqualTotal(nodes: seq<Node>, w: real)
    requires forall i :: 0 <= i < |nodes| ==> nodes[i].weight == w
    ensures Total(nodes) == |nodes| as real * w
    decreases |nodes|
  {
    if nodes != [] {
      var n := |nodes| - 1;
      EqualTotal(nodes[..n], w);
      assert (n + 1) as real * w == n as real * w + w;
    }
  }

  /** A node scores more than 0 exactly when its share of the total is above 2^-52 and its hash is not 0. */
  lemma PositiveExactly(lib: Library, nodes: seq<Node>, key: nat, i: nat)
    requires Lawful(lib) && Acceptable(nodes) && i < |nodes|
    ensures Score(lib, Normalised(nodes)[i], key) > 0.0
       <==> nodes[i].weight * 4503599627370496.0 > Total(nodes) && KeyHash(lib, nodes[i], key) != 0
  {
    var n, total := nodes[i], Total(nodes);
    NormalisedScore(lib, n, total, key);
    PowInUnitOrZero(lib, RawScore(lib, n, total, key), total);
    assert Kept(n, total) <==> n.weight * 4503599627370496.0 > total;
    if Kept(n, total) {
      KeptPositive(n, total);
      ScaledInUnit(lib, n, key);
      PowInUnit(lib, Scaled(lib, n, key), 1.0 / n.weight);
    }
  }

  lemma PowInUnitOrZero(lib: Library, x: real, a: real)
    requires Lawful(lib) && x >= 0.0 && a > 0.0
    ensures lib.pow(x, a) > 0.0 <==> x > 0.0
  {
    assert EndsLaw(lib, a);
    PowOrder(lib, 0.0, x, a);
  }

  /** With equal weights, of fewer than 2^52 nodes, the larger hash scores more. */
  lemma EqualWeightsOrder(lib: Library, nodes: seq<Node>, key: nat, i: nat, j: nat)
    requires Lawful(lib) && Acceptable(nodes) && |nodes| < 4503599627370496 && i < |nodes| && j < |nodes|
    requires forall k :: 0 <= k < |nodes| ==> nodes[k].weight == nodes[0].weight
    ensures Scores(lib, Normalised(nodes), key)[i] < Scores(lib, Normalised(nodes), key)[j]
       <==> KeyHash(lib, nodes[i], key) < KeyHash(lib, nodes[j], key)
  {
    EqualWeightsKept(nodes);
    NormalisedOrder(lib, nodes, key, i, j);
    ScaledInUnit(lib, nodes[i], key);
    ScaledInUnit(lib, nodes[j], key);
    KeptPositive(nodes[0], Total(nodes));
    PowOrder(lib, Scaled(lib, nodes[i], key), Scaled(lib, nodes[j], key), 1.0 / nodes[0].weight);
  }

  /** Fewer than 2^52 nodes of equal weight are all above the cut-off. */
  lemma EqualWeightsKept(nodes: seq<Node>)
    requires Acceptable(nodes) && |nodes| < 4503599627370496
    requires forall k :: 0 <= k < |nodes| ==> nodes[k].weight == nodes[0].weight
    ensures forall k :: 0 <= k < |nodes| ==> Kept(nodes[k], Total(nodes))
  {
    if nodes != [] {
      EqualTotal(nodes, nodes[0].weight);
      PartAboveCutOff(|nodes| as real, nodes[0].weight, Total(nodes));
    }
  }

  lemma PartAboveCutOff(count: real, w: real, total: real)
    requires 0.0 < count < 4503599627370496.0 && w >= 0.0 && total > 0.0 && total == count * w
    ensures w > EPSILON * total
  {
    if w == 0.0 {
      TimesZero(count);
    } else {
      PartBelowWhole(EPSILON * count, w);
      assert EPSILON * (count * w) == (EPSILON * count) * w;
    }
  }

  lemma TimesZero(x: real)
    ensures x * 0.0 == 0.0
  {
  }

  lemma PartBelowWhole(part: real, w: real)
    requires part < 1.0 && w > 0.0
    ensures part * w < w
  {
  }

  /** With equal weights the choice is the first node with the largest hash. */
  lemma EqualWeightsChoice(lib: Library, nodes: seq<Node>, key: nat, r: nat)
    requires Lawful(lib) && Acceptable(nodes) && |nodes| < 4503599627370496
    requires forall k :: 0 <= k < |nodes| ==> nodes[k].weight == nodes[0].weight
    ensures IsChoice(Scores(lib, Normalised(nodes), key), r) <==>
      && r < |nodes|
      && (forall j :: 0 <= j < |nodes| ==> KeyHash(lib, nodes[j], key) <= KeyHash(lib, nodes[r], key))
      && (forall j :: 0 <= j < r ==> KeyHash(lib, nodes[j], key) < KeyHash(lib, nodes[r], key))
  {
    var scores := Scores(lib, Normalised(nodes), key);
    if r < |nodes| {
      forall j | 0 <= j < |nodes|
        ensures scores[j] <= scores[r] <==> KeyHash(lib, nodes[j], key) <= KeyHash(lib, nodes[r], key)
        ensures scores[j] < scores[r] <==> KeyHash(lib, nodes[j], key) < KeyHash(lib, nodes[r], key)
      {
        EqualWeightsOrder(lib, nodes, key, j, r);
        EqualWeightsOrder(lib, nodes, key, r, j);
      }
    }
    assert nodes != [] by { assert Total(nodes) > 0.0; }
  }

  /** Normalised weights add up to 1. */
  lemma {:induction false} SharesTotal(nodes: seq<Node>, total: real)
    requires total > 0.0
    ensures Total(seq(|nodes|, i requires 0 <= i < |nodes| => Node(nodes[i].hash, nodes[i].weight / total)))
         == Total(nodes) / total
    decreases |nodes|
  {
    var shares := seq(|nodes|, i requires 0 <= i < |nodes| => Node(nodes[i].hash, nodes[i].weight / total));
    if nodes != [] {
      var n := |nodes| - 1;
      SharesTotal(nodes[..n], total);
      assert shares[..n] == seq(n, i requires 0 <= i < n => Node(nodes[..n][i].hash, nodes[..n][i].weight / total));
    }
  }

  lemma NormalisedTotal(nodes: seq<Node>)
    requires Acceptable(nodes)
    ensures Total(Normalised(nodes)) == 1.0
  {
    SharesTotal(nodes, Total(nodes));
  }

  // ----- changing the nodes -----

  function Removed(nodes: seq<Node>, k: nat): seq<Node>
    requires k < |nodes|
  {
    nodes[..k] + nodes[k + 1..]
  }

  /** Where node i stands once node k is gone. */
  function Shifted(i: nat, k: nat): nat
    requires i != k
  {
    if i < k then i else i - 1
  }

  lemma {:induction false} TotalRemoved(nodes: seq<Node>, k: nat)
    requires k < |nodes|
    ensures Total(Removed(nodes, k)) == Total(nodes) - nodes[k].weight
    decreases |nodes|
  {
    var n := |nodes| - 1;
    if k == n {
      assert Removed(nodes, k) == nodes[..n];
    } else {
      TotalRemoved(nodes[..n], k);
      var rest := Removed(nodes, k);
      assert rest[..|rest| - 1] == Removed(nodes[..n], k) && rest[|rest| - 1] == nodes[n];
    }
  }

  lemma {:induction false} TotalReplaced(nodes: seq<Node>, k: nat, m: Node)
    requires k < |nodes|
    ensures Total(nodes[k := m]) == Total(nodes) - nodes[k].weight + m.weight
    decreases |nodes|
  {
    var n := |nodes| - 1;
    if k == n {
      assert nodes[k := m][..n] == nodes[..n];
    } else {
      TotalReplaced(nodes[..n], k, m);
      assert nodes[k := m][..n] == nodes[..n][k := m];
    }
  }

  /** The cut-off moves down with the total and lets the node in. */
  predicate Lifted(n: Node, total: real, total': real) { !Kept(n, total) && Kept(n, total') }

  lemma KeptMonotone(n: Node, total: real, total': real)
    requires total' <= total && Kept(n, total)
    ensures Kept(n, total')
  {
    assert EPSILON * total' <= EPSILON * total;
  }

  /** With a smaller total a node scores the same, unless the cut-off lets it in. */
  lemma RawScoreShrunk(lib: Library, n: Node, total: real, total': real, key: nat)
    requires Lawful(lib) && 0.0 < total' <= total
    ensures RawScore(lib, n, total, key) <= RawScore(lib, n, total', key)
    ensures !Lifted(n, total, total') ==> RawScore(lib, n, total, key) == RawScore(lib, n, total', key)
  {
    NormalisedScore(lib, n, total', key);
    if Kept(n, total) { KeptMonotone(n, total, total'); }
  }

  /** Node i does not take the key from node r. */
  ghost predicate Loses(lib: Library, nodes: seq<Node>, total: real, key: nat, i: nat, r: nat)
    requires total > 0.0 && i < |nodes| && r < |nodes|
  {
    if i < r then RawScore(lib, nodes[i], total, key) < RawScore(lib, nodes[r], total, key)
    else RawScore(lib, nodes[i], total, key) <= RawScore(lib, nodes[r], total, key)
  }

  /** A choice among all nodes but k is the node that no other one takes the key from. */
  lemma ChoiceAmongRest(lib: Library, nodes: seq<Node>, total: real, key: nat, k: nat, r: nat)
    requires total > 0.0 && k < |nodes| && r < |nodes| && r != k
    ensures IsChoice(RawScores(lib, Removed(nodes, k), total, key), Shifted(r, k))
       <==> forall i :: 0 <= i < |nodes| && i != k ==> Loses(lib, nodes, total, key, i, r)
  {
    var rest := Removed(nodes, k);
    var scores := RawScores(lib, rest, total, key);
    var r' := Shifted(r, k);
    assert rest[r'] == nodes[r];
    if IsChoice(scores, r') {
      forall i | 0 <= i < |nodes| && i != k ensures Loses(lib, nodes, total, key, i, r) {
        var i' := Shifted(i, k);
        assert rest[i'] == nodes[i];
        assert scores[i'] == RawScore(lib, nodes[i], total, key) && scores[i'] <= scores[r'];
      }
    }
    if forall i :: 0 <= i < |nodes| && i != k ==> Loses(lib, nodes, total, key, i, r) {
      forall i' | 0 <= i' < |scores| ensures scores[i'] <= scores[r'] && (i' < r' ==> scores[i'] < scores[r']) {
        var i := if i' < k then i' else i' + 1;
        assert rest[i'] == nodes[i];
        assert Loses(lib, nodes, total, key, i, r) && scores[i'] == RawScore(lib, nodes[i], total, key);
      }
    }
  }

  /**
   * Removing node k leaves a key of another node r where it was, exactly when every node that the smaller total lets
   * over the cut-off still loses to r.
   */
  lemma RemovalExact(lib: Library, nodes: seq<Node>, key: nat, k: nat, r: nat)
    requires Lawful(lib) && k < |nodes| && Acceptable(nodes) && Acceptable(Removed(nodes, k))
    requires r != k && r < |nodes| && IsChoice(Scores(lib, Normalised(nodes), key), r)
    ensures Total(Removed(nodes, k)) > 0.0
    ensures IsChoice(Scores(lib, Normalised(Removed(nodes, k)), key), Shifted(r, k))
       <==> forall i :: 0 <= i < |nodes| && i != k && Lifted(nodes[i], Total(nodes), Total(Removed(nodes, k))) ==>
              Loses(lib, nodes, Total(Removed(nodes, k)), key, i, r)
  {
    var total, total' := Total(nodes), Total(Removed(nodes, k));
    TotalRemoved(nodes, k);
    NormalisationKeepsChoice(lib, nodes, key, r);
    NormalisationKeepsChoice(lib, Removed(nodes, k), key, Shifted(r, k));
    ChoiceAmongRest(lib, nodes, total', key, k, r);
    RawScoreShrunk(lib, nodes[r], total, total', key);
    var was := RawScores(lib, nodes, total, key);
    forall i | 0 <= i < |nodes| && i != k && !Lifted(nodes[i], total, total')
      ensures Loses(lib, nodes, total', key, i, r)
    {
      RawScoreShrunk(lib, nodes[i], total, total', key);
      assert was[i] <= was[r] && (i < r ==> was[i] < was[r]);
    }
  }

  /** Removing a node moves only that node's keys, as long as the cut-off lets no other node in. */
  lemma RemovalMovesOnlyItsKeys(lib: Library, nodes: seq<Node>, key: nat, k: nat, r: nat)
    requires Lawful(lib) && k < |nodes| && Acceptable(nodes) && Acceptable(Removed(nodes, k))
    requires r != k && r < |nodes| && IsChoice(Scores(lib, Normalised(nodes), key), r)
    requires forall i :: 0 <= i < |nodes| && i != k ==> !Lifted(nodes[i], Total(nodes), Total(Removed(nodes, k)))
    ensures IsChoice(Scores(lib, Normalised(Removed(nodes, k)), key), Shifted(r, k))
  {
    RemovalExact(lib, nodes, key, k, r);
  }

  /**
   * Adding node k moves keys only onto it: a key of any other node stays, as long as the larger total does not shut
   * that node out.
   */
  lemma AdditionMovesOnlyOntoNode(lib: Library, nodes: seq<Node>, key: nat, k: nat, before: nat, after: nat)
    requires Lawful(lib) && k < |nodes| && Acceptable(nodes) && Acceptable(Removed(nodes, k))
    requires before != k && before < |nodes|
    requires IsChoice(Scores(lib, Normalised(Removed(nodes, k)), key), Shifted(before, k))
    requires IsChoice(Scores(lib, Normalised(nodes), key), after)
    requires !Lifted(nodes[before], Total(nodes), Total(Removed(nodes, k)))
    ensures after == k || after == before
  {
    var total, total' := Total(nodes), Total(Removed(nodes, k));
    if after != k {
      TotalRemoved(nodes, k);
      NormalisationKeepsChoice(lib, nodes, key, after);
      NormalisationKeepsChoice(lib, Removed(nodes, k), key, Shifted(before, k));
      ChoiceAmongRest(lib, nodes, total', key, k, before);
      RawScoreShrunk(lib, nodes[before], total, total', key);
      RawScoreShrunk(lib, nodes[after], total, total', key);
      var now := RawScores(lib, nodes, total, key);
      assert Loses(lib, nodes, total', key, after, before) && now[before] <= now[after];
    }
  }

  /** A node the cut-off shuts out has the key exactly when it is the first and every score is 0. */
  lemma ShutOutChosen(lib: Library, nodes: seq<Node>, total: real, key: nat, r: nat)
    requires Lawful(lib) && total > 0.0 && r < |nodes| && !Kept(nodes[r], total)
    ensures IsChoice(RawScores(lib, nodes, total, key), r)
       <==> r == 0 && forall i :: 0 <= i < |nodes| ==> RawScore(lib, nodes[i], total, key) == 0.0
  {
    var scores := RawScores(lib, nodes, total, key);
    forall i | 0 <= i < |nodes| ensures scores[i] == RawScore(lib, nodes[i], total, key) >= 0.0 {
      NormalisedScore(lib, nodes[i], total, key);
    }
    if IsChoice(scores, r) {
      assert !(scores[0] < scores[r]);
      forall i | 0 <= i < |nodes| ensures RawScore(lib, nodes[i], total, key) == 0.0 {
        assert scores[i] <= scores[r] == 0.0;
      }
    }
  }

  /**
   * The exact condition: a key that does not go to the new node stays exactly when the larger total does not shut out
   * the node that has it, or when that node is the first and every score is 0, so that nothing beats it.
   */
  lemma AdditionExact(lib: Library, nodes: seq<Node>, key: nat, k: nat, before: nat, after: nat)
    requires Lawful(lib) && k < |nodes| && Acceptable(nodes) && Acceptable(Removed(nodes, k))
    requires before != k && before < |nodes|
    requires IsChoice(Scores(lib, Normalised(Removed(nodes, k)), key), Shifted(before, k))
    requires IsChoice(Scores(lib, Normalised(nodes), key), after) && after != k
    ensures after == before <==>
      || !Lifted(nodes[before], Total(nodes), Total(Removed(nodes, k)))
      || (before == 0 && forall i :: 0 <= i < |nodes| ==> RawScore(lib, nodes[i], Total(nodes), key) == 0.0)
  {
    if !Lifted(nodes[before], Total(nodes), Total(Removed(nodes, k))) {
      AdditionMovesOnlyOntoNode(lib, nodes, key, k, before, after);
    } else {
      ShutOutStays(lib, nodes, key, before, after);
    }
  }

  /** A node that is shut out has the key exactly when nothing beats it. */
  lemma ShutOutStays(lib: Library, nodes: seq<Node>, key: nat, before: nat, after: nat)
    requires Lawful(lib) && Acceptable(nodes) && before < |nodes| && !Kept(nodes[before], Total(nodes))
    requires IsChoice(Scores(lib, Normalised(nodes), key), after)
    ensures after == before
       <==> before == 0 && forall i :: 0 <= i < |nodes| ==> RawScore(lib, nodes[i], Total(nodes), key) == 0.0
  {
    var scores := RawScores(lib, nodes, Total(nodes), key);
    NormalisationKeepsChoice(lib, nodes, key, after);
    ShutOutChosen(lib, nodes, Total(nodes), key, before);
    if IsChoice(scores, before) { ChoiceUnique(scores, before, after); }
  }

  // ----- raising a weight -----

  /** Raising a weight within a growing total does not lower the node's score. */
  lemma RawScoreRaised(lib: Library, n: Node, weight: real, total: real, key: nat)
    requires Lawful(lib) && total > 0.0 && 0.0 <= n.weight < weight
    ensures total + (weight - n.weight) > 0.0
    ensures RawScore(lib, n, total, key) <= RawScore(lib, Node(n.hash, weight), total + (weight - n.weight), key)
  {
    var m, total' := Node(n.hash, weight), total + (weight - n.weight);
    NormalisedScore(lib, m, total', key);
    if Kept(n, total) {
      KeptPositive(n, total);
      assert EPSILON * total' == EPSILON * total + EPSILON * (weight - n.weight);
      assert Kept(m, total');
      ScaledInUnit(lib, n, key);
      assert Scaled(lib, m, key) == Scaled(lib, n, key);
      ReciprocalOrder(n.weight, weight);
      PowExponent(lib, Scaled(lib, n, key), 1.0 / weight, 1.0 / n.weight);
    }
  }

  lemma ReciprocalOrder(a: real, b: real)
    requires 0.0 < a < b
    ensures 0.0 < 1.0 / b < 1.0 / a
  {
    assert (1.0 / a) * a == 1.0 && (1.0 / b) * b == 1.0;
  }

  /** Raising the weight of node k moves keys only onto it, as long as the former owner is not shut out. */
  lemma RaisingMovesOnlyOntoNode(lib: Library, nodes: seq<Node>, key: nat, k: nat, weight: real,
                                 before: nat, after: nat)
    requires Lawful(lib) && k < |nodes| && Acceptable(nodes) && nodes[k].weight < weight
    requires Acceptable(nodes[k := Node(nodes[k].hash, weight)])
    requires IsChoice(Scores(lib, Normalised(nodes), key), before)
    requires IsChoice(Scores(lib, Normalised(nodes[k := Node(nodes[k].hash, weight)]), key), after)
    requires before == k || !Lifted(nodes[before], Total(nodes[k := Node(nodes[k].hash, weight)]), Total(nodes))
    ensures after == k || after == before
  {
    var raised := nodes[k := Node(nodes[k].hash, weight)];
    var total, total' := Total(nodes), Total(raised);
    TotalReplaced(nodes, k, raised[k]);
    NormalisationKeepsChoice(lib, nodes, key, before);
    NormalisationKeepsChoice(lib, raised, key, after);
    var was, now := RawScores(lib, nodes, total, key), RawScores(lib, raised, total', key);
    RawScoreRaised(lib, nodes[k], weight, total, key);
    RawScoreShrunk(lib, nodes[before], total', total, key);
    RawScoreShrunk(lib, nodes[after], total', total, key);
    RaisedChoice(was, now, k, before, after);
  }

  /**
   * The exact condition: a key that neither was nor goes to the raised node stays exactly when the larger total does
   * not shut out the node that has it, or when that node is the first and every score is 0.
   */
  lemma RaisingExact(lib: Library, nodes: seq<Node>, key: nat, k: nat, weight: real, before: nat, after: nat)
    requires Lawful(lib) && k < |nodes| && Acceptable(nodes) && nodes[k].weight < weight
    requires Acceptable(nodes[k := Node(nodes[k].hash, weight)])
    requires IsChoice(Scores(lib, Normalised(nodes), key), before) && before != k
    requires IsChoice(Scores(lib, Normalised(nodes[k := Node(nodes[k].hash, weight)]), key), after) && after != k
    ensures var raised := nodes[k := Node(nodes[k].hash, weight)];
      after == before <==>
        || !Lifted(nodes[before], Total(raised), Total(nodes))
        || (before == 0 && forall i :: 0 <= i < |raised| ==> RawScore(lib, raised[i], Total(raised), key) == 0.0)
  {
    var raised := nodes[k := Node(nodes[k].hash, weight)];
    if !Lifted(nodes[before], Total(raised), Total(nodes)) {
      RaisingMovesOnlyOntoNode(lib, nodes, key, k, weight, before, after);
    } else {
      ShutOutStays(lib, raised, key, before, after);
    }
  }

  /** If only k gained, and the old choice kept its score, the new choice is k or the old one. */
  lemma RaisedChoice(was: seq<real>, now: seq<real>, k: nat, before: nat, after: nat)
    requires |was| == |now| && k < |was| && IsChoice(was, before) && IsChoice(now, after)
    requires was[before] <= now[before] && (after != k ==> now[after] <= was[after])
    ensures after == k || after == before
  {
    assert was[after] <= was[before] && now[before] <= now[after];
  }

  // ----- the order of scores, computed in whole numbers -----

  function IntPow(x: real, n: nat): real { if n == 0 then 1.0 else x * IntPow(x, n - 1) }

  lemma {:induction false} PowIsIntPow(lib: Library, x: real, n: nat)
    requires Lawful(lib) && x >= 0.0 && n > 0
    ensures lib.pow(x, n as real) == IntPow(x, n)
    decreases n
  {
    assert FirstPowerLaw(lib, x);
    if n > 1 {
      PowIsIntPow(lib, x, n - 1);
      assert SumLaw(lib, x, 1.0, (n - 1) as real, n as real);
    }
  }

  lemma RaisedPowers(lib: Library, x: real, c: real, y: real, d: real, e: real, p: real, q: real)
    requires Lawful(lib) && x >= 0.0 && y >= 0.0 && c > 0.0 && d > 0.0 && e > 0.0 && p == c * e && q == d * e
    ensures lib.pow(x, c) < lib.pow(y, d) <==> lib.pow(x, p) < lib.pow(y, q)
  {
    PowNonNegative(lib, x, c);
    PowNonNegative(lib, y, d);
    assert ProductLaw(lib, x, c, e, p) && ProductLaw(lib, y, d, e, q);
    PowOrder(lib, lib.pow(x, c), lib.pow(y, d), e);
  }

  /** With whole weights v and w, the score order is decided by whole powers: x^(1/v) < y^(1/w) just when x^w < y^v. */
  lemma ScoreOrderByIntPow(lib: Library, x: real, v: nat, y: real, w: nat)
    requires Lawful(lib) && x >= 0.0 && y >= 0.0 && v > 0 && w > 0
    ensures lib.pow(x, 1.0 / v as real) < lib.pow(y, 1.0 / w as real) <==> IntPow(x, w) < IntPow(y, v)
  {
    var a, b := v as real, w as real;
    Cancels(a, b);
    RaisedPowers(lib, x, 1.0 / a, y, 1.0 / b, a * b, b, a);
    PowIsIntPow(lib, x, w);
    PowIsIntPow(lib, y, v);
  }

  lemma PowNonNegative(lib: Library, x: real, a: real)
    requires Lawful(lib) && x >= 0.0 && a > 0.0
    ensures lib.pow(x, a) >= 0.0
  {
    assert EndsLaw(lib, a);
    PowOrder(lib, x, 0.0, a);
  }

  lemma Cancels(a: real, b: real)
    requires a > 0.0 && b > 0.0
    ensures a * b > 0.0 && (1.0 / a) * (a * b) == b && (1.0 / b) * (a * b) == a
  {
    assert (1.0 / a) * (a * b) == ((1.0 / a) * a) * b;
    assert (1.0 / b) * (a * b) == ((1.0 / b) * b) * a;
  }

  /** By whole powers, the score of (x, v) is below that of (y, w). */
  ghost predicate Below(x: real, v: nat, y: real, w: nat) { IntPow(x, w) < IntPow(y, v) }

  lemma {:induction false} IntPowAdd(x: real, a: nat, b: nat)
    ensures IntPow(x, a + b) == IntPow(x, a) * IntPow(x, b)
    decreases a
  {
    if a > 0 {
      IntPowAdd(x, a - 1, b);
      assert IntPow(x, a + b) == x * IntPow(x, a + b - 1);
    }
  }

  lemma {:induction false} IntPowMul(x: real, a: nat, b: nat)
    ensures IntPow(IntPow(x, a), b) == IntPow(x, a * b)
    decreases b
  {
    if b == 0 {
      assert a * b == 0;
    } else {
      IntPowMul(x, a, b - 1);
      IntPowAdd(x, a, a * (b - 1));
      assert a * b == a + a * (b - 1);
    }
  }

  lemma {:induction false} IntPowGrows(x: real, y: real, n: nat)
    requires 0.0 <= x < y && n > 0
    ensures 0.0 <= IntPow(x, n) < IntPow(y, n)
    decreases n
  {
    if n > 1 {
      IntPowGrows(x, y, n - 1);
      ProductGrows(x, y, IntPow(x, n - 1), IntPow(y, n - 1));
    }
  }

  lemma ProductGrows(x: real, y: real, p: real, q: real)
    requires 0.0 <= x < y && 0.0 <= p < q
    ensures 0.0 <= x * p < y * q
  {
    assert x * p <= x * q;
    assert x * q < y * q;
  }

  lemma {:induction false} IntPowNonNegative(x: real, n: nat)
    requires x >= 0.0
    ensures IntPow(x, n) >= 0.0
    decreases n
  {
    if n > 0 { IntPowNonNegative(x, n - 1); }
  }

  /** (x^a)^b is (x^b)^a. */
  lemma IntPowSwap(x: real, a: nat, b: nat)
    ensures IntPow(IntPow(x, a), b) == IntPow(IntPow(x, b), a)
  {
    IntPowMul(x, a, b);
    IntPowMul(x, b, a);
    assert a * b == b * a;
  }

  lemma IntPowMonotone(x: real, y: real, n: nat)
    requires 0.0 <= x <= y
    ensures 0.0 <= IntPow(x, n) <= IntPow(y, n)
  {
    IntPowNonNegative(x, n);
    if x < y && n > 0 { IntPowGrows(x, y, n); }
  }

  /** The order by whole powers is a strict weak order: what is not above y is below whatever y is below. */
  lemma BelowMixed(x: real, u: nat, y: real, v: nat, z: real, w: nat)
    requires x >= 0.0 && y >= 0.0 && z >= 0.0 && u > 0 && v > 0 && w > 0
    requires !Below(y, v, x, u) && Below(y, v, z, w)
    ensures Below(x, u, z, w)
  {
    IntPowNonNegative(x, v);
    IntPowNonNegative(y, w);
    IntPowNonNegative(x, w);
    IntPowNonNegative(z, u);
    IntPowMonotone(IntPow(x, v), IntPow(y, u), w);
    IntPowGrows(IntPow(y, w), IntPow(z, v), u);
    IntPowSwap(x, v, w);
    IntPowSwap(y, u, w);
    IntPowSwap(z, v, u);
    var p, q := IntPow(x, w), IntPow(z, u);
    assert IntPow(p, v) < IntPow(q, v);
    if q <= p { IntPowMonotone(q, p, v); }
  }

  /** The order by whole powers is transitive. */
  lemma BelowTransitive(x: real, u: nat, y: real, v: nat, z: real, w: nat)
    requires x >= 0.0 && y >= 0.0 && z >= 0.0 && u > 0 && v > 0 && w > 0
    requires Below(x, u, y, v) && Below(y, v, z, w)
    ensures Below(x, u, z, w)
  {
    BelowMixed(x, u, y, v, z, w);
  }

  // ----- whole weights need no laws -----

  /** A node's scaled hash for the key at hand and its weight, a whole number. */
  datatype WholeNode = WholeNode(scaled: real, weight: nat)

  predicate WellFormed(nodes: seq<WholeNode>) {
    forall i :: 0 <= i < |nodes| ==> nodes[i].scaled >= 0.0 && nodes[i].weight > 0
  }

  ghost predicate NodeBelow(a: WholeNode, b: WholeNode) { Below(a.scaled, a.weight, b.scaled, b.weight) }

  /** The least index that no node is above. */
  ghost predicate IsWholeChoice(nodes: seq<WholeNode>, r: nat) {
    && r < |nodes| && (forall j :: 0 <= j < |nodes| ==> !NodeBelow(nodes[r], nodes[j]))
    && (forall j :: 0 <= j < r ==> NodeBelow(nodes[j], nodes[r]))
  }

  /** The selection loop over the first i nodes, comparing whole powers. */
  ghost function BestOf(nodes: seq<WholeNode>, i: nat): (r: nat)
    requires 0 < i <= |nodes|
    ensures r < i
  {
    if i == 1 then 0
    else
      var best := BestOf(nodes, i - 1);
      if NodeBelow(nodes[best], nodes[i - 1]) then i - 1 else best
  }

  /** The loop finds the choice although it only ever compares with the best so far. */
  lemma {:induction false} BestOfIsChoice(nodes: seq<WholeNode>, i: nat)
    requires 0 < i <= |nodes| && WellFormed(nodes)
    ensures IsWholeChoice(nodes[..i], BestOf(nodes, i))
    decreases i
  {
    var n := nodes[i - 1];
    if i > 1 {
      BestOfIsChoice(nodes, i - 1);
      var b := nodes[BestOf(nodes, i - 1)];
      if NodeBelow(b, n) {
        forall j | 0 <= j < i - 1 ensures NodeBelow(nodes[j], n) && !NodeBelow(n, nodes[j]) {
          var a := nodes[j];
          assert nodes[..i - 1][j] == a && !NodeBelow(b, a);
          BelowMixed(a.scaled, a.weight, b.scaled, b.weight, n.scaled, n.weight);
        }
      } else {
        assert forall j :: 0 <= j < i - 1 ==> nodes[..i - 1][j] == nodes[j];
      }
    }
  }

  predicate WholeKept(n: WholeNode, total: nat) { n.weight as real > EPSILON * total as real }

  /** A node at or below the cut-off scores 0, as one with hash 0 does. */
  function CutOff(n: WholeNode, total: nat): WholeNode {
    if WholeKept(n, total) then n else WholeNode(0.0, 1)
  }

  function CutAll(nodes: seq<WholeNode>, total: nat): seq<WholeNode> {
    seq(|nodes|, i requires 0 <= i < |nodes| => CutOff(nodes[i], total))
  }

  function WholeTotal(nodes: seq<WholeNode>): nat {
    if nodes == [] then 0 else WholeTotal(nodes[..|nodes| - 1]) + nodes[|nodes| - 1].weight
  }

  predicate NonNegativeHashes(nodes: seq<WholeNode>) { forall i :: 0 <= i < |nodes| ==> nodes[i].scaled >= 0.0 }

  function WholeRemoved(nodes: seq<WholeNode>, k: nat): seq<WholeNode>
    requires k < |nodes|
  {
    nodes[..k] + nodes[k + 1..]
  }

  lemma CutAllWellFormed(nodes: seq<WholeNode>, total: nat)
    requires NonNegativeHashes(nodes)
    ensures WellFormed(CutAll(nodes, total))
  {
    forall i | 0 <= i < |nodes| ensures CutOff(nodes[i], total).weight > 0 {
      if WholeKept(nodes[i], total) { assert EPSILON * total as real >= 0.0; }
    }
  }

  lemma {:induction false} WholeTotalRemoved(nodes: seq<WholeNode>, k: nat)
    requires k < |nodes|
    ensures WholeTotal(WholeRemoved(nodes, k)) + nodes[k].weight == WholeTotal(nodes)
    decreases |nodes|
  {
    var n := |nodes| - 1;
    if k == n {
      assert WholeRemoved(nodes, k) == nodes[..n];
    } else {
      WholeTotalRemoved(nodes[..n], k);
      var rest := WholeRemoved(nodes, k);
      assert rest[..|rest| - 1] == WholeRemoved(nodes[..n], k) && rest[|rest| - 1] == nodes[n];
    }
  }

  predicate WholeLifted(n: WholeNode, total: nat, total': nat) { !WholeKept(n, total) && WholeKept(n, total') }

  /** Node i does not take the key from node r. */
  ghost predicate WholeLoses(nodes: seq<WholeNode>, total: nat, i: nat, r: nat)
    requires i < |nodes| && r < |nodes|
  {
    var a, b := CutOff(nodes[i], total), CutOff(nodes[r], total);
    if i < r then NodeBelow(a, b) else !NodeBelow(b, a)
  }

  lemma WholeChoiceAmongRest(nodes: seq<WholeNode>, total: nat, k: nat, r: nat)
    requires k < |nodes| && r < |nodes| && r != k
    ensures IsWholeChoice(CutAll(WholeRemoved(nodes, k), total), Shifted(r, k))
       <==> forall i :: 0 <= i < |nodes| && i != k ==> WholeLoses(nodes, total, i, r)
  {
    var cut, r' := CutAll(WholeRemoved(nodes, k), total), Shifted(r, k);
    assert cut[r'] == CutOff(nodes[r], total);
    if IsWholeChoice(cut, r') {
      forall i | 0 <= i < |nodes| && i != k ensures WholeLoses(nodes, total, i, r) {
        assert cut[Shifted(i, k)] == CutOff(nodes[i], total);
      }
    }
    if forall i :: 0 <= i < |nodes| && i != k ==> WholeLoses(nodes, total, i, r) {
      forall j | 0 <= j < |cut| ensures !NodeBelow(cut[r'], cut[j]) && (j < r' ==> NodeBelow(cut[j], cut[r'])) {
        var i := if j < k then j else j + 1;
        assert cut[j] == CutOff(nodes[i], total) && WholeLoses(nodes, total, i, r);
        if j < r' { WholeAsymmetric(cut[j], cut[r']); }
      }
    }
  }

  lemma WholeAsymmetric(a: WholeNode, b: WholeNode)
    requires NodeBelow(a, b)
    ensures !NodeBelow(b, a)
  {
  }

  lemma IntPowOfZero(n: nat)
    requires n > 0
    ensures IntPow(0.0, n) == 0.0
  {
  }

  /** A node that keeps its place below r keeps it when r is let over the cut-off. */
  lemma LosesToLifted(a: WholeNode, b: WholeNode)
    requires a.scaled >= 0.0 && b.scaled >= 0.0 && a.weight > 0 && b.weight > 0
    ensures !NodeBelow(a, WholeNode(0.0, 1))
    ensures !NodeBelow(WholeNode(0.0, 1), a) ==> !NodeBelow(b, a)
  {
    IntPowOfZero(a.weight);
    IntPowOfZero(b.weight);
    IntPowNonNegative(a.scaled, 1);
    IntPowNonNegative(b.scaled, a.weight);
    assert IntPow(a.scaled, 1) == a.scaled * IntPow(a.scaled, 0) == a.scaled;
  }

  /** With a smaller total, a node that the cut-off does not let in still loses to the choice. */
  lemma WholeStillLoses(nodes: seq<WholeNode>, total: nat, total': nat, i: nat, r: nat)
    requires NonNegativeHashes(nodes) && i < |nodes| && r < |nodes| && total' <= total
    requires WholeLoses(nodes, total, i, r) && !WholeLifted(nodes[i], total, total')
    ensures WholeLoses(nodes, total', i, r)
  {
    var a, b, b' := CutOff(nodes[i], total), CutOff(nodes[r], total), CutOff(nodes[r], total');
    assert EPSILON * total' as real <= EPSILON * total as real;
    assert CutOff(nodes[i], total') == a;
    if b != b' {
      CutAllWellFormed(nodes, total);
      CutAllWellFormed(nodes, total');
      assert CutAll(nodes, total)[i] == a && CutAll(nodes, total')[r] == b';
      LosesToLifted(a, b');
    }
  }

  /**
   * Without any law of pow, cut-off and renormalisation included: removing node k leaves a key of another node r
   * where it was exactly when every node the smaller total lets over the cut-off still loses to r; and the loop then
   * finds it there.
   */
  lemma WholeRemoval(nodes: seq<WholeNode>, k: nat, r: nat)
    requires NonNegativeHashes(nodes) && k < |nodes| && r != k && IsWholeChoice(CutAll(nodes, WholeTotal(nodes)), r)
    ensures var rest := WholeRemoved(nodes, k);
      var cut := CutAll(rest, WholeTotal(rest));
      && (BestOf(cut, |cut|) == Shifted(r, k) <==> IsWholeChoice(cut, Shifted(r, k)))
      && (IsWholeChoice(cut, Shifted(r, k)) <==>
            forall i :: 0 <= i < |nodes| && i != k && WholeLifted(nodes[i], WholeTotal(nodes), WholeTotal(rest)) ==>
              WholeLoses(nodes, WholeTotal(rest), i, r))
  {
    var rest := WholeRemoved(nodes, k);
    var total, total', cut := WholeTotal(nodes), WholeTotal(rest), CutAll(rest, WholeTotal(rest));
    WholeTotalRemoved(nodes, k);
    WholeChoiceAmongRest(nodes, total', k, r);
    forall i | 0 <= i < |nodes| && i != k && !WholeLifted(nodes[i], total, total')
      ensures WholeLoses(nodes, total', i, r)
    {
      assert CutAll(nodes, total)[i] == CutOff(nodes[i], total) && CutAll(nodes, total)[r] == CutOff(nodes[r], total);
      WholeStillLoses(nodes, total, total', i, r);
    }
    assert |cut| > 0;
    CutAllWellFormed(rest, total');
    BestOfIsChoice(cut, |cut|);
    assert cut[..|cut|] == cut;
    if IsWholeChoice(cut, Shifted(r, k)) { WholeChoiceUnique(cut, BestOf(cut, |cut|), Shifted(r, k)); }
  }

  lemma WholeChoiceUnique(nodes: seq<WholeNode>, r: nat, r': nat)
    requires IsWholeChoice(nodes, r) && IsWholeChoice(nodes, r')
    ensures r == r'
  {
    assert !NodeBelow(nodes[r], nodes[r']) && !NodeBelow(nodes[r'], nodes[r]);
  }

  /** The same nodes with whole weights: hashes scaled for the key at hand, weights as given. */
  ghost predicate SameNodes(lib: Library, nodes: seq<Node>, key: nat, whole: seq<WholeNode>) {
    |whole| == |nodes| && forall i :: 0 <= i < |nodes| ==>
      whole[i].scaled == Scaled(lib, nodes[i], key) && whole[i].weight as real == nodes[i].weight
  }

  lemma {:induction false} SameTotal(lib: Library, nodes: seq<Node>, key: nat, whole: seq<WholeNode>)
    requires SameNodes(lib, nodes, key, whole)
    ensures WholeTotal(whole) as real == Total(nodes)
    decreases |nodes|
  {
    if nodes != [] {
      var n := |nodes| - 1;
      assert SameNodes(lib, nodes[..n], key, whole[..n]);
      SameTotal(lib, nodes[..n], key, whole[..n]);
    }
  }

  lemma WholeOrder(lib: Library, x: Node, v: WholeNode, y: Node, w: WholeNode, total: nat, key: nat)
    requires Lawful(lib) && total > 0
    requires v.scaled == Scaled(lib, x, key) && v.weight as real == x.weight
    requires w.scaled == Scaled(lib, y, key) && w.weight as real == y.weight
    ensures NodeBelow(CutOff(v, total), CutOff(w, total))
       <==> RawScore(lib, x, total as real, key) < RawScore(lib, y, total as real, key)
  {
    var a, b := CutOff(v, total), CutOff(w, total);
    WholeScore(lib, x, v, total, key);
    WholeScore(lib, y, w, total, key);
    ScoreOrderByIntPow(lib, a.scaled, a.weight, b.scaled, b.weight);
  }

  lemma WholeScore(lib: Library, x: Node, v: WholeNode, total: nat, key: nat)
    requires Lawful(lib) && total > 0 && v.scaled == Scaled(lib, x, key) && v.weight as real == x.weight
    ensures var a := CutOff(v, total);
      a.weight > 0 && a.scaled >= 0.0
      && lib.pow(a.scaled, 1.0 / a.weight as real) == RawScore(lib, x, total as real, key)
  {
    ScaledInUnit(lib, x, key);
    if WholeKept(v, total) {
      KeptPositive(x, total as real);
    } else {
      assert EndsLaw(lib, 1.0);
    }
  }

  /** With lawful powers this is the choice by the scores of the normalised weights. */
  lemma WholeChoiceIsChoice(lib: Library, nodes: seq<Node>, key: nat, whole: seq<WholeNode>, r: nat)
    requires Lawful(lib) && Acceptable(nodes) && SameNodes(lib, nodes, key, whole)
    ensures IsWholeChoice(CutAll(whole, WholeTotal(whole)), r) <==> IsChoice(Scores(lib, Normalised(nodes), key), r)
  {
    SameTotal(lib, nodes, key, whole);
    NormalisationKeepsChoice(lib, nodes, key, r);
    var cut, scores := CutAll(whole, WholeTotal(whole)), RawScores(lib, nodes, Total(nodes), key);
    forall i, j | 0 <= i < |cut| && 0 <= j < |cut| ensures NodeBelow(cut[i], cut[j]) <==> scores[i] < scores[j] {
      WholeOrder(lib, nodes[i], whole[i], nodes[j], whole[j], WholeTotal(whole), key);
    }
  }

  /**
   * Two nodes of whole weights v and w above the cut-off: the second has the key exactly when its hash, as a part of
   * the largest 64-bit number, raised to v is above that of the first raised to w.
   */
  lemma TwoNodesExactly(lib: Library, x: Node, v: nat, y: Node, w: nat, key: nat)
    requires Lawful(lib) && x.weight == v as real && y.weight == w as real
    requires 0 < v < 4503599627370496 * w - w && 0 < w < 4503599627370496 * v - v
    ensures Acceptable([x, y])
    ensures IsChoice(Scores(lib, Normalised([x, y]), key), 1) <==>
      IntPow(KeyHash(lib, x, key) as real / 18446744073709551615.0, w)
        < IntPow(KeyHash(lib, y, key) as real / 18446744073709551615.0, v)
  {
    TwoNodesOrder(lib, x, v, y, w, key);
    assert Scaled(lib, x, key) == KeyHash(lib, x, key) as real / 18446744073709551615.0;
    assert Scaled(lib, y, key) == KeyHash(lib, y, key) as real / 18446744073709551615.0;
  }

  lemma TwoNodesOrder(lib: Library, x: Node, v: nat, y: Node, w: nat, key: nat)
    requires Lawful(lib) && x.weight == v as real && y.weight == w as real
    requires 0 < v < 4503599627370496 * w - w && 0 < w < 4503599627370496 * v - v
    ensures Acceptable([x, y])
    ensures IsChoice(Scores(lib, Normalised([x, y]), key), 1) <==> Below(Scaled(lib, x, key), v, Scaled(lib, y, key), w)
  {
    var a, b := WholeNode(Scaled(lib, x, key), v), WholeNode(Scaled(lib, y, key), w);
    TwoTotal(a, b);
    SameTotal(lib, [x, y], key, [a, b]);
    TwoKept(v, w);
    WholeChoiceIsChoice(lib, [x, y], key, [a, b], 1);
    TwoWholeNodes(a, b);
  }

  lemma TwoTotal(a: WholeNode, b: WholeNode)
    ensures WholeTotal([a, b]) == a.weight + b.weight
  {
    assert [a, b][..1] == [a] && [a][..0] == [];
    assert WholeTotal([a]) == a.weight;
  }

  lemma TwoWholeNodes(a: WholeNode, b: WholeNode)
    requires WholeKept(a, a.weight + b.weight) && WholeKept(b, a.weight + b.weight)
    ensures IsWholeChoice(CutAll([a, b], WholeTotal([a, b])), 1) <==> NodeBelow(a, b)
  {
    TwoTotal(a, b);
    assert CutAll([a, b], WholeTotal([a, b])) == [a, b];
    if NodeBelow(a, b) { WholeAsymmetric(a, b); }
  }

  lemma TwoKept(v: nat, w: nat)
    requires 0 < v < 4503599627370496 * w - w && 0 < w < 4503599627370496 * v - v
    ensures v as real > EPSILON * (v + w) as real && w as real > EPSILON * (v + w) as real
    ensures v as real + w as real >= EPSILON
  {
  }

  // ----- the cut-off hypothesis is needed -----

  /** Removing the third of these nodes lets the second over the cut-off, and it takes a key of the first. */
  lemma LiftedNodeTakesKey(lib: Library, key: nat, a: nat, b: nat, c: nat)
    requires Lawful(lib)
    requires 0.0 < Scaled(lib, Node(a, 1.0), key) < 1.0 == Scaled(lib, Node(b, 1.0), key)
    requires Scaled(lib, Node(c, 1.0), key) == 0.0
    ensures var nodes := [Node(a, 1.0), Node(b, 1.5 * EPSILON), Node(c, 1.0)];
      && Acceptable(nodes) && Acceptable(Removed(nodes, 2))
      && IsChoice(Scores(lib, Normalised(nodes), key), 0)
      && IsChoice(Scores(lib, Normalised(Removed(nodes, 2)), key), 1)
  {
    var nodes := [Node(a, 1.0), Node(b, 1.5 * EPSILON), Node(c, 1.0)];
    var rest := nodes[..2];
    assert Removed(nodes, 2) == rest;
    assert Total(rest[..1]) == 1.0 by { assert rest[..1][..0] == []; }
    assert rest == nodes[..2];
    var total, total' := Total(nodes), Total(rest);
    assert total' == 1.0 + 1.5 * EPSILON && total == 2.0 + 1.5 * EPSILON;
    assert Kept(nodes[0], total) && !Kept(nodes[1], total) && Kept(nodes[0], total') && Kept(nodes[1], total');
    PowInUnit(lib, Scaled(lib, nodes[0], key), 1.0);
    PowOrder(lib, Scaled(lib, nodes[0], key), 1.0, 1.0);
    assert EndsLaw(lib, 1.0) && EndsLaw(lib, 1.0 / (1.5 * EPSILON));
    var was, now := RawScores(lib, nodes, total, key), RawScores(lib, rest, total', key);
    assert was[0] > 0.0 == was[1] && was[2] == 0.0;
    assert now[0] < 1.0 == now[1];
    NormalisationKeepsChoice(lib, nodes, key, 0);
    NormalisationKeepsChoice(lib, rest, key, 1);
  }

  /** Raising the third of these nodes from nothing shuts the second out, and the first takes its key. */
  lemma RaisingMovesAnotherKey(lib: Library, key: nat, a: nat, b: nat, c: nat)
    requires Lawful(lib)
    requires 0.0 < Scaled(lib, Node(a, 1.0), key) < 1.0 == Scaled(lib, Node(b, 1.0), key)
    requires Scaled(lib, Node(c, 1.0), key) == 0.0
    ensures var nodes := [Node(a, 1.0), Node(b, 1.5 * EPSILON), Node(c, 0.0)];
      var raised := nodes[2 := Node(c, 1.0)];
      && Acceptable(nodes) && Acceptable(raised)
      && IsChoice(Scores(lib, Normalised(nodes), key), 1)
      && IsChoice(Scores(lib, Normalised(raised), key), 0)
  {
    var nodes := [Node(a, 1.0), Node(b, 1.5 * EPSILON), Node(c, 0.0)];
    LiftedNodeTakesKey(lib, key, a, b, c);
    assert nodes[2 := Node(c, 1.0)] == [Node(a, 1.0), Node(b, 1.5 * EPSILON), Node(c, 1.0)];
    assert Removed(nodes, 2) == [Node(a, 1.0), Node(b, 1.5 * EPSILON)];
    TotalRemoved(nodes, 2);
    EmptyNodeChangesNothing(lib, nodes, key, 1);
  }

  lemma ZeroAppended(was: seq<real>, now: seq<real>, r: nat)
    requires r < |was| && IsChoice(was, r) && |now| == |was| + 1 && now[..|was|] == was
    requires now[|was|] == 0.0 <= was[r]
    ensures IsChoice(now, r)
  {
    forall j | 0 <= j < |now| ensures now[j] <= now[r] && (j < r ==> now[j] < now[r]) {
      assert j < |was| ==> now[j] == was[j];
    }
  }

  /** A last node of weight 0 takes no key. */
  lemma EmptyNodeChangesNothing(lib: Library, nodes: seq<Node>, key: nat, r: nat)
    requires Lawful(lib) && nodes != [] && nodes[|nodes| - 1].weight == 0.0 && NonNegative(nodes)
    requires Acceptable(Removed(nodes, |nodes| - 1)) && r < |nodes| - 1
    requires IsChoice(Scores(lib, Normalised(Removed(nodes, |nodes| - 1)), key), r)
    ensures Acceptable(nodes) && IsChoice(Scores(lib, Normalised(nodes), key), r)
  {
    var k := |nodes| - 1;
    TotalRemoved(nodes, k);
    NormalisationKeepsChoice(lib, Removed(nodes, k), key, r);
    NormalisationKeepsChoice(lib, nodes, key, r);
    EmptyNodeScores(lib, nodes, Total(nodes), key, r);
  }

  lemma EmptyNodeScores(lib: Library, nodes: seq<Node>, total: real, key: nat, r: nat)
    requires Lawful(lib) && total > 0.0 && r < |nodes| - 1 && nodes[|nodes| - 1].weight == 0.0
    requires IsChoice(RawScores(lib, Removed(nodes, |nodes| - 1), total, key), r)
    ensures IsChoice(RawScores(lib, nodes, total, key), r)
  {
    var k := |nodes| - 1;
    var was, now := RawScores(lib, Removed(nodes, k), total, key), RawScores(lib, nodes, total, key);
    assert now[..k] == was;
    NormalisedScore(lib, nodes[r], total, key);
    ZeroAppended(was, now, r);
  }

  // ----- the object -----

  function InputNodes(lib: Library, input: seq<(string, real)>): seq<Node> {
    seq(|input|, i requires 0 <= i < |input| => Node(lib.nameHash(input[i].0), input[i].1))
  }

  datatype BuildResult = Built(hasher: RendezvousHash) | NegativeWeight | WeightsTooSmall

  lemma TotalPrefix(nodes: seq<Node>, i: nat)
    requires i < |nodes|
    ensures Total(nodes[..i + 1]) == Total(nodes[..i]) + nodes[i].weight
  {
    assert nodes[..i + 1][..i] == nodes[..i];
  }

  lemma ChoiceExtended(scores: seq<real>, i: nat, r: nat)
    requires i < |scores| && (i == 0 || (r < i && IsChoice(scores[..i], r)))
    ensures IsChoice(scores[..i + 1], if i == 0 || scores[i] > scores[r] then i else r)
  {
  }

  class RendezvousHash {
    const lib: Library
    var nodes: seq<Node>

    constructor (lib: Library)
      ensures this.lib == lib && nodes == []
    {
      this.lib, nodes := lib, [];
    }

    /** The source's constructor: it throws on a negative weight, then on weights that add up to next to nothing. */
    static method Build(lib: Library, input: seq<(string, real)>) returns (r: BuildResult)
      ensures r.NegativeWeight? <==> !NonNegative(InputNodes(lib, input))
      ensures r.WeightsTooSmall? <==>
        NonNegative(InputNodes(lib, input)) && Total(InputNodes(lib, input)) * 4503599627370496.0 < 1.0
      ensures r.Built? ==>
        && Acceptable(InputNodes(lib, input)) && r.hasher.lib == lib
        && r.hasher.nodes == Normalised(InputNodes(lib, input)) && Total(r.hasher.nodes) == 1.0
        && |r.hasher.nodes| == |input|
        && forall i :: 0 <= i < |input| ==>
             && r.hasher.nodes[i].hash == lib.nameHash(input[i].0)
             && r.hasher.nodes[i].weight == input[i].1 / Total(InputNodes(lib, input))
    {
      var hasher := new RendezvousHash(lib);
      ghost var wanted := InputNodes(lib, input);
      var i := 0;
      while i < |input|
        invariant i <= |input| && hasher.nodes == wanted[..i] && NonNegative(wanted[..i])
      {
        if input[i].1 < 0.0 {
          assert wanted[i].weight < 0.0;
          return NegativeWeight;
        }
        hasher.nodes := hasher.nodes + [Node(lib.nameHash(input[i].0), input[i].1)];
        assert wanted[..i + 1] == wanted[..i] + [wanted[i]];
        i := i + 1;
      }
      assert wanted[..i] == wanted;
      var ok := hasher.NormalizeWeights();
      if ok { NormalisedTotal(wanted); }
      r := if ok then Built(hasher) else WeightsTooSmall;
    }

    method NormalizeWeights() returns (ok: bool)
      modifies this`nodes
      ensures ok == (Total(old(nodes)) >= EPSILON)
      ensures if ok then nodes == Normalised(old(nodes)) else nodes == old(nodes)
    {
      var sum := 0.0;
      var i := 0;
      while i < |nodes|
        invariant i <= |nodes| && sum == Total(nodes[..i]) && nodes == old(nodes)
      {
        TotalPrefix(nodes, i);
        sum := sum + nodes[i].weight;
        i := i + 1;
      }
      assert nodes[..i] == nodes;
      if sum < EPSILON { return false; }
      ghost var wanted := Normalised(nodes);
      i := 0;
      while i < |nodes|
        invariant i <= |nodes| && |nodes| == |wanted|
        invariant forall j :: 0 <= j < |nodes| ==> nodes[j] == if j < i then wanted[j] else old(nodes)[j]
      {
        nodes := nodes[i := nodes[i].(weight := nodes[i].weight / sum)];
        i := i + 1;
      }
      ok := true;
    }

    method Get(key: nat) returns (maxWeightId: nat)
      requires Lawful(lib)
      ensures IsChoice(Scores(lib, nodes, key), maxWeightId)
    {
      var maxWeight := -1.0;
      maxWeightId := 0;
      ghost var scores := Scores(lib, nodes, key);
      var i := 0;
      while i < |nodes|
        invariant i <= |nodes|
        invariant if i == 0 then maxWeightId == 0 && maxWeight == -1.0
                  else maxWeightId < i && maxWeight == scores[maxWeightId] && IsChoice(scores[..i], maxWeightId)
      {
        var n := nodes[i];
        var combinedHash := lib.mixHash((n.hash + key) % U64) as real;
        var scaledHash := combinedHash / MAX_HASH;
        var scaledWeight := if n.weight > EPSILON then lib.pow(scaledHash, 1.0 / n.weight) else 0.0;
        assert scaledWeight == Score(lib, n, key) == scores[i];
        ScoreNonNegative(lib, n, key);
        ChoiceExtended(scores, i, maxWeightId);
        if scaledWeight > maxWeight {
          maxWeightId := i;
          maxWeight := scaledWeight;
        }
        i := i + 1;
      }
      assert scores[..i] == scores;
    }
  }
}
