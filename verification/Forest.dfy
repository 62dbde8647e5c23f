/**
 The forest that Huffman's algorithm builds: packed weights, merging, heights and depths.
 Each weight word packs a 24-bit weight over an 8-bit tree height.  A tall tree needs
 Fibonacci weight, which bounds the height field.
 */
module Forest {
  import opened Bits

  function Fib(n: nat): (f: nat) {
    if n < 2 then n else Fib(n - 1) + Fib(n - 2)
  }

  lemma {:induction false} FibMono(m: nat, n: nat)
    requires m <= n
    ensures Fib(m) <= Fib(n)
    decreases n
  {
    if m < n {
      FibMono(m, n - 1);
    }
  }

  lemma FibStep(h: nat)
    ensures Fib(h + 3) == Fib(h + 2) + Fib(h + 1)
  {
  }

  lemma FibValues()
    ensures Fib(20) == 6765 && Fib(35) == 9227465
  {
    assert Fib(10) == 55 && Fib(11) == 89;
    assert Fib(20) == 6765 && Fib(21) == 10946;
    assert Fib(30) == 832040 && Fib(31) == 1346269;
  }

  // The unpacked halves of a weight word.
  function Weight(w: nat): nat { w / 256 }

  function Height(w: nat): nat { w % 256 }

  function Max(a: nat, b: nat): nat { if a > b then a else b }

  // ADDWEIGHTS
  function AddWeights(w1: nat, w2: nat): nat {
    Or((w1 - Height(w1)) + (w2 - Height(w2)), 1 + Max(Height(w1), Height(w2)))
  }

  lemma AddWeightsUnpacked(w1: nat, w2: nat)
    requires Max(Height(w1), Height(w2)) < 255
    ensures Weight(AddWeights(w1, w2)) == Weight(w1) + Weight(w2)
    ensures Height(AddWeights(w1, w2)) == 1 + Max(Height(w1), Height(w2))
  {
    var q := Weight(w1) + Weight(w2);
    assert Pow2(8) == 256;
    ShlIsMul(q, 8);
    OrDisjoint(q, 1 + Max(Height(w1), Height(w2)), 8);
  }

  // ----- the forest under construction: nodes 1..n, leaves 1..a

  ghost predicate IsRoot(parent: seq<int>, n: int, x: int) {
    1 <= x <= n < |parent| && parent[x] == -1
  }

  ghost predicate Linked(parent: seq<int>, a: int, n: int) {
    && 0 <= a <= n < |parent|
    && forall k :: 1 <= k <= n ==> parent[k] == -1 || (k < parent[k] <= n && a < parent[k])
  }

  // Every internal node has exactly two children.
  ghost predicate Binary(parent: seq<int>, left: seq<int>, right: seq<int>, a: int, n: int) {
    && Linked(parent, a, n) && |left| == n + 1 && |right| == n + 1
    && (forall k :: a < k <= n ==> 1 <= left[k] < k && 1 <= right[k] < k && left[k] != right[k])
    && (forall k :: a < k <= n ==> parent[left[k]] == k && parent[right[k]] == k)
    && forall j :: 1 <= j <= n && parent[j] != -1 ==> j == left[parent[j]] || j == right[parent[j]]
  }

  // Heights grow along parent links; leaves have height 0.
  ghost predicate Tall(parent: seq<int>, weight: seq<int>, a: int, n: int) {
    && Linked(parent, a, n) && n < |weight|
    && (forall k :: 1 <= k <= n ==> 256 <= weight[k])
    && (forall k :: 1 <= k <= a ==> Height(weight[k]) == 0)
    && forall k :: 1 <= k <= n && parent[k] != -1 ==> Height(weight[k]) < Height(weight[parent[k]])
  }

  // Node i is a root as long as no more than k nodes are there.
  predicate Beyond(p: seq<int>, k: int, i: int)
    requires 0 <= i < |p|
  {
    p[i] > k || p[i] == -1
  }

  // Of the roots among k nodes, x and then y are lightest.
  ghost predicate PickedAt(parent: seq<int>, weight: seq<int>, x: int, y: int, k: int) {
    && 0 <= k < |parent| && k < |weight| && 1 <= x <= k && 1 <= y <= k && weight[x] <= weight[y]
    && forall j {:trigger Beyond(parent, k, j)} ::
         1 <= j <= k && Beyond(parent, k, j) && j != x ==> weight[y] <= weight[j]
  }

  // Every merge took the two lightest roots, and weighs what they weigh together.
  ghost predicate Greedy(parent: seq<int>, weight: seq<int>, left: seq<int>, right: seq<int>, a: int, n: int) {
    && 0 <= a <= n < |weight| && |left| == n + 1 && |right| == n + 1
    && forall k {:trigger left[k]} :: a < k <= n ==>
         PickedAt(parent, weight, left[k], right[k], k - 1)
         && weight[k] / 256 == weight[left[k]] / 256 + weight[right[k]] / 256
  }

  // The Fibonacci invariant of greedy merging.
  ghost predicate Heavy(parent: seq<int>, weight: seq<int>, n: int) {
    && n < |weight| && (forall k :: 1 <= k <= n ==> 0 <= weight[k])
    && (forall x {:trigger IsRoot(parent, n, x)} :: IsRoot(parent, n, x) ==>
          Fib(Height(weight[x]) + 2) <= Weight(weight[x]))
    && forall x, y {:trigger IsRoot(parent, n, x), IsRoot(parent, n, y)} ::
         IsRoot(parent, n, x) && IsRoot(parent, n, y) && x != y ==> Fib(Height(weight[x]) + 1) <= Weight(weight[y])
  }

  ghost function RootSum(parent: seq<int>, weight: seq<int>, k: nat): (s: int)
    requires k < |parent| && k < |weight|
    decreases k
  {
    if k == 0 then 0
    else RootSum(parent, weight, k - 1) + (if parent[k] == -1 then weight[k] / 256 else 0)
  }

  lemma {:induction false} RootSumFrame(parent: seq<int>, weight: seq<int>, parent': seq<int>, weight': seq<int>,
                                        k: nat)
    requires k < |parent| && k < |weight| && k < |parent'| && k < |weight'|
    requires forall j :: 1 <= j <= k ==> parent[j] == parent'[j] && weight[j] == weight'[j]
    ensures RootSum(parent, weight, k) == RootSum(parent', weight', k)
    decreases k
  {
    if k != 0 {
      RootSumFrame(parent, weight, parent', weight', k - 1);
    }
  }

  lemma {:induction false} RootSumUnroot(parent: seq<int>, weight: seq<int>, k: nat, x: int, p: int)
    requires 1 <= x <= k < |parent| && k < |weight| && parent[x] == -1 && p != -1
    ensures RootSum(parent[x := p], weight, k) == RootSum(parent, weight, k) - weight[x] / 256
    decreases k
  {
    if x < k {
      RootSumUnroot(parent, weight, k - 1, x, p);
    } else {
      RootSumFrame(parent, weight, parent[x := p], weight, k - 1);
    }
  }

  lemma {:induction false} RootSumBounds(parent: seq<int>, weight: seq<int>, k: nat, x: int)
    requires 1 <= x <= k < |parent| && k < |weight| && parent[x] == -1
    requires forall j :: 1 <= j <= k ==> 0 <= weight[j]
    ensures weight[x] / 256 <= RootSum(parent, weight, k)
    decreases k
  {
    if x < k {
      RootSumBounds(parent, weight, k - 1, x);
    } else {
      RootSumNonneg(parent, weight, k - 1);
    }
  }

  lemma {:induction false} RootSumNonneg(parent: seq<int>, weight: seq<int>, k: nat)
    requires k < |parent| && k < |weight|
    requires forall j :: 1 <= j <= k ==> 0 <= weight[j]
    ensures 0 <= RootSum(parent, weight, k)
    decreases k
  {
    if k != 0 {
      RootSumNonneg(parent, weight, k - 1);
    }
  }

  // ----- one merge

  function MergedParent(parent: seq<int>, n: nat, n1: int, n2: int): seq<int>
    requires n + 1 < |parent| && 1 <= n1 <= n && 1 <= n2 <= n
  {
    parent[n1 := n + 1][n2 := n + 1][n + 1 := -1]
  }

  function MergedWeight(weight: seq<int>, n: nat, n1: int, n2: int): seq<int>
    requires n + 1 < |weight| && 1 <= n1 <= n && 1 <= n2 <= n && 0 <= weight[n1] && 0 <= weight[n2]
  {
    weight[n + 1 := AddWeights(weight[n1], weight[n2])]
  }

  // n1 and n2 are the two lightest roots, as packed words.
  ghost predicate Lightest(parent: seq<int>, weight: seq<int>, n: int, n1: int, n2: int) {
    && IsRoot(parent, n, n1) && IsRoot(parent, n, n2) && n1 != n2 && n < |weight|
    && weight[n1] <= weight[n2]
    && forall x {:trigger IsRoot(parent, n, x)} :: IsRoot(parent, n, x) && x != n1 ==> weight[n2] <= weight[x]
  }

  lemma MergeSum(parent: seq<int>, weight: seq<int>, n: nat, n1: int, n2: int)
    requires n + 1 < |parent| && n + 1 < |weight| && IsRoot(parent, n, n1) && IsRoot(parent, n, n2) && n1 != n2
    requires forall k :: 1 <= k <= n ==> 0 <= weight[k]
    requires Max(Height(weight[n1]), Height(weight[n2])) < 255
    ensures RootSum(MergedParent(parent, n, n1, n2), MergedWeight(weight, n, n1, n2), n + 1) ==
      RootSum(parent, weight, n)
  {
    RootSumUnroot(parent, weight, n, n1, n + 1);
    var p1 := parent[n1 := n + 1];
    RootSumUnroot(p1, weight, n, n2, n + 1);
    AddWeightsUnpacked(weight[n1], weight[n2]);
    RootSumFrame(p1[n2 := n + 1], weight, MergedParent(parent, n, n1, n2), MergedWeight(weight, n, n1, n2), n);
  }

  lemma HeightBound(parent: seq<int>, weight: seq<int>, n: nat, x: int)
    requires Heavy(parent, weight, n) && IsRoot(parent, n, x) && RootSum(parent, weight, n) < 0x80_0000
    ensures Height(weight[x]) < 33 && weight[x] < 0x8000_0000
  {
    hide Fib;
    RootSumBounds(parent, weight, n, x);
    FibValues();
    if 33 <= Height(weight[x]) {
      FibMono(35, Height(weight[x]) + 2);
    }
  }

  // The merged root is heavy enough for its height: its taller child is, and the
  // other child outweighs that child's own taller child.
  lemma MergedRootHeavy(parent: seq<int>, weight: seq<int>, n: nat, n1: int, n2: int)
    requires Heavy(parent, weight, n) && IsRoot(parent, n, n1) && IsRoot(parent, n, n2) && n1 != n2
    requires Max(Height(weight[n1]), Height(weight[n2])) < 255
    ensures var h := Max(Height(weight[n1]), Height(weight[n2]));
      && Weight(weight[n1]) + Weight(weight[n2]) >= Fib(h + 3)
      && Height(AddWeights(weight[n1], weight[n2])) == h + 1
      && Weight(AddWeights(weight[n1], weight[n2])) == Weight(weight[n1]) + Weight(weight[n2])
  {
    AddWeightsUnpacked(weight[n1], weight[n2]);
    FibStep(Max(Height(weight[n1]), Height(weight[n2])));
    hide Fib, AddWeights;
  }

  // No remaining root is lighter than the merged pair allows.
  lemma OthersHeavy(parent: seq<int>, weight: seq<int>, n: nat, n1: int, n2: int, x: int)
    requires Heavy(parent, weight, n) && Lightest(parent, weight, n, n1, n2)
    requires IsRoot(parent, n, x) && x != n1 && x != n2
    ensures Fib(Max(Height(weight[n1]), Height(weight[n2])) + 2) <= Weight(weight[x])
  {
    hide Fib;
    assert weight[n1] <= weight[n2] <= weight[x];
  }

  lemma MergeHeavy(parent: seq<int>, weight: seq<int>, n: nat, n1: int, n2: int)
    requires n + 1 < |parent| && n + 1 < |weight| && Heavy(parent, weight, n) && Lightest(parent, weight, n, n1, n2)
    requires Max(Height(weight[n1]), Height(weight[n2])) < 255
    ensures Heavy(MergedParent(parent, n, n1, n2), MergedWeight(weight, n, n1, n2), n + 1)
  {
    var p', w', m := MergedParent(parent, n, n1, n2), MergedWeight(weight, n, n1, n2), n + 1;
    hide Fib, AddWeights, Height, Weight, Max;
    LightestParts(parent, weight, n, n1, n2);
    MergedRootHeavy(parent, weight, n, n1, n2);
    forall x | IsRoot(p', m, x) && x != m
      ensures IsRoot(parent, n, x) && x != n1 && x != n2 && w'[x] == weight[x]
    {
    }
    forall x, y | IsRoot(p', m, x) && IsRoot(p', m, y) && x != y
      ensures Fib(Height(w'[x]) + 1) <= Weight(w'[y])
    {
      if x == m {
        OthersHeavy(parent, weight, n, n1, n2, y);
      } else if y == m {
        assert IsRoot(parent, n, x) && IsRoot(parent, n, n1);
      }
    }
  }

  lemma MergeShape(parent: seq<int>, weight: seq<int>, left: seq<int>, right: seq<int>, a: int, n: nat, n1: int,
                   n2: int)
    requires n + 1 < |parent| && n + 1 < |weight| && IsRoot(parent, n, n1) && IsRoot(parent, n, n2) && n1 != n2
    requires Binary(parent, left, right, a, n) && Tall(parent, weight, a, n)
    requires Max(Height(weight[n1]), Height(weight[n2])) < 255
    ensures Binary(MergedParent(parent, n, n1, n2), left + [n1], right + [n2], a, n + 1)
    ensures Tall(MergedParent(parent, n, n1, n2), MergedWeight(weight, n, n1, n2), a, n + 1)
  {
    AddWeightsUnpacked(weight[n1], weight[n2]);
    hide AddWeights;
  }

  lemma MergedWeightFrame(w: seq<int>, n: nat, n1: int, n2: int)
    requires n + 1 < |w| && 1 <= n1 <= n && 1 <= n2 <= n && 0 <= w[n1] && 0 <= w[n2]
    ensures |MergedWeight(w, n, n1, n2)| == |w| && forall k :: 0 <= k <= n ==> MergedWeight(w, n, n1, n2)[k] == w[k]
  {
  }

  lemma PickedStays(parent: seq<int>, weight: seq<int>, n: nat, n1: int, n2: int, x: int, y: int, k: int)
    requires n + 1 < |parent| && n + 1 < |weight| && IsRoot(parent, n, n1) && IsRoot(parent, n, n2) && n1 != n2
    requires 0 <= weight[n1] && 0 <= weight[n2] && k < n && PickedAt(parent, weight, x, y, k)
    ensures PickedAt(MergedParent(parent, n, n1, n2), MergedWeight(weight, n, n1, n2), x, y, k)
  {
    var p', w' := MergedParent(parent, n, n1, n2), MergedWeight(weight, n, n1, n2);
    hide AddWeights;
    forall j {:trigger Beyond(p', k, j)} | 1 <= j <= k && Beyond(p', k, j) && j != x
      ensures w'[y] <= w'[j]
    {
      assert Beyond(parent, k, j);
    }
  }

  lemma PickedNow(parent: seq<int>, weight: seq<int>, a: int, n: nat, n1: int, n2: int)
    requires n + 1 < |parent| && n + 1 < |weight| && Linked(parent, a, n) && Lightest(parent, weight, n, n1, n2)
    requires 0 <= weight[n1] && 0 <= weight[n2]
    ensures PickedAt(MergedParent(parent, n, n1, n2), MergedWeight(weight, n, n1, n2), n1, n2, n)
  {
    var p', w' := MergedParent(parent, n, n1, n2), MergedWeight(weight, n, n1, n2);
    hide AddWeights;
    forall j {:trigger Beyond(p', n, j)} | 1 <= j <= n && Beyond(p', n, j) && j != n1
      ensures w'[n2] <= w'[j]
    {
      assert j != n2 ==> IsRoot(parent, n, j);
    }
  }

  lemma MergeGreedy(parent: seq<int>, weight: seq<int>, left: seq<int>, right: seq<int>, a: int, n: nat, n1: int,
                    n2: int)
    requires n + 1 < |parent| && n + 1 < |weight| && Linked(parent, a, n) && Lightest(parent, weight, n, n1, n2)
    requires 0 <= weight[n1] && 0 <= weight[n2]
    requires Greedy(parent, weight, left, right, a, n) && Max(Height(weight[n1]), Height(weight[n2])) < 255
    ensures Greedy(MergedParent(parent, n, n1, n2), MergedWeight(weight, n, n1, n2), left + [n1], right + [n2], a,
                   n + 1)
  {
    hide AddWeights, PickedAt, Height;
    var p', w', left', right' :=
      MergedParent(parent, n, n1, n2), MergedWeight(weight, n, n1, n2), left + [n1], right + [n2];
    AddWeightsUnpacked(weight[n1], weight[n2]);
    forall k {:trigger left'[k]} | a < k <= n + 1
      ensures PickedAt(p', w', left'[k], right'[k], k - 1) && 1 <= left'[k] < k && 1 <= right'[k] < k
      ensures w'[k] / 256 == w'[left'[k]] / 256 + w'[right'[k]] / 256
    {
      if k <= n {
        assert left'[k] == left[k] && right'[k] == right[k];
        PickedRange(parent, weight, left[k], right[k], k - 1);
        PickedStays(parent, weight, n, n1, n2, left[k], right[k], k - 1);
      } else {
        PickedNow(parent, weight, a, n, n1, n2);
      }
    }
  }

  lemma PickedRange(parent: seq<int>, weight: seq<int>, x: int, y: int, k: int)
    requires PickedAt(parent, weight, x, y, k)
    ensures 1 <= x <= k && 1 <= y <= k
  {
  }

  // ----- the forest and its roots

  ghost predicate RootsAre(items: multiset<int>, parent: seq<int>, n: int) {
    forall x {:trigger items[x]} :: items[x] == if IsRoot(parent, n, x) then 1 else 0
  }

  ghost predicate Least(items: multiset<int>, w: seq<int>, m: int) {
    m in items && 0 <= m < |w| && forall x :: x in items ==> 0 <= x < |w| && w[m] <= w[x]
  }

  // n1, then n2, are least by weight word.
  ghost predicate TwoLeast(items: multiset<int>, w: seq<int>, n1: int, n2: int) {
    Least(items, w, n1) && Least(items - multiset{n1}, w, n2)
  }

  lemma LeastTwice(items: multiset<int>, w: seq<int>, n1: int, n2: int)
    requires Least(items, w, n1) && Least(items - multiset{n1}, w, n2)
    ensures TwoLeast(items, w, n1, n2)
  {
  }

  // The forest after some merges; items are its roots.
  ghost predicate Core(items: multiset<int>, w: seq<int>, p: seq<int>, left: seq<int>, right: seq<int>, a: int, n: int,
                       total: int) {
    && |w| == 516 && |p| == 516 && w[0] == 0 && 2 <= a <= 258 && n < 516
    && RootsAre(items, p, n)
    && Binary(p, left, right, a, n) && Tall(p, w, a, n) && Heavy(p, w, n) && Greedy(p, w, left, right, a, n)
    && RootSum(p, w, n) == total < 0x80_0000
  }

  lemma PickedLightest(items: multiset<int>, p: seq<int>, w: seq<int>, n: nat, n1: int, n2: int)
    requires RootsAre(items, p, n) && Heavy(p, w, n)
    requires TwoLeast(items, w, n1, n2)
    ensures Lightest(p, w, n, n1, n2)
    ensures n + 1 < |p| ==>
      RootsAre(items - multiset{n1} - multiset{n2} + multiset{n + 1}, MergedParent(p, n, n1, n2), n + 1)
  {
    assert items[n1] == 1 && items[n2] == 1;
    forall x | IsRoot(p, n, x) && x != n1
      ensures w[n2] <= w[x]
    {
      assert items[x] == 1;
    }
  }

  lemma MergeCore(items: multiset<int>, w: seq<int>, p: seq<int>, left: seq<int>, right: seq<int>, a: int, n: nat,
                  total: int, n1: int, n2: int)
    requires Core(items, w, p, left, right, a, n, total) && n < 515
    requires TwoLeast(items, w, n1, n2)
    ensures 1 <= n1 <= n && 1 <= n2 <= n && n1 != n2 && 0 <= w[n1] < 0x8000_0000 && 0 <= w[n2] < 0x8000_0000
    ensures 256 <= MergedWeight(w, n, n1, n2)[n + 1] < 0x8000_0000
    ensures Core(items - multiset{n1} - multiset{n2} + multiset{n + 1}, MergedWeight(w, n, n1, n2),
                 MergedParent(p, n, n1, n2), left + [n1], right + [n2], a, n + 1, total)
  {
    hide *;
    CoreParts(items, w, p, left, right, a, n, total);
    PickedLightest(items, p, w, n, n1, n2);
    LightestParts(p, w, n, n1, n2);
    HeightBound(p, w, n, n1);
    HeightBound(p, w, n, n2);
    MaxSmall(Height(w[n1]), Height(w[n2]));
    MergeSum(p, w, n, n1, n2);
    MergeHeavy(p, w, n, n1, n2);
    MergeShape(p, w, left, right, a, n, n1, n2);
    MergeGreedy(p, w, left, right, a, n, n1, n2);
    var p', w' := MergedParent(p, n, n1, n2), MergedWeight(w, n, n1, n2);
    MergedNew(p, w, a, n, n1, n2);
    HeightBound(p', w', n + 1, n + 1);
    CoreWhole(items - multiset{n1} - multiset{n2} + multiset{n + 1}, w', p', left + [n1], right + [n2], a, n + 1,
              total);
  }

  lemma CoreParts(items: multiset<int>, w: seq<int>, p: seq<int>, left: seq<int>, right: seq<int>, a: int, n: int,
                  total: int)
    requires Core(items, w, p, left, right, a, n, total)
    ensures |w| == 516 && |p| == 516 && w[0] == 0 && 2 <= a <= 258 && a <= n < 516 && RootsAre(items, p, n)
    ensures Binary(p, left, right, a, n) && Tall(p, w, a, n) && Heavy(p, w, n) && RootSum(p, w, n) == total < 0x80_0000
    ensures Greedy(p, w, left, right, a, n) && Linked(p, a, n)
    ensures forall k :: 1 <= k <= n ==> 0 <= w[k]
  {
    hide Fib, RootSum, RootsAre, Greedy;
  }

  lemma CoreWhole(items: multiset<int>, w: seq<int>, p: seq<int>, left: seq<int>, right: seq<int>, a: int, n: int,
                  total: int)
    requires |w| == 516 && |p| == 516 && w[0] == 0 && 2 <= a <= 258 && 0 <= n < 516 && RootsAre(items, p, n)
    requires Binary(p, left, right, a, n) && Tall(p, w, a, n) && Heavy(p, w, n) && RootSum(p, w, n) == total < 0x80_0000
    requires Greedy(p, w, left, right, a, n)
    ensures Core(items, w, p, left, right, a, n, total)
  {
    hide Fib, RootSum, Binary, RootsAre, Tall, Heavy, Greedy;
  }

  lemma LightestParts(p: seq<int>, w: seq<int>, n: nat, n1: int, n2: int)
    requires Lightest(p, w, n, n1, n2)
    ensures IsRoot(p, n, n1) && IsRoot(p, n, n2) && 1 <= n1 <= n && 1 <= n2 <= n && n1 != n2
  {
  }

  lemma MaxSmall(x: nat, y: nat)
    requires x < 33 && y < 33
    ensures Max(x, y) < 255
  {
  }

  lemma MergedNew(p: seq<int>, w: seq<int>, a: int, n: nat, n1: int, n2: int)
    requires |p| == 516 && |w| == 516 && n < 515 && 1 <= n1 <= n && 1 <= n2 <= n && 0 <= w[n1] && 0 <= w[n2]
    requires Tall(MergedParent(p, n, n1, n2), MergedWeight(w, n, n1, n2), a, n + 1)
    ensures var p', w' := MergedParent(p, n, n1, n2), MergedWeight(w, n, n1, n2);
      |p'| == 516 && |w'| == 516 && IsRoot(p', n + 1, n + 1) && 256 <= w'[n + 1] && w'[0] == w[0]
  {
    hide AddWeights, Height;
  }

  lemma ItemsBelow(rest: multiset<int>, w: seq<int>, p: seq<int>, left: seq<int>, right: seq<int>, a: int, n: nat,
                   total: int, items: multiset<int>)
    requires Core(items, w, p, left, right, a, n, total) && rest <= items
    ensures forall x :: x in rest ==> 1 <= x <= n
  {
    forall x | x in rest
      ensures 1 <= x <= n
    {
      assert items[x] > 0;
    }
  }

  // ----- depths and the Kraft sum

  function Depth(p: seq<int>, n: int, k: int): (d: nat)
    requires 1 <= k <= n < |p|
    decreases n - k
  {
    if k < p[k] <= n then 1 + Depth(p, n, p[k]) else 0
  }

  const TOP: nat := 32

  predicate Within(lens: seq<int>, m: int) {
    forall i :: 0 <= i < |lens| ==> 0 <= lens[i] <= m
  }

  // The Kraft sum of code lengths up to m, scaled by 2^m.
  function Kraft(lens: seq<int>, m: nat): nat
    requires Within(lens, m)
    decreases |lens|
  {
    if lens == [] then 0 else Kraft(lens[..|lens| - 1], m) + Pow2(m - lens[|lens| - 1])
  }

  predicate Short(lens: seq<int>) {
    Within(lens, TOP)
  }

  function KraftSum(lens: seq<int>): nat
    requires Short(lens)
  {
    Kraft(lens, TOP)
  }

  lemma OnlyRoot(items: multiset<int>, p: seq<int>, a: int, n: int, r: int)
    requires Linked(p, a, n) && RootsAre(items, p, n) && items == multiset{r} && 1 <= n
    ensures r == n && forall k :: 1 <= k < n ==> p[k] != -1
  {
    assert IsRoot(p, n, n) && items[n] == 1;
    forall k | 1 <= k < n
      ensures p[k] != -1
    {
      assert items[k] == 0;
    }
  }

  ghost predicate SingleTree(p: seq<int>, a: int, n: int) {
    Linked(p, a, n) && 1 <= n && p[n] == -1 && forall k :: 1 <= k < n ==> p[k] != -1
  }

  lemma {:induction false} SingleRootSum(p: seq<int>, w: seq<int>, a: int, n: int, k: nat)
    requires SingleTree(p, a, n) && k <= n < |w|
    ensures RootSum(p, w, k) == if k == n then w[n] / 256 else 0
    decreases k
  {
    if k != 0 {
      SingleRootSum(p, w, a, n, k - 1);
    }
  }

  lemma {:induction false} DepthPlusHeight(p: seq<int>, w: seq<int>, a: int, n: int, k: int)
    requires SingleTree(p, a, n) && Tall(p, w, a, n) && 1 <= k <= n
    ensures Depth(p, n, k) + Height(w[k]) <= Height(w[n])
    ensures 1 <= k <= a < n ==> 1 <= Depth(p, n, k)
    decreases n - k
  {
    if k < n {
      DepthPlusHeight(p, w, a, n, p[k]);
    }
  }

  // ----- the front: what are the roots when k nodes are there

  // The values v of the nodes up to j whose parent lies beyond k.
  ghost function FrontTotal(p: seq<int>, v: seq<int>, k: int, j: nat): int
    requires j < |p| && j < |v|
    decreases j
  {
    if j == 0 then 0 else FrontTotal(p, v, k, j - 1) + (if Beyond(p, k, j) then v[j] else 0)
  }

  lemma {:induction false} FrontStep(p: seq<int>, v: seq<int>, left: seq<int>, right: seq<int>, a: int, n: int, k: int,
                                     j: nat)
    requires Binary(p, left, right, a, n) && a < k <= n && j < k && n < |v|
    ensures FrontTotal(p, v, k - 1, j) == FrontTotal(p, v, k, j)
              + (if left[k] <= j then v[left[k]] else 0) + (if right[k] <= j then v[right[k]] else 0)
    decreases j
  {
    if j != 0 {
      FrontStep(p, v, left, right, a, n, k, j - 1);
    }
  }

  // Node k + 1 takes the place of its children.
  lemma FrontNext(p: seq<int>, v: seq<int>, left: seq<int>, right: seq<int>, a: int, n: int, k: int)
    requires Binary(p, left, right, a, n) && a <= k < n < |v|
    ensures FrontTotal(p, v, k, k) == FrontTotal(p, v, k + 1, k) + v[left[k + 1]] + v[right[k + 1]]
    ensures FrontTotal(p, v, k + 1, k + 1) == FrontTotal(p, v, k + 1, k) + v[k + 1]
  {
    FrontStep(p, v, left, right, a, n, k + 1, k);
  }

  lemma {:induction false} FrontTop(p: seq<int>, v: seq<int>, a: int, n: int, j: nat)
    requires SingleTree(p, a, n) && j <= n < |v|
    ensures FrontTotal(p, v, n, j) == if j == n then v[n] else 0
    decreases j
  {
    if j != 0 {
      FrontTop(p, v, a, n, j - 1);
    }
  }

  // What a code of length l takes of 2^m; nothing if it is longer than m.
  function Share(m: nat, l: int): nat { if 0 <= l <= m then Pow2(m - l) else 0 }

  function Shares(m: nat, l: seq<int>): (v: seq<int>)
    ensures |v| == |l|
  {
    seq(|l|, i requires 0 <= i < |l| => Share(m, l[i]))
  }

  // The lengths of the leaves, listed from leaf 1 on.
  lemma {:induction false} FrontLeaves(p: seq<int>, l: seq<int>, a: int, n: int, lens: seq<int>, m: nat, j: nat)
    requires Linked(p, a, n) && j <= a <= |lens| && a < |l| && Within(lens, m)
    requires forall i :: 0 <= i < a ==> lens[i] == l[i + 1]
    ensures FrontTotal(p, Shares(m, l), a, j) == Kraft(lens[..j], m)
    decreases j
  {
    hide Pow2;
    if j != 0 {
      FrontLeaves(p, l, a, n, lens, m, j - 1);
      assert lens[..j][..j - 1] == lens[..j - 1];
    }
  }

  lemma Pow2Pred(n: nat)
    requires 0 < n
    ensures Pow2(n) == Pow2(n - 1) + Pow2(n - 1)
  {
  }

  function Depths(p: seq<int>, n: int): (l: seq<int>)
    requires 0 <= n < |p|
    ensures |l| == n + 1 && forall i :: 1 <= i <= n ==> l[i] == Depth(p, n, i)
  {
    seq(n + 1, i requires 0 <= i <= n => if i == 0 then 0 else Depth(p, n, i))
  }

  lemma DepthOfChildren(p: seq<int>, left: seq<int>, right: seq<int>, a: int, n: int, k: int)
    requires Binary(p, left, right, a, n) && a < k <= n
    ensures var l := Depths(p, n); l[left[k]] == l[k] + 1 && l[right[k]] == l[k] + 1
  {
  }

  // Replacing an internal node by its two children keeps the sum, down to the leaves.
  lemma {:induction false} FrontConstant(p: seq<int>, left: seq<int>, right: seq<int>, a: int, n: int, k: nat)
    requires SingleTree(p, a, n) && Binary(p, left, right, a, n) && a <= k <= n
    requires forall i :: a < i <= n ==> Depth(p, n, i) < TOP
    ensures FrontTotal(p, Shares(TOP, Depths(p, n)), k, k) == Pow2(TOP)
    decreases n - k
  {
    hide Pow2;
    var v := Shares(TOP, Depths(p, n));
    if k == n {
      FrontTop(p, v, a, n, n);
    } else {
      FrontConstant(p, left, right, a, n, k + 1);
      FrontNext(p, v, left, right, a, n, k);
      DepthOfChildren(p, left, right, a, n, k + 1);
      Pow2Pred(TOP - Depth(p, n, k + 1));
    }
  }

  /** The lengths read off a finished tree satisfy the Kraft equality. */
  lemma TreeKraft(w: seq<int>, p: seq<int>, left: seq<int>, right: seq<int>, a: nat, n: int, lens: seq<int>)
    requires SingleTree(p, a, n) && Binary(p, left, right, a, n) && Tall(p, w, a, n) && Height(w[n]) <= TOP
    requires a == |lens| && forall i :: 0 <= i < a ==> lens[i] == Depth(p, n, i + 1)
    ensures Short(lens) && KraftSum(lens) == Pow2(TOP)
  {
    forall i | 1 <= i <= n
      ensures Depth(p, n, i) <= TOP && (a < i ==> Depth(p, n, i) < TOP)
    {
      DepthPlusHeight(p, w, a, n, i);
      assert a < i ==> Height(w[left[i]]) < Height(w[i]);
    }
    forall i | 0 <= i < a
      ensures 0 <= lens[i] <= TOP
    {
      assert lens[i] == Depth(p, n, i + 1);
    }
    FrontConstant(p, left, right, a, n, a);
    FrontLeaves(p, Depths(p, n), a, n, lens, TOP, a);
    assert lens[..a] == lens;
  }
}
