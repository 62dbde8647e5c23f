/**
 Length-limited Huffman code lengths (BZ2_hbMakeCodeLengths): the tree is built with a heap,
 and rebuilt with halved weights until no code is too long.
 */
module CodeLengths {
  import opened Bits
  import opened Forest
  import opened Heap
  import opened Huffman

  // ----- building the tree with the heap

  lemma RemoveRootOrder(h: seq<int>, w: seq<int>, n: int)
    requires Ordered(h, w, n) && 1 <= n
    ensures OrderedBelow(h[1 := h[n]], w, n - 1, 1)
  {
    forall k | 2 <= k <= n - 1 && k / 2 != 1
      ensures Edge(h[1 := h[n]], w, k)
    {
      assert Edge(h, w, k);
    }
  }

  lemma RemoveRootItems(h: seq<int>, n: int)
    requires 1 <= n < |h|
    ensures Items(h[1 := h[n]], n - 1) == Items(h, n) - multiset{h[1]} && h[1] in Items(h, n)
  {
    hide Items;
    var s, g := h[1..n + 1], h[1 := h[n]];
    ItemsIsSlice(h, n);
    ItemsIsSlice(g, n - 1);
    assert s == s[..n - 1] + [s[n - 1]];
    if n == 1 {
      assert s == [h[1]] && g[1..1] == [];
    } else {
      assert s[..n - 1][0] == h[1] && g[1..n] == s[..n - 1][0 := h[n]];
    }
  }

  lemma RootLightest(h: seq<int>, w: seq<int>, n: int, x: int)
    requires Ordered(h, w, n) && 1 <= n && x in Items(h, n)
    ensures 0 <= x < |w| && w[h[1]] <= w[x]
  {
    ItemsIsSlice(h, n);
    var k :| 0 <= k < n && h[1..n + 1][k] == x;
    RootIsLeast(h, w, n, k + 1);
  }

  // n1 = heap[1]; heap[1] = heap[nHeap]; nHeap--; DOWNHEAP(1)
  method ExtractMin(heap: array<int>, weight: array<int>, nHeap: int, ghost items: multiset<int>) returns (m: int)
    requires heap != weight && 1 <= nHeap < heap.Length
    requires Ordered(heap[..], weight[..], nHeap) && Items(heap[..], nHeap) == items
    modifies heap
    ensures Ordered(heap[..], weight[..], nHeap - 1)
    ensures Least(items, weight[..], m) && Items(heap[..], nHeap - 1) == items - multiset{m}
  {
    RemoveRootOrder(heap[..], weight[..], nHeap);
    RemoveRootItems(heap[..], nHeap);
    forall x | x in Items(heap[..], nHeap)
      ensures 0 <= x < weight.Length && weight[heap[1]] <= weight[x]
    {
      RootLightest(heap[..], weight[..], nHeap, x);
    }
    m := heap[1];
    assert Least(items, weight[..], m);
    hide Ordered, Items, OrderedBelow, Least, Shaped;
    ghost var g := heap[..][1 := heap[nHeap]];
    heap[1] := heap[nHeap];
    assert heap[..] == g;
    Downheap(heap, weight, nHeap - 1);
  }

  // nHeap++; heap[nHeap] = x; UPHEAP(nHeap)
  method Insert(heap: array<int>, weight: array<int>, nHeap: int, x: int)
    requires heap != weight && Ordered(heap[..], weight[..], nHeap) && nHeap + 1 < heap.Length
    requires 0 <= x < weight.Length && 0 <= weight[x]
    modifies heap
    ensures Ordered(heap[..], weight[..], nHeap + 1)
    ensures Items(heap[..], nHeap + 1) == old(Items(heap[..], nHeap)) + multiset{x}
  {
    ghost var h := heap[..];
    heap[nHeap + 1] := x;
    AppendItem(h, nHeap, x);
    AppendOrder(h, weight[..], nHeap, x);
    assert heap[..] == h[nHeap + 1 := x];
    Upheap(heap, weight, nHeap + 1);
  }

  lemma AppendItem(h: seq<int>, n: int, x: int)
    requires 0 <= n && n + 1 < |h|
    ensures Items(h[n + 1 := x], n + 1) == Items(h, n) + multiset{x}
  {
    ItemsIsSlice(h, n);
    ItemsIsSlice(h[n + 1 := x], n + 1);
    assert h[n + 1 := x][1..n + 2] == h[1..n + 1] + [x];
  }

  lemma AppendOrder(h: seq<int>, w: seq<int>, n: int, x: int)
    requires Ordered(h, w, n) && n + 1 < |h| && 0 <= x < |w| && 0 <= w[x]
    ensures OrderedAbove(h[n + 1 := x], w, n + 1, n + 1)
  {
    var g := h[n + 1 := x];
    forall k | 2 <= k <= n
      ensures Edge(g, w, k)
    {
      assert Edge(h, w, k);
    }
  }

  // Node n + 1 becomes the parent of m1 and m2 and enters the heap.
  method JoinRoots(heap: array<int>, weight: array<int>, parent: array<int>, nHeap: nat, n: nat, m1: int, m2: int)
    requires heap != weight && heap != parent && weight != parent && weight.Length == 516 && parent.Length == 516
    requires n < 515 && nHeap + 1 < heap.Length && 1 <= m1 <= n && 1 <= m2 <= n
    requires 0 <= weight[m1] && 0 <= weight[m2] && 0 <= AddWeights(weight[m1], weight[m2])
    requires Ordered(heap[..], weight[..], nHeap) && forall x :: x in Items(heap[..], nHeap) ==> 1 <= x <= n
    requires weight[0] == 0
    modifies heap, weight, parent
    ensures weight[..] == MergedWeight(old(weight[..]), n, m1, m2)
    ensures parent[..] == MergedParent(old(parent[..]), n, m1, m2)
    ensures Ordered(heap[..], weight[..], nHeap + 1)
    ensures Items(heap[..], nHeap + 1) == old(Items(heap[..], nHeap)) + multiset{n + 1}
  {
    ghost var w, p := weight[..], parent[..];
    OrderedFrame(heap[..], w, MergedWeight(w, n, m1, m2), nHeap, n);
    hide Ordered, Items, AddWeights;
    parent[m1] := n + 1;
    parent[m2] := n + 1;
    weight[n + 1] := AddWeights(weight[m1], weight[m2]);
    parent[n + 1] := -1;
    assert parent[..] == MergedParent(p, n, m1, m2);
    assert weight[..] == MergedWeight(w, n, m1, m2);
    Insert(heap, weight, nHeap, n + 1);
  }

  // One round: merge the two lightest roots into node nNodes + 1.
  method MergeLightest(heap: array<int>, weight: array<int>, parent: array<int>, nHeap: int, nNodes: int,
                       a: int, ghost left: seq<int>, ghost right: seq<int>, ghost total: int)
    returns (ghost n1: int, ghost n2: int)
    requires heap != weight && heap != parent && weight != parent && 1 < nHeap < heap.Length == 260
    requires weight.Length == 516 && parent.Length == 516
    requires 0 <= nNodes < 515 && Ordered(heap[..], weight[..], nHeap)
    requires Core(Items(heap[..], nHeap), weight[..], parent[..], left, right, a, nNodes, total)
    modifies heap, weight, parent
    ensures Ordered(heap[..], weight[..], nHeap - 1)
    ensures Core(Items(heap[..], nHeap - 1), weight[..], parent[..], left + [n1], right + [n2], a, nNodes + 1, total)
    ensures forall k :: 0 <= k <= nNodes ==> weight[k] == old(weight[k])
  {
    hide *;
    ghost var w, p, items := weight[..], parent[..], Items(heap[..], nHeap);
    CoreParts(items, w, p, left, right, a, nNodes, total);
    var m1 := ExtractMin(heap, weight, nHeap, items);
    var m2 := ExtractMin(heap, weight, nHeap - 1, items - multiset{m1});
    n1, n2 := m1, m2;
    LeastTwice(items, w, m1, m2);
    MergeCore(items, w, p, left, right, a, nNodes, total, m1, m2);
    ItemsBelow(items - multiset{m1} - multiset{m2}, w, p, left, right, a, nNodes, total, items);
    assert weight[..] == w && parent[..] == p && weight[n1] == w[n1] && weight[n2] == w[n2];
    SumNotNegative(w[n1], w[n2]);
    JoinRoots(heap, weight, parent, nHeap - 2, nNodes, m1, m2);
    MergedWeightFrame(w, nNodes, n1, n2);
  }

  lemma SumNotNegative(x: int, y: int)
    requires 0 <= x && 0 <= y
    ensures 0 <= AddWeights(x, y)
  {
  }

  lemma OrderedFrame(h: seq<int>, w: seq<int>, w': seq<int>, n: int, m: int)
    requires Ordered(h, w, n) && |w'| == |w| && w'[0] == 0
    requires forall x :: x in Items(h, n) ==> 1 <= x <= m
    requires m < |w| && forall x :: 1 <= x <= m ==> w'[x] == w[x]
    ensures Ordered(h, w', n)
  {
    ItemsIsSlice(h, n);
    var s := h[1..n + 1];
    forall k | 1 <= k <= n
      ensures w'[h[k]] == w[h[k]]
    {
      assert s[k - 1] == h[k] && h[k] in Items(h, n);
    }
    forall k | 2 <= k <= n
      ensures Edge(h, w', k)
    {
      assert Edge(h, w, k);
    }
  }

  ghost function LeafSum(w: seq<int>, k: nat): (s: int)
    requires k < |w|
    decreases k
  {
    if k == 0 then 0 else LeafSum(w, k - 1) + w[k] / 256
  }

  lemma {:induction false} LeafSumIsRootSum(p: seq<int>, w: seq<int>, k: nat)
    requires k < |p| && k < |w| && forall i :: 1 <= i <= k ==> p[i] == -1
    ensures RootSum(p, w, k) == LeafSum(w, k)
    decreases k
  {
    if k != 0 {
      LeafSumIsRootSum(p, w, k - 1);
    }
  }

  // The weight a retry gives to a symbol.
  function Halved(w: nat): nat {
    (1 + w / 256 / 2) * 256
  }

  lemma {:induction false} HalvedSum(w: seq<int>, w': seq<int>, k: nat)
    requires k < |w| && k < |w'| && forall i :: 1 <= i <= k ==> 0 <= w[i] && w'[i] == Halved(w[i])
    ensures LeafSum(w', k) <= k + LeafSum(w, k) / 2
    decreases k
  {
    if k != 0 {
      HalvedSum(w, w', k - 1);
    }
  }

  ghost predicate LeafWeights(w: seq<int>, a: int) {
    && |w| == 516 && 2 <= a <= 258
    && (forall i :: 1 <= i <= a ==> 256 <= w[i] && w[i] % 256 == 0)
    && LeafSum(w, a) < 0x80_0000
  }

  // All leaves are roots.
  lemma InitialCore(items: multiset<int>, w: seq<int>, p: seq<int>, a: int)
    requires LeafWeights(w, a) && |p| == 516 && w[0] == 0
    requires forall i :: 1 <= i <= a ==> p[i] == -1
    requires forall x {:trigger items[x]} :: items[x] == if 1 <= x <= a then 1 else 0
    ensures Core(items, w, p, seq(a + 1, _ => 0), seq(a + 1, _ => 0), a, a, LeafSum(w, a))
  {
    LeafSumIsRootSum(p, w, a);
    assert Fib(2) == 1 && Fib(1) == 1;
  }

  ghost predicate Finished(w: seq<int>, p: seq<int>, left: seq<int>, right: seq<int>, a: int, n: int, total: int) {
    && |w| == 516 && |p| == 516 && 2 <= a < n < 516 && SingleTree(p, a, n)
    && Binary(p, left, right, a, n) && Tall(p, w, a, n) && Heavy(p, w, n) && Greedy(p, w, left, right, a, n)
    && Weight(w[n]) == total < 0x80_0000
  }

  lemma CoreFinished(r: int, w: seq<int>, p: seq<int>, left: seq<int>, right: seq<int>, a: int, n: int, total: int)
    requires Core(multiset{r}, w, p, left, right, a, n, total) && a < n
    ensures Finished(w, p, left, right, a, n, total) && Height(w[n]) <= TOP
    ensures Fib(Height(w[n]) + 2) <= total
  {
    OnlyRoot(multiset{r}, p, a, n, r);
    SingleRootSum(p, w, a, n, n);
    assert IsRoot(p, n, n);
    HeightBound(p, w, n, n);
  }

  lemma NothingInHeap(h: seq<int>, w: seq<int>)
    requires h != [] && |h| == 260 && h[0] == 0 && |w| == 516 && w[0] == 0
    ensures Ordered(h, w, 0) && forall x :: Items(h, 0)[x] == 0
  {
  }

  // heap := the leaves; parent := all roots
  method FillHeap(heap: array<int>, weight: array<int>, parent: array<int>, a: int)
    requires heap != weight && heap != parent && weight != parent
    requires heap.Length == 260 && weight.Length == 516 && parent.Length == 516 && LeafWeights(weight[..], a)
    requires weight[0] == 0
    modifies heap, parent
    ensures Ordered(heap[..], weight[..], a)
    ensures Core(Items(heap[..], a), weight[..], parent[..], seq(a + 1, _ => 0), seq(a + 1, _ => 0), a, a,
                 LeafSum(weight[..], a))
  {
    hide Core, LeafSum, Ordered, Items;
    heap[0] := 0;
    parent[0] := -2;
    var nHeap := 0;
    ghost var w := weight[..];
    NothingInHeap(heap[..], w);
    for i := 1 to a + 1
      invariant nHeap == i - 1 && weight[..] == w && Ordered(heap[..], w, nHeap)
      invariant forall k :: 1 <= k < i ==> parent[k] == -1
      invariant forall x {:trigger Items(heap[..], nHeap)[x]} ::
        Items(heap[..], nHeap)[x] == if 1 <= x < i then 1 else 0
    {
      assert 256 <= w[i];
      hide LeafWeights;
      parent[i] := -1;
      Insert(heap, weight, nHeap, i);
      nHeap := nHeap + 1;
    }
    InitialCore(Items(heap[..], a), w, parent[..], a);
  }

  // The heap-driven merging loop: one tree remains, rooted at nNodes.
  method BuildTree(heap: array<int>, weight: array<int>, parent: array<int>, a: int)
    returns (nNodes: int, ghost left: seq<int>, ghost right: seq<int>)
    requires heap != weight && heap != parent && weight != parent
    requires heap.Length == 260 && weight.Length == 516 && parent.Length == 516 && LeafWeights(weight[..], a)
    requires weight[0] == 0
    modifies heap, weight, parent
    ensures forall k :: 0 <= k <= a ==> weight[k] == old(weight[k])
    ensures Finished(weight[..], parent[..], left, right, a, nNodes, LeafSum(old(weight[..]), a))
    ensures Height(weight[nNodes]) <= TOP
    ensures Fib(Height(weight[nNodes]) + 2) <= LeafSum(old(weight[..]), a)
  {
    hide *;
    LeafBounds(weight[..], a);
    ghost var total := LeafSum(weight[..], a);
    FillHeap(heap, weight, parent, a);
    nNodes := a;
    var nHeap := a;
    left, right := seq(a + 1, _ => 0), seq(a + 1, _ => 0);
    while nHeap > 1
      invariant 1 <= nHeap <= a && nNodes + nHeap == 2 * a
      invariant Ordered(heap[..], weight[..], nHeap)
      invariant Core(Items(heap[..], nHeap), weight[..], parent[..], left, right, a, nNodes, total)
      invariant forall k :: 0 <= k <= a ==> weight[k] == old(weight[k])
      decreases nHeap
    {
      ghost var n1, n2 := MergeLightest(heap, weight, parent, nHeap, nNodes, a, left, right, total);
      left, right := left + [n1], right + [n2];
      nNodes := nNodes + 1;
      nHeap := nHeap - 1;
    }
    OneItem(heap[..]);
    CoreFinished(heap[1], weight[..], parent[..], left, right, a, nNodes, total);
  }

  lemma LeafBounds(w: seq<int>, a: int)
    requires LeafWeights(w, a)
    ensures |w| == 516 && 2 <= a <= 258
  {
  }

  lemma OneItem(h: seq<int>)
    requires 1 < |h|
    ensures Items(h, 1) == multiset{h[1]}
  {
  }

  // Follow parent links from every leaf.
  method MeasureDepths(len: array<int>, parent: array<int>, a: nat, n: nat, maxLen: nat, ghost w: seq<int>)
    returns (tooLong: bool)
    requires len != parent && a <= len.Length && n < parent.Length && a < n
    requires SingleTree(parent[..], a, n) && Tall(parent[..], w, a, n)
    modifies len
    ensures forall i :: 0 <= i < a ==> len[i] == Depth(parent[..], n, i + 1) && 1 <= len[i]
    ensures if tooLong then maxLen < Height(w[n]) && Exceeds(len[..a], maxLen)
            else forall i :: 0 <= i < a ==> len[i] <= maxLen
    ensures forall i :: a <= i < len.Length ==> len[i] == old(len[i])
  {
    ghost var p, at := parent[..], 0;
    tooLong := false;
    for i := 1 to a + 1
      invariant parent[..] == p
      invariant forall k :: 0 <= k < i - 1 ==> len[k] == Depth(p, n, k + 1) && 1 <= len[k]
      invariant if tooLong then maxLen < Height(w[n]) && 0 <= at < i - 1 && len[at] > maxLen
                else forall k :: 0 <= k < i - 1 ==> len[k] <= maxLen
      invariant forall k :: a <= k < len.Length ==> len[k] == old(len[k])
    {
      var j, k := 0, i;
      while parent[k] >= 0
        invariant 1 <= k <= n && j >= 0 && j + Depth(p, n, k) == Depth(p, n, i)
        decreases n - k
      {
        k := parent[k];
        j := j + 1;
      }
      DepthPlusHeight(p, w, a, n, i);
      len[i - 1] := j;
      if j > maxLen {
        tooLong := true;
        at := i - 1;
      }
    }
    assert tooLong ==> len[..a][at] > maxLen;
  }

  // Halve every leaf weight, keeping it positive.
  method HalveWeights(weight: array<int>, a: nat)
    requires LeafWeights(weight[..], a) && LeafSum(weight[..], a) > 2 * a
    modifies weight
    ensures LeafWeights(weight[..], a) && LeafSum(weight[..], a) < LeafSum(old(weight[..]), a)
    ensures weight[0] == old(weight[0]) && forall k :: 1 <= k <= a ==> weight[k] == Halved(old(weight[k]))
  {
    hide LeafSum;
    ghost var w := weight[..];
    for i := 1 to a + 1
      invariant forall k :: 1 <= k < i ==> weight[k] == Halved(w[k])
      invariant forall k :: i <= k <= a ==> weight[k] == w[k]
      invariant weight[0] == w[0]
    {
      var j := weight[i] / 256;
      j := 1 + j / 2;
      weight[i] := j * 256;
    }
    HalvedSum(w, weight[..], a);
  }

  // The weight of a symbol after r retries.
  function LeafWeight(freq: int, r: nat): int
    decreases r
  {
    if r == 0 then (if freq == 0 then 1 else freq) else 1 + LeafWeight(freq, r - 1) / 2
  }

  function Weights(freq: seq<int>, r: nat): (f: seq<int>)
    ensures |f| == |freq|
  {
    seq(|freq|, i requires 0 <= i < |freq| => LeafWeight(freq[i], r))
  }

  ghost predicate Exceeds(lens: seq<int>, maxLen: int) {
    exists i :: 0 <= i < |lens| && lens[i] > maxLen
  }

  // An optimal code for these weights is too long.
  ghost predicate TooLong(f: seq<int>, maxLen: int) {
    exists lens: seq<int> :: Optimal(f, lens) && Exceeds(lens, maxLen)
  }

  ghost predicate Retried(freq: seq<int>, maxLen: int, r: nat) {
    forall q: nat :: q < r ==> TooLong(Weights(freq, q), maxLen)
  }

  /** lens are optimal for the frequencies, or for as many halvings of them as it took an optimal
      code not to be too long. */
  ghost predicate Built(freq: seq<int>, maxLen: int, lens: seq<int>) {
    exists r: nat :: Retried(freq, maxLen, r) && Optimal(Weights(freq, r), lens)
  }

  /** Unless an optimal code for the frequencies, zeros counted as one, is too long, the lengths are such a
      code. */
  lemma FirstRound(freq: seq<int>, maxLen: int, lens: seq<int>)
    requires Built(freq, maxLen, lens)
    ensures var f := seq(|freq|, i requires 0 <= i < |freq| => if freq[i] == 0 then 1 else freq[i]);
      TooLong(f, maxLen) || Optimal(f, lens)
  {
    hide TooLong, Optimal;
    var f := seq(|freq|, i requires 0 <= i < |freq| => if freq[i] == 0 then 1 else freq[i]);
    assert f == Weights(freq, 0);
  }

  /** The symbols are in order of the weights of the last round, each of which is one and half the weight
      before. */
  lemma LengthsOrdered(freq: seq<int>, maxLen: int, lens: seq<int>) returns (r: nat)
    requires Built(freq, maxLen, lens) && Short(lens) && KraftSum(lens) == Pow2(TOP)
    ensures Retried(freq, maxLen, r) && |freq| == |lens|
    ensures var w := Weights(freq, r);
      forall i, j :: 0 <= i < |lens| && 0 <= j < |lens| && w[j] < w[i] ==> lens[i] <= lens[j]
    ensures forall q: nat, i {:trigger Weights(freq, q)[i]} ::
      0 <= i < |freq| ==> Weights(freq, q + 1)[i] == 1 + Weights(freq, q)[i] / 2
  {
    hide Retried, Optimal, Kraft, Pow2;
    r :| Retried(freq, maxLen, r) && Optimal(Weights(freq, r), lens);
    OptimalSize(Weights(freq, r), lens);
    forall i, j | 0 <= i < |lens| && 0 <= j < |lens| && Weights(freq, r)[j] < Weights(freq, r)[i]
      ensures lens[i] <= lens[j]
    {
      HeavierShorter(Weights(freq, r), lens, TOP, i, j);
    }
  }

  lemma OptimalSize(f: seq<int>, lens: seq<int>)
    requires Optimal(f, lens)
    ensures |f| == |lens|
  {
  }

  lemma RetryOnce(freq: seq<int>, maxLen: int, r: nat, lens: seq<int>)
    requires Retried(freq, maxLen, r) && Optimal(Weights(freq, r), lens) && Exceeds(lens, maxLen)
    ensures Retried(freq, maxLen, r + 1)
  {
    hide Optimal, Exceeds;
  }

  // The leaves weigh what r retries make of the frequencies.
  ghost predicate Weighed(w: seq<int>, freq: seq<int>, r: nat) {
    |freq| < |w| && forall i :: 0 <= i < |freq| ==> w[i + 1] == 256 * LeafWeight(freq[i], r)
  }

  lemma HalvedWeighs(w: seq<int>, w': seq<int>, freq: seq<int>, r: nat)
    requires Weighed(w, freq, r) && |freq| < |w'| && forall i :: 1 <= i <= |freq| ==> 0 <= w[i] && w'[i] == Halved(w[i])
    ensures Weighed(w', freq, r + 1)
  {
  }

  lemma OptimalNow(p: seq<int>, w: seq<int>, left: seq<int>, right: seq<int>, a: nat, n: int, freq: seq<int>, r: nat,
                   lens: seq<int>)
    requires HuffmanTree(p, w, left, right, a, n) && n < |w| && a == |freq| == |lens| && Weighed(w, freq, r)
    requires forall i :: 0 <= i < a ==> lens[i] == Depth(p, n, i + 1)
    ensures Optimal(Weights(freq, r), lens)
  {
    hide HuffmanTree, Optimal, LeafWeight;
    TreeOptimal(p, w, left, right, a, n, Weights(freq, r), lens);
  }

  ghost function FreqSum(freq: seq<int>, k: nat): (s: int)
    requires k <= |freq|
    decreases k
  {
    if k == 0 then 0 else FreqSum(freq, k - 1) + (if freq[k - 1] == 0 then 1 else freq[k - 1])
  }

  method InitWeights(weight: array<int>, freq: array<int>, a: nat)
    requires weight != freq && weight.Length == 516 && 2 <= a <= 258 && a <= freq.Length
    requires forall i :: 0 <= i < a ==> 0 <= freq[i]
    requires FreqSum(freq[..], a) < 0x80_0000
    modifies weight
    ensures LeafWeights(weight[..], a) && weight[0] == 0
    ensures forall i :: 0 <= i < a ==> weight[i + 1] == 256 * LeafWeight(freq[i], 0)
  {
    ghost var f := freq[..];
    weight[0] := 0;
    for i := 0 to a
      invariant weight[0] == 0 && freq[..] == f
      invariant forall k :: 1 <= k <= i ==> 256 <= weight[k] && weight[k] % 256 == 0
      invariant forall k :: 0 <= k < i ==> weight[k + 1] == 256 * LeafWeight(f[k], 0)
      invariant LeafSum(weight[..], i) == FreqSum(f, i)
    {
      ghost var before := weight[..];
      weight[i + 1] := (if freq[i] == 0 then 1 else freq[i]) * 256;
      LeafSumFrame(before, weight[..], i);
    }
  }

  lemma {:induction false} LeafSumFrame(w: seq<int>, w': seq<int>, k: nat)
    requires k < |w| && k < |w'| && forall i :: 1 <= i <= k ==> w[i] == w'[i]
    ensures LeafSum(w, k) == LeafSum(w', k)
    decreases k
  {
    if k != 0 {
      LeafSumFrame(w, w', k - 1);
    }
  }

  // BuildTree leaves the leaf weights alone.
  lemma LeafWeightsFrame(w: seq<int>, w': seq<int>, a: int)
    requires LeafWeights(w, a) && |w'| == 516 && forall k :: 0 <= k <= a ==> w'[k] == w[k]
    ensures LeafWeights(w', a) && LeafSum(w', a) == LeafSum(w, a)
  {
    LeafSumFrame(w, w', a);
  }

  lemma FinishedTree(w: seq<int>, p: seq<int>, left: seq<int>, right: seq<int>, a: int, n: int, total: int)
    requires Finished(w, p, left, right, a, n, total)
    ensures |w| == 516 && |p| == 516 && 2 <= a < n < 516 && SingleTree(p, a, n) && Tall(p, w, a, n)
      && Binary(p, left, right, a, n) && HuffmanTree(p, w, left, right, a, n)
  {
  }

  // A tree too tall for the limit is heavy enough for halving to make progress.
  lemma TooTallIsHeavy(h: nat, maxLen: nat, a: nat, total: int)
    requires 17 <= maxLen < h && a <= 258
    requires Fib(h + 2) <= total
    ensures total > 2 * a
  {
    FibValues();
    FibMono(20, h + 2);
    hide Fib;
  }

  lemma NoRetry(freq: seq<int>, maxLen: int)
    ensures Retried(freq, maxLen, 0)
  {
  }

  lemma FirstWeighed(w: seq<int>, freq: seq<int>)
    requires |freq| < |w| && forall i :: 0 <= i < |freq| ==> w[i + 1] == 256 * LeafWeight(freq[i], 0)
    ensures Weighed(w, freq, 0)
  {
    hide LeafWeight;
  }

  lemma SameWeighed(w: seq<int>, w': seq<int>, freq: seq<int>, r: nat)
    requires Weighed(w, freq, r) && |w'| == |w| && forall k :: 0 <= k <= |freq| ==> w'[k] == w[k]
    ensures Weighed(w', freq, r)
  {
    hide LeafWeight;
  }

  lemma LeavesPositive(w: seq<int>, a: nat)
    requires LeafWeights(w, a)
    ensures a < |w| && forall i :: 1 <= i <= a ==> 0 <= w[i]
  {
  }

  lemma BuiltNow(freq: seq<int>, maxLen: int, r: nat, lens: seq<int>)
    requires Retried(freq, maxLen, r) && Optimal(Weights(freq, r), lens)
    ensures Built(freq, maxLen, lens)
  {
    hide Optimal, Retried, Weights;
  }

  /** BZ2_hbMakeCodeLengths: a Huffman tree over the frequencies, rebuilt with halved
      weights until no code is longer than maxLen.  The result is a complete code, optimal for the
      weights of the last round. */
  method MakeCodeLengths(len: array<int>, freq: array<int>, alphaSize: nat, maxLen: nat)
    requires len != freq && 2 <= alphaSize <= 258 && alphaSize <= len.Length && alphaSize <= freq.Length
    requires 17 <= maxLen <= 20
    requires forall i :: 0 <= i < alphaSize ==> 0 <= freq[i]
    requires FreqSum(freq[..], alphaSize) < 0x80_0000
    modifies len
    ensures forall i :: 0 <= i < alphaSize ==> 1 <= len[i] <= maxLen
    ensures Short(len[..alphaSize]) && KraftSum(len[..alphaSize]) == Pow2(TOP)
    ensures Built(freq[..alphaSize], maxLen, len[..alphaSize])
    ensures forall i :: alphaSize <= i < len.Length ==> len[i] == old(len[i])
  {
    hide *;
    var heap, weight, parent := new int[260], new int[516], new int[516];
    InitWeights(weight, freq, alphaSize);
    ghost var f, r := freq[..alphaSize], 0;
    NoRetry(f, maxLen);
    FirstWeighed(weight[..], f);
    while true
      invariant LeafWeights(weight[..], alphaSize) && weight[0] == 0 && freq[..alphaSize] == f
      invariant Weighed(weight[..], f, r) && Retried(f, maxLen, r)
      invariant forall i :: alphaSize <= i < len.Length ==> len[i] == old(len[i])
      decreases LeafSum(weight[..], alphaSize)
    {
      ghost var w := weight[..];
      var nNodes, left, right := BuildTree(heap, weight, parent, alphaSize);
      ghost var w', p := weight[..], parent[..];
      FinishedTree(w', p, left, right, alphaSize, nNodes, LeafSum(w, alphaSize));
      LeafWeightsFrame(w, w', alphaSize);
      SameWeighed(w, w', f, r);
      var tooLong := MeasureDepths(len, parent, alphaSize, nNodes, maxLen, w');
      OptimalNow(p, w', left, right, alphaSize, nNodes, f, r, len[..alphaSize]);
      if !tooLong {
        TreeKraft(w', p, left, right, alphaSize, nNodes, len[..alphaSize]);
        BuiltNow(f, maxLen, r, len[..alphaSize]);
        break;
      }
      RetryOnce(f, maxLen, r, len[..alphaSize]);
      TooTallIsHeavy(Height(w'[nNodes]), maxLen, alphaSize, LeafSum(w, alphaSize));
      LeavesPositive(w', alphaSize);
      HalveWeights(weight, alphaSize);
      HalvedWeighs(w', weight[..], f, r);
      r := r + 1;
    }
  }
}
