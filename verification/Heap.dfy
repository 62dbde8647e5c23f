/**
 The binary heap of the code-length builder: heap[1..nHeap] holds node numbers
 ordered by their packed weights, heap[0] is a sentinel of weight 0.
 */
module Heap {

  ghost predicate Edge(h: seq<int>, w: seq<int>, k: int) {
    && 2 <= k < |h| && 0 <= h[k] < |w| && 0 <= h[k / 2] < |w|
    && w[h[k / 2]] <= w[h[k]]
  }

  // Entries are valid node numbers and the sentinel is in place.
  ghost predicate Shaped(h: seq<int>, w: seq<int>, n: int) {
    && 0 <= n < |h| && 0 < |w| && h[0] == 0 && w[0] == 0
    && forall k :: 1 <= k <= n ==> 0 <= h[k] < |w| && 0 <= w[h[k]]
  }

  ghost predicate Ordered(h: seq<int>, w: seq<int>, n: int) {
    && Shaped(h, w, n)
    && forall k {:trigger Edge(h, w, k)} :: 2 <= k <= n ==> Edge(h, w, k)
  }

  // Ordered except that the entry at z may be too light for its place.
  ghost predicate OrderedAbove(h: seq<int>, w: seq<int>, n: int, z: int) {
    && Shaped(h, w, n) && 1 <= z <= n
    && (forall k {:trigger Edge(h, w, k)} :: 2 <= k <= n && k != z ==> Edge(h, w, k))
    && (forall k {:trigger Skip(h, w, k)} :: 4 <= k <= n && k / 2 == z ==> Skip(h, w, k))
  }

  // Ordered except that the entry at z may be too heavy for its place.
  ghost predicate OrderedBelow(h: seq<int>, w: seq<int>, n: int, z: int) {
    && Shaped(h, w, n) && 1 <= z
    && (forall k {:trigger Edge(h, w, k)} :: 2 <= k <= n && k / 2 != z ==> Edge(h, w, k))
    && (forall k {:trigger Skip(h, w, k)} :: 4 <= k <= n && k / 2 == z ==> Skip(h, w, k))
  }

  // An entry against its grandparent.
  ghost predicate Skip(h: seq<int>, w: seq<int>, k: int) {
    && 4 <= k < |h| && 0 <= h[k] < |w| && 0 <= h[k / 4] < |w|
    && w[h[k / 4]] <= w[h[k]]
  }

  // The entries, with multiplicity.
  ghost function Items(h: seq<int>, n: int): multiset<int>
    requires 0 <= n < |h|
    decreases n
  {
    if n == 0 then multiset{} else Items(h, n - 1) + multiset{h[n]}
  }

  lemma {:induction false} ItemsIsSlice(h: seq<int>, n: int)
    requires 0 <= n < |h|
    ensures Items(h, n) == multiset(h[1..n + 1])
    decreases n
  {
    if n != 0 {
      ItemsIsSlice(h, n - 1);
      assert h[1..n + 1] == h[1..n] + [h[n]];
    }
  }

  function Swap(h: seq<int>, i: int, j: int): seq<int>
    requires 0 <= i < |h| && 0 <= j < |h|
  {
    h[i := h[j]][j := h[i]]
  }

  // Filling the hole at z from y moves the hole, whose logical content is t, to y.
  lemma HoleMoves(a: seq<int>, z: int, y: int, t: int)
    requires 0 <= z < |a| && 0 <= y < |a| && z != y
    ensures Swap(a[z := t], z, y) == a[z := a[y]][y := t]
  {
  }

  lemma SwapItems(h: seq<int>, n: int, i: int, j: int)
    requires 0 <= n < |h| && 1 <= i <= n && 1 <= j <= n
    ensures Items(Swap(h, i, j), n) == Items(h, n)
  {
    hide Items;
    ItemsIsSlice(h, n);
    ItemsIsSlice(Swap(h, i, j), n);
    var s := h[1..n + 1];
    assert Swap(h, i, j)[1..n + 1] == s[i - 1 := h[j]][j - 1 := h[i]];
  }

  lemma SwapUp(h: seq<int>, w: seq<int>, n: int, z: int)
    requires OrderedAbove(h, w, n, z) && 2 <= z && w[h[z]] < w[h[z / 2]]
    ensures OrderedAbove(Swap(h, z, z / 2), w, n, z / 2)
  {
    var g, y := Swap(h, z, z / 2), z / 2;
    forall k | 2 <= k <= n && k != y
      ensures Edge(g, w, k)
    {
      assert k != z ==> Edge(h, w, k);
      assert k / 2 == z ==> Skip(h, w, k);
    }
    forall k | 4 <= k <= n && k / 2 == y
      ensures Skip(g, w, k)
    {
      assert k != z ==> Edge(h, w, k);
      assert Edge(h, w, y);
    }
  }

  lemma SwapDown(h: seq<int>, w: seq<int>, n: int, z: int, y: int)
    requires OrderedBelow(h, w, n, z) && 2 <= y <= n && y / 2 == z
    requires 2 * z <= n ==> w[h[y]] <= w[h[2 * z]]
    requires 2 * z + 1 <= n ==> w[h[y]] <= w[h[2 * z + 1]]
    requires w[h[y]] <= w[h[z]]
    ensures OrderedBelow(Swap(h, z, y), w, n, y)
  {
    var g := Swap(h, z, y);
    forall k | 2 <= k <= n && k / 2 != y
      ensures Edge(g, w, k)
    {
      assert k / 2 != z ==> Edge(h, w, k);
      assert k == z && 2 <= z ==> Skip(h, w, y);
    }
    forall k | 4 <= k <= n && k / 2 == y
      ensures Skip(g, w, k)
    {
      assert Edge(h, w, k);
    }
  }

  lemma AboveDone(h: seq<int>, w: seq<int>, n: int, z: int)
    requires OrderedAbove(h, w, n, z) && w[h[z / 2]] <= w[h[z]]
    ensures Ordered(h, w, n)
  {
    assert 2 <= z ==> Edge(h, w, z);
  }

  lemma {:induction false} RootIsLeast(h: seq<int>, w: seq<int>, n: int, k: int)
    requires Ordered(h, w, n) && 1 <= k <= n
    ensures w[h[1]] <= w[h[k]]
    decreases k
  {
    if k != 1 {
      assert Edge(h, w, k);
      RootIsLeast(h, w, n, k / 2);
    }
  }

  /** UPHEAP: sift the last entry towards the root. */
  method Upheap(heap: array<int>, weight: array<int>, n: int)
    requires heap != weight && OrderedAbove(heap[..], weight[..], n, n)
    modifies heap
    ensures Ordered(heap[..], weight[..], n) && Items(heap[..], n) == old(Items(heap[..], n))
    ensures forall k :: n < k < heap.Length ==> heap[k] == old(heap[k])
  {
    ghost var w := weight[..];
    var zz, tmp := n, heap[n];
    ghost var g := heap[..];
    hide OrderedAbove, Items, Edge, Skip;
    AboveShaped(g, w, n, zz);
    while weight[tmp] < weight[heap[zz / 2]]
      invariant 1 <= zz <= n && OrderedAbove(g, w, n, zz)
      invariant g == heap[..][zz := tmp] && Shaped(g, w, n) && g[zz] == tmp
      invariant heap[zz / 2] == g[zz / 2] && 0 <= g[zz / 2] < weight.Length
      invariant Items(g, n) == old(Items(heap[..], n))
      invariant forall k :: n < k < heap.Length ==> heap[k] == old(heap[k])
      decreases zz
    {
      assert zz != 1;
      SwapUp(g, w, n, zz);
      SwapItems(g, n, zz, zz / 2);
      AboveShaped(Swap(g, zz, zz / 2), w, n, zz / 2);
      heap[zz] := heap[zz / 2];
      g := Swap(g, zz, zz / 2);
      zz := zz / 2;
    }
    AboveDone(g, w, n, zz);
    heap[zz] := tmp;
    assert heap[..] == g;
  }

  lemma AboveShaped(h: seq<int>, w: seq<int>, n: int, z: int)
    requires OrderedAbove(h, w, n, z)
    ensures Shaped(h, w, n)
  {
  }

  lemma BelowShaped(h: seq<int>, w: seq<int>, n: int, z: int)
    requires OrderedBelow(h, w, n, z)
    ensures Shaped(h, w, n)
  {
  }

  lemma BelowDone(h: seq<int>, w: seq<int>, n: int, z: int)
    requires OrderedBelow(h, w, n, z)
    requires 2 * z <= n ==> w[h[z]] <= w[h[2 * z]]
    requires 2 * z + 1 <= n ==> w[h[z]] <= w[h[2 * z + 1]]
    ensures Ordered(h, w, n)
  {
    forall k | 2 <= k <= n
      ensures Edge(h, w, k)
    {
      assert k / 2 == z ==> k == 2 * z || k == 2 * z + 1;
    }
  }

  /** DOWNHEAP(1): sift the root entry towards the leaves. */
  method Downheap(heap: array<int>, weight: array<int>, n: int)
    requires heap != weight && 1 < heap.Length && OrderedBelow(heap[..], weight[..], n, 1)
    modifies heap
    ensures Ordered(heap[..], weight[..], n) && Items(heap[..], n) == old(Items(heap[..], n))
    ensures n == 0 ==> heap[..] == old(heap[..])
    ensures forall k :: n < k < heap.Length ==> heap[k] == old(heap[k])
  {
    hide OrderedBelow, Items, Edge, Skip, Swap;
    ghost var w := weight[..];
    var zz, tmp := 1, heap[1];
    ghost var g := heap[..];
    BelowShaped(g, w, n, zz);
    if n == 0 {
      BelowDone(g, w, n, zz);
    } else {
      while true
        invariant 1 <= zz <= n && OrderedBelow(g, w, n, zz)
        invariant g == heap[..][zz := tmp] && Shaped(g, w, n)
        invariant Items(g, n) == old(Items(heap[..], n))
        invariant forall k :: n < k < heap.Length ==> heap[k] == old(heap[k])
        decreases n - zz
      {
        var yy := zz * 2;
        if yy > n { break; }
        assert heap[yy] == g[yy];
        if yy < n {
          assert heap[yy + 1] == g[yy + 1];
          if weight[heap[yy + 1]] < weight[heap[yy]] { yy := yy + 1; }
        }
        if weight[tmp] < weight[heap[yy]] { break; }
        SwapDown(g, w, n, zz, yy);
        SwapItems(g, n, zz, yy);
        BelowShaped(Swap(g, zz, yy), w, n, yy);
        HoleMoves(heap[..], zz, yy, tmp);
        g := Swap(g, zz, yy);
        heap[zz] := heap[yy];
        zz := yy;
      }
      BelowDone(g, w, n, zz);
      heap[zz] := tmp;
      assert heap[..] == g;
    }
  }
}
