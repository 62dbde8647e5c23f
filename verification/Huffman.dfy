/**
 Why the lengths of Huffman's algorithm are the best there are: no lengths that satisfy
 Kraft's inequality, whatever code they belong to, have a smaller weighted sum.
 */
module Huffman {
  import opened Bits
  import opened Forest

  // The bits that symbols of frequencies f take with code lengths lens.
  ghost function Cost(f: seq<int>, lens: seq<int>): int
    requires |f| == |lens|
    decreases |f|
  {
    if f == [] then 0 else Cost(f[..|f| - 1], lens[..|f| - 1]) + f[|f| - 1] * lens[|f| - 1]
  }

  ghost predicate NoBetter(f: seq<int>, lens: seq<int>, other: seq<int>, m: nat) {
    |f| == |lens| == |other| && Within(other, m) && Kraft(other, m) <= Pow2(m) ==> Cost(f, lens) <= Cost(f, other)
  }

  /** No lengths with Kraft sum at most one cost less. */
  ghost predicate Optimal(f: seq<int>, lens: seq<int>) {
    |f| == |lens| && forall other: seq<int>, m: nat :: NoBetter(f, lens, other, m)
  }

  // ----- what the front costs

  function Products(w: seq<int>, l: seq<int>): (v: seq<int>)
    requires |l| <= |w|
    ensures |v| == |l|
  {
    seq(|l|, i requires 0 <= i < |l| => w[i] / 256 * l[i])
  }

  ghost predicate Front(p: seq<int>, k: int, i: int) {
    1 <= i <= k && i < |p| && Beyond(p, k, i)
  }

  lemma {:induction false} FrontSame(p: seq<int>, v: seq<int>, v': seq<int>, k: int, j: nat)
    requires j < |p| && j < |v| && j < |v'| && forall i :: 1 <= i <= j && Beyond(p, k, i) ==> v[i] == v'[i]
    ensures FrontTotal(p, v, k, j) == FrontTotal(p, v', k, j)
    decreases j
  {
    if j != 0 { FrontSame(p, v, v', k, j - 1); }
  }

  lemma {:induction false} FrontUpdate(p: seq<int>, v: seq<int>, k: int, j: nat, i: int, x: int)
    requires j < |p| && j < |v| && 1 <= i <= j && Beyond(p, k, i)
    ensures FrontTotal(p, v[i := x], k, j) == FrontTotal(p, v, k, j) - v[i] + x
    decreases j
  {
    if i < j {
      FrontUpdate(p, v, k, j - 1, i, x);
    } else {
      FrontSame(p, v, v[i := x], k, j - 1);
    }
  }

  lemma FrontSwap(p: seq<int>, v: seq<int>, k: int, x: int, y: int, s: int, t: int)
    requires 0 <= k < |p| && k < |v| && Front(p, k, x) && Front(p, k, y) && x != y
    ensures FrontTotal(p, v[x := s][y := t], k, k) == FrontTotal(p, v, k, k) - v[x] - v[y] + s + t
  {
    FrontUpdate(p, v, k, k, x, s);
    FrontUpdate(p, v[x := s], k, k, y, t);
  }

  lemma Rearranged(u: int, v: int, s: int, t: int)
    requires u <= v && s <= t
    ensures u * t + v * s <= u * s + v * t
  {
    assert 0 <= (v - u) * (t - s);
  }

  /** Giving the longer of two codes to the lighter of two nodes costs no more. */
  lemma SwapLengths(p: seq<int>, w: seq<int>, k: int, l: seq<int>, x: int, y: int, m: nat)
    requires 0 <= k < |p| && k < |l| <= |w| && Front(p, k, x) && Front(p, k, y) && x != y
    requires w[x] <= w[y] && l[x] <= l[y]
    ensures var l' := l[x := l[y]][y := l[x]];
      && FrontTotal(p, Shares(m, l'), k, k) == FrontTotal(p, Shares(m, l), k, k)
      && FrontTotal(p, Products(w, l'), k, k) <= FrontTotal(p, Products(w, l), k, k)
  {
    hide FrontTotal, Pow2, Share;
    var l' := l[x := l[y]][y := l[x]];
    var s, q := Shares(m, l), Products(w, l);
    assert Shares(m, l') == s[x := s[y]][y := s[x]];
    FrontSwap(p, s, k, x, y, s[y], s[x]);
    var u, v := w[x] / 256, w[y] / 256;
    assert Products(w, l') == q[x := u * l[y]][y := v * l[x]];
    FrontSwap(p, q, k, x, y, u * l[y], v * l[x]);
    Rearranged(u, v, l[x], l[y]);
  }

  // The longest code on the front, skip aside.
  lemma {:induction false} Longest(p: seq<int>, l: seq<int>, k: int, j: int, skip: int, s: int) returns (u: int)
    requires 0 <= j <= k < |p| && k < |l| && Front(p, k, s) && s != skip
    ensures Front(p, k, u) && u != skip && l[s] <= l[u]
    ensures forall i :: Front(p, k, i) && i <= j && i != skip ==> l[i] <= l[u]
    decreases j
  {
    u := s;
    if j != 0 {
      u := Longest(p, l, k, j - 1, skip, s);
      if Front(p, k, j) && j != skip && l[u] < l[j] { u := j; }
    }
  }

  // Every length on the front fits the scale.
  ghost predicate FrontWithin(p: seq<int>, l: seq<int>, k: int, m: nat) {
    0 <= k < |p| && k < |l| && forall i :: Front(p, k, i) ==> 0 <= l[i] <= m
  }

  /** The two lightest nodes can be given the two longest codes. */
  lemma Arrange(p: seq<int>, w: seq<int>, l: seq<int>, k: int, m: nat, x: int, y: int) returns (l': seq<int>)
    requires FrontWithin(p, l, k, m) && |l| <= |w| && |l| <= |p| && PickedAt(p, w, x, y, k)
    requires Front(p, k, x) && Front(p, k, y) && x != y
    ensures |l'| == |l| && FrontWithin(p, l', k, m)
    ensures l'[y] <= l'[x] && forall i :: Front(p, k, i) && i != x ==> l'[i] <= l'[y]
    ensures FrontTotal(p, Shares(m, l'), k, k) == FrontTotal(p, Shares(m, l), k, k)
    ensures FrontTotal(p, Products(w, l'), k, k) <= FrontTotal(p, Products(w, l), k, k)
  {
    hide FrontTotal, Shares, Products;
    l' := l;
    var u := Longest(p, l', k, k, 0, x);
    if u != x {
      assert w[x] <= w[u];
      SwapLengths(p, w, k, l', x, u, m);
      l' := l'[x := l'[u]][u := l'[x]];
    }
    assert forall i :: Front(p, k, i) ==> l'[i] <= l'[x];
    var v := Longest(p, l', k, k, x, y);
    if v != y {
      SwapLengths(p, w, k, l', y, v, m);
      l' := l'[y := l'[v]][v := l'[y]];
    }
  }

  // ----- the scale of the longest code but one

  lemma PowScale(m: nat, d: nat, l: nat)
    requires l <= d <= m
    ensures Pow2(m - l) == Pow2(m - d) * Pow2(d - l)
  {
    Pow2Add(m - d, d - l);
  }

  lemma {:induction false} FrontScale(p: seq<int>, l: seq<int>, k: int, j: nat, m: nat, d: nat)
    requires j < |p| && j < |l| && d <= m && forall i :: 1 <= i <= j && Beyond(p, k, i) ==> 0 <= l[i] <= d
    ensures FrontTotal(p, Shares(m, l), k, j) == Pow2(m - d) * FrontTotal(p, Shares(d, l), k, j)
    decreases j
  {
    hide Pow2;
    if j != 0 {
      FrontScale(p, l, k, j - 1, m, d);
      if Beyond(p, k, j) { PowScale(m, d, l[j]); }
      Distribute(Pow2(m - d), FrontTotal(p, Shares(d, l), k, j - 1), Share(d, l[j]));
    }
  }

  lemma Distribute(a: int, b: int, c: int)
    ensures a * (b + c) == a * b + a * c
  {
  }

  lemma Cancel(unit: int, x: int, y: int)
    requires 0 < unit && unit * x < unit * y
    ensures x < y
  {
  }

  lemma Room(unit: int, t: int, whole: int, extra: int)
    requires 0 < unit && 0 < extra && unit * t + unit + extra <= unit * whole
    ensures t + 2 <= whole
  {
    Distribute(unit, t, 1);
    Cancel(unit, t + 1, whole);
  }

  /** If the two longest codes are shortened to the length of the shorter one, and merged into
      a code one bit shorter, Kraft's inequality still holds. */
  lemma MergedFits(p: seq<int>, l: seq<int>, left: seq<int>, right: seq<int>, a: int, n: int, k: int, m: nat)
    requires Binary(p, left, right, a, n) && a <= k < n < |l| && FrontWithin(p, l, k, m)
    requires var x, y := left[k + 1], right[k + 1];
      l[y] <= l[x] && forall i :: Front(p, k, i) && i != x ==> l[i] <= l[y]
    requires FrontTotal(p, Shares(m, l), k, k) <= Pow2(m)
    ensures var d := l[right[k + 1]];
      1 <= d <= m && FrontTotal(p, Shares(d, l[k + 1 := d - 1]), k + 1, k + 1) <= Pow2(d)
        && FrontWithin(p, l[k + 1 := d - 1], k + 1, d)
  {
    hide Pow2, FrontTotal;
    var x, y := left[k + 1], right[k + 1];
    assert Front(p, k, x) && Front(p, k, y);
    var d: nat := l[y];
    FrontNext(p, Shares(m, l), left, right, a, n, k);
    assert forall i :: 1 <= i <= k && Beyond(p, k + 1, i) ==> Front(p, k, i) && i != x;
    FrontScale(p, l, k + 1, k, m, d);
    PowScale(m, d, 0);
    var t := FrontTotal(p, Shares(d, l), k + 1, k);
    Room(Pow2(m - d), t, Pow2(d), Pow2(m - l[x]));
    FrontNonneg(p, Shares(d, l), k + 1, k);
    PowSmall(d);
    var l' := l[k + 1 := d - 1];
    FrontNext(p, Shares(d, l'), left, right, a, n, k);
    FrontSame(p, Shares(d, l), Shares(d, l'), k + 1, k);
  }

  lemma {:induction false} FrontNonneg(p: seq<int>, v: seq<int>, k: int, j: nat)
    requires j < |p| && j < |v| && forall i :: 0 <= i < |v| ==> 0 <= v[i]
    ensures 0 <= FrontTotal(p, v, k, j)
    decreases j
  {
    if j != 0 { FrontNonneg(p, v, k, j - 1); }
  }

  lemma PowSmall(d: nat)
    ensures Pow2(d) >= 2 ==> 1 <= d
    ensures 1 <= d ==> Share(d, d - 1) == 2
  {
    assert Pow2(1) == 2;
  }

  // ----- the bound

  // The weights of the nodes made by merging, from k + 1 on.
  ghost function Merged(w: seq<int>, n: int, k: int): int
    requires 0 <= k <= n < |w|
    decreases n - k
  {
    if k == n then 0 else w[k + 1] / 256 + Merged(w, n, k + 1)
  }

  lemma CheaperMerged(wx: int, wy: int, lx: int, ly: int, rest: int)
    requires 0 <= wx && ly <= lx
    ensures rest + (wx + wy) * (ly - 1) + (wx + wy) <= rest + wx * lx + wy * ly
  {
    assert wx * ly <= wx * lx;
  }

  lemma MergeCosts(p: seq<int>, w: seq<int>, l: seq<int>, left: seq<int>, right: seq<int>, a: int, n: int, k: int)
    requires Binary(p, left, right, a, n) && a <= k < n < |l| <= |w| && 0 <= w[left[k + 1]]
    requires w[k + 1] / 256 == w[left[k + 1]] / 256 + w[right[k + 1]] / 256 && l[right[k + 1]] <= l[left[k + 1]]
    ensures FrontTotal(p, Products(w, l[k + 1 := l[right[k + 1]] - 1]), k + 1, k + 1) + w[k + 1] / 256
      <= FrontTotal(p, Products(w, l), k, k)
  {
    hide FrontTotal;
    var x, y := left[k + 1], right[k + 1];
    var l' := l[k + 1 := l[y] - 1];
    FrontNext(p, Products(w, l), left, right, a, n, k);
    FrontNext(p, Products(w, l'), left, right, a, n, k);
    FrontSame(p, Products(w, l), Products(w, l'), k + 1, k);
    CheaperMerged(w[x] / 256, w[y] / 256, l[x], l[y], FrontTotal(p, Products(w, l), k + 1, k));
  }

  ghost predicate HuffmanTree(p: seq<int>, w: seq<int>, left: seq<int>, right: seq<int>, a: int, n: int) {
    && SingleTree(p, a, n) && Binary(p, left, right, a, n) && Greedy(p, w, left, right, a, n) && n < |p|
    && forall i :: 1 <= i <= n ==> 0 <= w[i]
  }

  lemma TreeSizes(p: seq<int>, w: seq<int>, left: seq<int>, right: seq<int>, a: int, n: int)
    requires HuffmanTree(p, w, left, right, a, n)
    ensures n < |w| && n < |p| && |left| == n + 1 && |right| == n + 1
  {
  }

  lemma TreeAt(p: seq<int>, w: seq<int>, left: seq<int>, right: seq<int>, a: int, n: int, k: int)
    requires HuffmanTree(p, w, left, right, a, n) && a < k <= n
    ensures n < |w| && 1 <= left[k] < k && 1 <= right[k] < k && left[k] != right[k] && 0 <= w[left[k]]
    ensures PickedAt(p, w, left[k], right[k], k - 1) && w[k] / 256 == w[left[k]] / 256 + w[right[k]] / 256
    ensures Front(p, k - 1, left[k]) && Front(p, k - 1, right[k])
  {
  }

  /** Whatever lengths the roots among k nodes are given within Kraft's inequality, they cost at
      least the weights of all nodes still to be made. */
  lemma {:induction false} LowerBound(p: seq<int>, w: seq<int>, left: seq<int>, right: seq<int>, a: int, n: int,
                                      k: int, l: seq<int>, m: nat)
    requires HuffmanTree(p, w, left, right, a, n) && a <= k <= n && |l| == n + 1 && FrontWithin(p, l, k, m)
    requires FrontTotal(p, Shares(m, l), k, k) <= Pow2(m)
    ensures n < |w| && Merged(w, n, k) <= FrontTotal(p, Products(w, l), k, k)
    decreases n - k
  {
    hide Pow2, FrontTotal, Shares, Products, Binary, Greedy, PickedAt;
    TreeSizes(p, w, left, right, a, n);
    if k == n {
      RootCost(p, w, left, right, a, n, l, m);
    } else {
      TreeAt(p, w, left, right, a, n, k + 1);
      var l1 := Arrange(p, w, l, k, m, left[k + 1], right[k + 1]);
      MergedFits(p, l1, left, right, a, n, k, m);
      MergeCosts(p, w, l1, left, right, a, n, k);
      var d := l1[right[k + 1]];
      LowerBound(p, w, left, right, a, n, k + 1, l1[k + 1 := d - 1], d);
    }
  }

  lemma RootCost(p: seq<int>, w: seq<int>, left: seq<int>, right: seq<int>, a: int, n: int, l: seq<int>, m: nat)
    requires HuffmanTree(p, w, left, right, a, n) && |l| == n + 1 && FrontWithin(p, l, n, m)
    ensures n < |w| && 0 <= FrontTotal(p, Products(w, l), n, n)
  {
    FrontTop(p, Products(w, l), a, n, n);
    assert Front(p, n, n);
  }

  // The tree's own depths meet the bound.
  lemma {:induction false} TreeCost(p: seq<int>, w: seq<int>, left: seq<int>, right: seq<int>, a: int, n: int, k: int)
    requires HuffmanTree(p, w, left, right, a, n) && a <= k <= n
    ensures n < |w| && FrontTotal(p, Products(w, Depths(p, n)), k, k) == Merged(w, n, k)
    decreases n - k
  {
    hide FrontTotal, Binary, Greedy, PickedAt;
    TreeSizes(p, w, left, right, a, n);
    var v := Products(w, Depths(p, n));
    if k == n {
      FrontTop(p, v, a, n, n);
      assert Depth(p, n, n) == 0;
    } else {
      TreeAt(p, w, left, right, a, n, k + 1);
      TreeCost(p, w, left, right, a, n, k + 1);
      FrontNext(p, v, left, right, a, n, k);
      DepthOfChildren(p, left, right, a, n, k + 1);
      OneDeeper(w[left[k + 1]] / 256, w[right[k + 1]] / 256, Depth(p, n, k + 1));
    }
  }

  lemma OneDeeper(x: int, y: int, d: int)
    ensures x * (d + 1) + y * (d + 1) == (x + y) * d + (x + y)
  {
  }

  // ----- the theorem

  // Lengths listed by symbol, laid out by node.
  function ByNode(lens: seq<int>, n: nat): (l: seq<int>)
    requires |lens| <= n
    ensures |l| == n + 1 && forall i :: 0 <= i < |lens| ==> l[i + 1] == lens[i]
  {
    seq(n + 1, i => if 1 <= i <= |lens| then lens[i - 1] else 0)
  }

  lemma {:induction false} LeafCost(p: seq<int>, w: seq<int>, l: seq<int>, a: int, n: int, f: seq<int>, lens: seq<int>,
                                    j: nat)
    requires Linked(p, a, n) && j <= a == |f| == |lens| && a < |l| <= |w|
    requires forall i :: 0 <= i < a ==> lens[i] == l[i + 1] && f[i] == w[i + 1] / 256
    ensures FrontTotal(p, Products(w, l), a, j) == Cost(f[..j], lens[..j])
    decreases j
  {
    if j != 0 {
      LeafCost(p, w, l, a, n, f, lens, j - 1);
      assert f[..j][..j - 1] == f[..j - 1] && lens[..j][..j - 1] == lens[..j - 1];
    }
  }

  /** The depths of the leaves of a tree made by merging the two lightest are optimal lengths. */
  lemma TreeOptimal(p: seq<int>, w: seq<int>, left: seq<int>, right: seq<int>, a: nat, n: int, f: seq<int>,
                    lens: seq<int>)
    requires HuffmanTree(p, w, left, right, a, n) && a == |f| == |lens| && n < |w|
    requires forall i :: 0 <= i < a ==> lens[i] == Depth(p, n, i + 1) && f[i] == w[i + 1] / 256
    ensures Optimal(f, lens)
  {
    forall other: seq<int>, m: nat
      ensures NoBetter(f, lens, other, m)
    {
      if |other| == a && Within(other, m) && Kraft(other, m) <= Pow2(m) {
        NoCheaper(p, w, left, right, a, n, f, lens, other, m);
      }
    }
  }

  lemma NoCheaper(p: seq<int>, w: seq<int>, left: seq<int>, right: seq<int>, a: nat, n: int, f: seq<int>,
                  lens: seq<int>, other: seq<int>, m: nat)
    requires HuffmanTree(p, w, left, right, a, n) && a == |f| == |lens| == |other| && n < |w|
    requires forall i :: 0 <= i < a ==> lens[i] == Depth(p, n, i + 1) && f[i] == w[i + 1] / 256
    requires Within(other, m) && Kraft(other, m) <= Pow2(m)
    ensures Cost(f, lens) <= Cost(f, other)
  {
    hide Pow2, FrontTotal, Kraft, Cost, Greedy;
    var l := ByNode(other, n);
    FrontLeaves(p, l, a, n, other, m, a);
    assert other[..a] == other && lens[..a] == lens && f[..a] == f;
    LowerBound(p, w, left, right, a, n, a, l, m);
    TreeCost(p, w, left, right, a, n, a);
    LeafCost(p, w, l, a, n, f, other, a);
    LeafCost(p, w, Depths(p, n), a, n, f, lens, a);
  }

  // ----- what it means for two symbols

  lemma {:induction false} CostChanged(f: seq<int>, l: seq<int>, i: nat, v: int)
    requires |f| == |l| && i < |l|
    ensures Cost(f, l[i := v]) == Cost(f, l) + f[i] * (v - l[i])
    decreases |l|
  {
    var n := |l| - 1;
    if i < n {
      assert l[i := v][..n] == l[..n][i := v];
      CostChanged(f[..n], l[..n], i, v);
    } else {
      assert l[i := v][..n] == l[..n];
      assert f[n] * v == f[n] * l[n] + f[n] * (v - l[n]);
    }
  }

  lemma {:induction false} KraftChanged(l: seq<int>, i: nat, v: int, m: nat)
    requires i < |l| && Within(l, m) && 0 <= v <= m
    ensures Within(l[i := v], m) && Kraft(l[i := v], m) + Pow2(m - l[i]) == Kraft(l, m) + Pow2(m - v)
    decreases |l|
  {
    hide Pow2;
    var n := |l| - 1;
    if i < n {
      assert l[i := v][..n] == l[..n][i := v];
      KraftChanged(l[..n], i, v, m);
    } else {
      assert l[i := v][..n] == l[..n];
    }
  }

  /** Among optimal lengths the heavier symbol never has the longer one. */
  lemma HeavierShorter(f: seq<int>, lens: seq<int>, m: nat, i: nat, j: nat)
    requires Optimal(f, lens) && i < |f| && j < |f| && f[j] < f[i]
    requires Within(lens, m) && Kraft(lens, m) <= Pow2(m)
    ensures lens[i] <= lens[j]
  {
    hide Cost, Kraft, Pow2;
    if lens[j] < lens[i] {
      var half := lens[i := lens[j]];
      var other := half[j := lens[i]];
      KraftChanged(lens, i, lens[j], m);
      KraftChanged(half, j, lens[i], m);
      CostChanged(f, lens, i, lens[j]);
      CostChanged(f, half, j, lens[i]);
      NoneCheaper(f, lens, other, m);
      Gain(f[i], f[j], lens[i], lens[j]);
    }
  }

  lemma NoneCheaper(f: seq<int>, lens: seq<int>, other: seq<int>, m: nat)
    requires Optimal(f, lens) && |other| == |lens| && Within(other, m) && Kraft(other, m) <= Pow2(m)
    ensures Cost(f, lens) <= Cost(f, other)
  {
    hide Cost, Kraft, Pow2;
    assert NoBetter(f, lens, other, m);
  }

  lemma Gain(a: int, b: int, x: int, y: int)
    requires b < a && y < x
    ensures a * (y - x) + b * (x - y) < 0
  {
    assert a * (y - x) + b * (x - y) == (b - a) * (x - y);
  }
}
