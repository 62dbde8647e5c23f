/**
 Run-length expansion of a block: what a decoded block stands for, and the same
 thing read off one fetched byte at a time as the output loops do.
 */
module Expansion {
  import opened Bits

  // Output, and whether the block ended inside a run.
  datatype Expanded = Expanded(out: seq<Byte>, corrupt: bool)

  function Fill(x: Byte, n: nat): (s: seq<Byte>)
    ensures |s| == n && forall i :: 0 <= i < n ==> s[i] == x
  {
    seq(n, _ => x)
  }

  // How many of the first bytes are equal, up to four.
  function RunOf(b: seq<Byte>): (r: nat)
    requires b != []
    ensures 1 <= r <= 4 && r <= |b| && forall i :: 0 <= i < r ==> b[i] == b[0]
    ensures r < 4 && r < |b| ==> b[r] != b[0]
  {
    if |b| < 2 || b[1] != b[0] then 1
    else if |b| < 3 || b[2] != b[0] then 2
    else if |b| < 4 || b[3] != b[0] then 3
    else 4
  }

  function Prefixed(s: seq<Byte>, e: Expanded): Expanded {
    Expanded(s + e.out, e.corrupt)
  }

  /** Four equal bytes are followed by a count of further copies; a block may not end
      between the two. */
  function Expand(b: seq<Byte>): Expanded
    decreases |b|
  {
    if b == [] then Expanded([], false)
    else if RunOf(b) < 4 then Prefixed(Fill(b[0], RunOf(b)), Expand(b[RunOf(b)..]))
    else if |b| == 4 then Expanded([], true)
    else Prefixed(Fill(b[0], 4 + b[4] as int), Expand(b[5..]))
  }

  // ----- byte by byte

  // What is still to come when used bytes of f have been fetched, the last of them k0
  // starting the next run.  The block is the first n bytes of f.
  function Rest(f: seq<Byte>, n: nat, used: nat, k0: Byte): Expanded
    requires n + 2 <= |f| && used <= n + 2
    decreases n + 2 - used
  {
    if used == n + 1 then Expanded([], false)
    else if used > n + 1 then Expanded([], true)
    else if f[used] != k0 || used + 1 == n + 1 then Prefixed(Fill(k0, 1), Rest(f, n, used + 1, f[used]))
    else if f[used + 1] != k0 || used + 2 == n + 1 then Prefixed(Fill(k0, 2), Rest(f, n, used + 2, f[used + 1]))
    else if f[used + 2] != k0 || used + 3 == n + 1 then Prefixed(Fill(k0, 3), Rest(f, n, used + 3, f[used + 2]))
    else Prefixed(Fill(k0, f[used + 3] as int + 4), Rest(f, n, used + 5, f[used + 4]))
  }

  // d is e, or both end inside a run and d has that run too, with a length read past the end.
  ghost predicate SameUpToFault(d: Expanded, e: Expanded) {
    && d.corrupt == e.corrupt && (!d.corrupt ==> d == e)
    && (d.corrupt ==> e.out <= d.out && 4 <= |d.out| - |e.out| <= 259)
  }

  lemma SameExpansion(s: seq<Byte>, d: Expanded, e: Expanded)
    requires SameUpToFault(d, e)
    ensures SameUpToFault(Prefixed(s, d), Prefixed(s, e))
  {
    if d.corrupt {
      assert d.out == e.out + d.out[|e.out|..];
      assert s + d.out == s + e.out + d.out[|e.out|..];
    }
  }

  /** Reading a block byte by byte gives its expansion, and finds the same fault, having read one more run
      of 4 to 259 bytes by then. */
  lemma {:induction false} RestExpands(f: seq<Byte>, n: nat, used: nat)
    requires n + 2 <= |f| && 1 <= used <= n + 1
    ensures var d, e := Rest(f, n, used, f[used - 1]), Expand(f[used - 1..n]);
      SameUpToFault(d, e)
    decreases n + 1 - used
  {
    hide Rest, Expand, RunOf, Fill, SameUpToFault;
    var b := f[used - 1..n];
    if used == n + 1 {
      RestDone(f, n);
    } else {
      var r := RunOf(b);
      BytesOf(f, n, used - 1);
      RestUnfold(f, n, used);
      ExpandUnfold(b);
      if r < 4 {
        assert b[r..] == f[used - 1 + r..n];
        RestExpands(f, n, used + r);
        SameExpansion(Fill(b[0], r), Rest(f, n, used + r, f[used + r - 1]), Expand(b[r..]));
      } else if |b| != 4 {
        assert b[5..] == f[used - 1 + 5..n];
        RestExpands(f, n, used + 5);
        SameExpansion(Fill(b[0], 4 + b[4] as int), Rest(f, n, used + 5, f[used + 4]), Expand(b[5..]));
      } else {
        FaultOf(f[used - 1], f[used + 3]);
      }
    }
  }

  lemma RestDone(f: seq<Byte>, n: nat)
    requires n + 2 <= |f|
    ensures SameUpToFault(Rest(f, n, n + 1, f[n]), Expand(f[n..n]))
  {
  }

  // The run at the end of a block that stops inside it.
  lemma FaultOf(x: Byte, count: Byte)
    ensures SameUpToFault(Prefixed(Fill(x, count as int + 4), Expanded([], true)), Expanded([], true))
  {
  }

  lemma BytesOf(f: seq<Byte>, n: nat, a: nat)
    requires a < n <= |f|
    ensures var b := f[a..n]; |b| == n - a && forall i :: 0 <= i < n - a ==> b[i] == f[a + i]
  {
  }

  lemma ExpandUnfold(b: seq<Byte>)
    requires b != []
    ensures RunOf(b) < 4 ==> Expand(b) == Prefixed(Fill(b[0], RunOf(b)), Expand(b[RunOf(b)..]))
    ensures RunOf(b) == 4 && |b| == 4 ==> Expand(b) == Expanded([], true)
    ensures RunOf(b) == 4 && |b| != 4 ==> Expand(b) == Prefixed(Fill(b[0], 4 + b[4] as int), Expand(b[5..]))
  {
  }

  lemma RestUnfold(f: seq<Byte>, n: nat, used: nat)
    requires n + 2 <= |f| && 1 <= used <= n
    ensures var b := f[used - 1..n]; var r := RunOf(b);
      && (r < 4 ==> Rest(f, n, used, f[used - 1]) == Prefixed(Fill(b[0], r), Rest(f, n, used + r, f[used + r - 1])))
      && (r == 4 && |b| == 4 ==>
          Rest(f, n, used, f[used - 1]) == Prefixed(Fill(b[0], f[used + 3] as int + 4), Expanded([], true)))
      && (r == 4 && |b| != 4 ==>
          Rest(f, n, used, f[used - 1]) == Prefixed(Fill(b[0], 4 + b[4] as int), Rest(f, n, used + 5, f[used + 4])))
  {
    BytesOf(f, n, used - 1);
    hide Fill;
    if RunOf(f[used - 1..n]) == 4 && used + 3 == n {
      assert Rest(f, n, n + 2, f[used + 4]) == Expanded([], true);
    }
  }
}
