/**
 The byte counts that the decoder keeps up while it writes the column: unzftab[c] is
 the number of times the byte c occurs in the column so far.
 */
module ByteCounts {
  import opened Bits
  import opened InverseBwt
  import opened Parser

  ghost predicate Tallied(column: seq<Byte>, unzftab: seq<int>) {
    |unzftab| == 256 && forall c :: 0 <= c < 256 ==> unzftab[c] == Occ(column, c, |column|)
  }

  // The counts belong to the column of the block being decoded, or just decoded.
  ghost predicate TalliesReady(p: Parser, unzftab: seq<int>) {
    match p
    case SymbolStart(b, _) => Tallied(b.column, unzftab)
    case SymbolBit(b, _, _, _) => Tallied(b.column, unzftab)
    case Output(_, column) => Tallied(column, unzftab)
    case _ => true
  }

  lemma {:induction false} OccPrefix(l: seq<Byte>, m: seq<Byte>, c: int, i: nat)
    requires i <= |l|
    ensures Occ(l + m, c, i) == Occ(l, c, i)
    decreases i
  {
    if i != 0 { OccPrefix(l, m, c, i - 1); }
  }

  lemma TallyNone()
    ensures Tallied([], seq(256, _ => 0))
  {
  }

  // unzftab[x]++
  lemma TallyOne(column: seq<Byte>, x: Byte, unzftab: seq<int>)
    requires Tallied(column, unzftab)
    ensures Tallied(column + [x], unzftab[x := unzftab[x] + 1])
  {
    var grown := column + [x];
    forall c | 0 <= c < 256
      ensures unzftab[x := unzftab[x] + 1][c] == Occ(grown, c, |grown|)
    {
      OccPrefix(column, [x], c, |column|);
    }
  }

  /** unzftab[x] += n counts a run of n bytes x. */
  lemma {:induction false} TallyRun(column: seq<Byte>, x: Byte, n: int, unzftab: seq<int>)
    requires Tallied(column, unzftab) && 0 <= n
    ensures Tallied(column + Repeat(x, n), unzftab[x := unzftab[x] + n])
    decreases n
  {
    hide Tallied;
    if n == 0 {
      assert column + Repeat(x, n) == column;
      TallySize(column, unzftab);
      assert unzftab[x := unzftab[x] + n] == unzftab;
    } else {
      TallySize(column, unzftab);
      var before := unzftab[x := unzftab[x] + (n - 1)];
      TallyRun(column, x, n - 1, unzftab);
      TallyOne(column + Repeat(x, n - 1), x, before);
      assert column + Repeat(x, n) == column + Repeat(x, n - 1) + [x];
      assert before[x := before[x] + 1] == unzftab[x := unzftab[x] + n];
    }
  }

  lemma TallySize(column: seq<Byte>, unzftab: seq<int>)
    requires Tallied(column, unzftab)
    ensures |unzftab| == 256
  {
  }
}
