/**
 Both machines together: whatever the calls and buffers on either side, what goes in
 comes out.
 */
module Codec {
  import opened Bits
  import opened Parser
  import opened St = Stream
  import C = Compressor
  import D = Decompressor

  /** A finished compressor's output, followed by anything, is being fed to a decompressor of
      either form.  No error is ever reported; what is out so far is a prefix of what went in;
      with the whole stream taken there is nothing left to wait for; and an end reported means
      that exactly the stream was taken and exactly the original bytes were put out. */
  lemma FullCircle(m: C.Machine, d: D.Machine, junk: seq<Byte>)
    requires m.Valid() && m.mode == C.Idle && d.Valid() && d.taken <= m.output + junk
    ensures d.phase != D.Broken && d.output <= m.consumed
    ensures m.output <= d.taken ==> !d.SoFar().verdict.MoreInput? && !d.Paused()
    ensures d.phase == D.Ended ==> d.output == m.consumed && d.taken == m.output
  {
    hide *;
    Bound32(0);
    m.Faithful();
    var p: nat :| p < 8 && Session(Magic(0), BytesToBits(m.output), 0) ==
      Decoded(m.consumed, Verdict.StreamEnd(ToBits(0, p)));
    var more := (m.output + junk)[|d.taken|..];
    assert m.output + junk == d.taken + more;
    BytesToBitsConcat(m.output, junk);
    BytesToBitsConcat(d.taken, more);
    SessionGrows(Magic(0), BytesToBits(m.output), BytesToBits(junk), 0);
    d.OnCourse(BytesToBits(more));
    if m.output <= d.taken {
      var extra := d.taken[|m.output|..];
      assert d.taken == m.output + extra;
      BytesToBitsConcat(m.output, extra);
      SessionGrows(Magic(0), BytesToBits(m.output), BytesToBits(extra), 0);
      d.SoFarIs();
      d.PausedIs();
    }
    if d.phase == D.Ended {
      assert |d.pad + BytesToBits(more)| == |ToBits(0, p) + BytesToBits(junk)|;
      assert |d.taken| == |m.output|;
      assert d.taken == (m.output + junk)[..|d.taken|];
    }
  }
}
