/**
 Where the compressor ends its blocks: a block that is not ended by a flush or by the end of the
 stream is full, and was not full before its last run; the run behind it begins the next block.
 */
module Cutting {
  import opened Bits
  import opened Expansion
  import opened Stream
  import RL = RunLength

  // The runs a block stands for.
  ghost function RunsIn(text: seq<Byte>): seq<RL.Run> {
    RL.RunsOf(Expand(text).out)
  }

  /** The block is the coding of its runs.  Either it reached the limit with its last run, or it was ended
      early, and had not reached the limit before its last two. */
  ghost predicate CutWell(text: seq<Byte>, limit: nat, early: bool) {
    var r := RunsIn(text);
    && text == RL.Coded(r) && r != []
    && if early then 2 <= |r| ==> |RL.Coded(r[..|r| - 2])| < limit
       else limit <= |text| && |RL.Coded(r[..|r| - 1])| < limit
  }

  // The runs b begin where the runs a were cut, not inside a run.
  ghost predicate Meet(a: seq<RL.Run>, b: seq<RL.Run>) {
    a != [] && b != [] && RL.Follows(a[|a| - 1], b[0])
  }

  // early marks the blocks ended by a flush or by the end of the stream.
  ghost predicate CutAll(recs: seq<Rec>, early: seq<bool>, limit: nat) {
    && |early| == |recs|
    && (forall i :: 0 <= i < |recs| ==> CutWell(recs[i].text, limit, early[i]))
    && forall i :: 0 <= i < |recs| - 1 && !early[i] ==> Meet(RunsIn(recs[i].text), RunsIn(recs[i + 1].text))
  }

  // What is held now goes on behind the last block.
  ghost predicate Carried(recs: seq<Rec>, early: seq<bool>, now: seq<RL.Run>) {
    |early| == |recs| && (recs != [] && !early[|recs| - 1] ==> Meet(RunsIn(recs[|recs| - 1].text), now))
  }

  lemma CutNone(limit: nat, now: seq<RL.Run>)
    ensures CutAll([], [], limit) && Carried([], [], now)
  {
  }

  lemma CutSnoc(recs: seq<Rec>, early: seq<bool>, limit: nat, r: Rec, e: bool)
    requires CutAll(recs, early, limit) && CutWell(r.text, limit, e) && Carried(recs, early, RunsIn(r.text))
    ensures CutAll(recs + [r], early + [e], limit)
  {
    hide CutWell, Meet, RunsIn;
  }

  lemma CarriedSnoc(recs: seq<Rec>, early: seq<bool>, r: Rec, e: bool, now: seq<RL.Run>)
    requires |early| == |recs| && (!e ==> Meet(RunsIn(r.text), now))
    ensures Carried(recs + [r], early + [e], now)
  {
    hide Meet, RunsIn;
  }

  // The first run held may grow and others may follow.
  lemma CarriedOn(recs: seq<Rec>, early: seq<bool>, now: seq<RL.Run>, later: seq<RL.Run>)
    requires Carried(recs, early, now) && (now != [] ==> later != [] && later[0].ch == now[0].ch)
    ensures Carried(recs, early, later)
  {
    hide RunsIn;
  }

  // One more block, ended early or not.
  ghost predicate AddsBlock(recs: seq<Rec>, early: seq<bool>, recs': seq<Rec>, early': seq<bool>, text: seq<Byte>,
                            e: bool)
  {
    exists r: Rec :: r.text == text && recs' == recs + [r] && early' == early + [e]
  }

  lemma AddsThis(recs: seq<Rec>, early: seq<bool>, r: Rec, e: bool)
    ensures AddsBlock(recs, early, recs + [r], early + [e], r.text, e)
  {
  }

  lemma CarriedBehind(recs: seq<Rec>, early: seq<bool>, recs': seq<Rec>, early': seq<bool>, text: seq<Byte>, e: bool,
                      now: seq<RL.Run>)
    requires |early| == |recs| && AddsBlock(recs, early, recs', early', text, e)
    requires !e ==> Meet(RunsIn(text), now)
    ensures Carried(recs', early', now)
  {
    hide Meet, RunsIn;
    var r: Rec :| r.text == text && recs' == recs + [r] && early' == early + [e];
    CarriedSnoc(recs, early, r, e, now);
  }

  lemma AddedOne(recs: seq<Rec>, early: seq<bool>, recs': seq<Rec>, early': seq<bool>, text: seq<Byte>, e: bool)
    requires AddsBlock(recs, early, recs', early', text, e)
    ensures early' == early + [e]
  {
  }

  /** Blocks have come in; only the last of them may have been ended early, and only with all input done. */
  ghost predicate Extended(before: seq<bool>, early: seq<bool>, done: bool) {
    && before <= early
    && forall i :: |before| <= i < |early| && early[i] ==> done && i == |early| - 1
  }

  lemma ExtendedNot(early: seq<bool>)
    ensures forall done :: Extended(early, early, done)
  {
  }

  lemma ExtendedOnce(before: seq<bool>, early: seq<bool>, done: bool)
    requires early == before || early == before + [false] || (early == before + [true] && done)
    ensures Extended(before, early, done)
  {
  }

  lemma ExtendedOn(before: seq<bool>, mid: seq<bool>, early: seq<bool>, done: bool)
    requires Extended(before, mid, false) && Extended(mid, early, done)
    ensures Extended(before, early, done)
  {
    assert forall i :: 0 <= i < |mid| ==> early[i] == mid[i];
  }

  lemma ExtendedWeaker(before: seq<bool>, early: seq<bool>, done: bool, done': bool)
    requires Extended(before, early, done) && (done ==> done')
    ensures Extended(before, early, done')
  {
  }
}
