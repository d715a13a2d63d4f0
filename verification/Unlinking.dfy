/** CMD_UNLINK against the parked list: what it removes stays removed, and exactly when the
    NULL tail it may leave makes the next park drop the URBs still waiting. */
module Unlinking {
  import opened Bytes
  import opened Endpoint
  import opened Interleaving

  lemma {:induction false} UnlinkedGrows(ss: seq<State>, ts: seq<Step>, i: nat, j: nat)
    requires Run(ss, ts) && i <= j < |ss|
    ensures ss[i].unlinked <= ss[j].unlinked
  {
    if i < j {
      UnlinkedGrows(ss, ts, i, j - 1);
      assert ss[j] == Next(ss[j - 1], ts[j - 1]);
    }
  }

  /** An URB that CMD_UNLINK removed is never completed, dropped or parked again; and no URB
      is ever completed twice. */
  lemma UnlinkedIsFinal(ss: seq<State>, ts: seq<Step>, i: nat, j: nat, u: Urb)
    requires Run(ss, ts) && i <= j < |ss|
    ensures u in ss[i].unlinked ==>
      u !in Urbs(ss[j].wire) && u !in ss[j].ep.pend && u !in ss[j].dropped && u !in ss[j].stalling
    ensures CountOf(Urbs(ss[j].wire), u) <= 1
  {
    RunInvariant(ss, ts, j);
    UnlinkedGrows(ss, ts, i, j);
    var s := ss[j];
    assert Places(s, u) <= 1;
    CountMember(s.unlinked, u);
    CountMember(Urbs(s.wire), u);
    CountMember(s.ep.pend, u);
    CountMember(s.dropped, u);
    CountMember(s.stalling, u);
  }

  /** The race the unlock-then-send window leaves: an URB a writer has popped is completed
      even if CMD_UNLINK names it first. */
  lemma UnlinkMissesHand(s: State, i: nat)
    requires QueueInv(s) && s.server.Waiting? && Enabled(s, SendParked(i))
    requires forall v :: v in s.ep.pend ==> v.seqnum != s.writers[i].urb.seqnum
    ensures var u := s.writers[i].urb;
            var s1 := Next(s, Unlinking(u.seqnum));
            s1.ep.Valid() && s1.unlinked == s.unlinked && Enabled(s1, SendParked(i))
            && Next(s1, SendParked(i)).wire == s.wire + [Completion(u, Ok, s.writers[i].chunk)]
  {
    QueueInvStep(s, Unlinking(s.writers[i].urb.seqnum));
    NamedNone(s.ep.pend, s.writers[i].urb.seqnum);
  }

  lemma NamedNone(pend: seq<Urb>, seqnum: nat)
    requires forall v :: v in pend ==> v.seqnum != seqnum
    ensures Named(pend, seqnum) == []
  {}

  // ---- the NULL tail -----------------------------------------------------------------

  ghost predicate TailGood(ep: Ep) {
    ep.tailNull <==> ep.pend == []
  }

  /** `seqnum` names the newest parked URB while an older one stays parked. */
  predicate CutsTail(ep: Ep, seqnum: nat) {
    ep.pend != [] && ep.pend[|ep.pend| - 1].seqnum == seqnum && Without(ep.pend, seqnum) != []
  }

  lemma UnlinkKeepsTail(ep: Ep, seqnum: nat)
    requires ep.Valid() && TailGood(ep)
    ensures TailGood(Unlink(ep, seqnum)) <==> !CutsTail(ep, seqnum)
  {
    if ep.pend != [] && Without(ep.pend, seqnum) == [] {
      LastRemoved(ep.pend, seqnum);
    }
  }

  lemma TailGoodStep(s: State, t: Step)
    requires s.ep.Valid() && Enabled(s, t) && TailGood(s.ep)
    requires t.Unlinking? ==> !CutsTail(s.ep, t.seqnum)
    ensures TailGood(Next(s, t).ep) && Next(s, t).dropped == s.dropped
  {
    if t.Unlinking? {
      UnlinkKeepsTail(s.ep, t.seqnum);
    }
  }

  ghost predicate NeverCutsTail(ss: seq<State>, ts: seq<Step>) {
    forall i {:trigger ts[i]} :: 0 <= i < |ts| && i < |ss| && ts[i].Unlinking? ==>
      !CutsTail(ss[i].ep, ts[i].seqnum)
  }

  /** A host that never unlinks the newest of several parked URBs never loses one: each
      submitted URB is parked, in hand, unlinked, or completed exactly once. */
  lemma {:induction false} NothingDropped(ss: seq<State>, ts: seq<Step>, k: nat)
    requires Run(ss, ts) && k < |ss| && NeverCutsTail(ss, ts)
    ensures ss[k].dropped == [] && TailGood(ss[k].ep)
  {
    if k > 0 {
      NothingDropped(ss, ts, k - 1);
      RunInvariant(ss, ts, k - 1);
      TailGoodStep(ss[k - 1], ts[k - 1]);
    }
  }

  /** Unlink `seqnum`, then dispatch one more IN URB: URBs are dropped if and only if the
      unlink named the newest parked URB while an older one was still waiting. */
  lemma ParkAfterUnlink(s: State, seqnum: nat, u: Urb)
    requires QueueInv(s) && TailGood(s.ep) && !s.ep.halted && Enabled(s, Submit(u))
    ensures var s1 := Next(s, Unlinking(seqnum));
            s1.ep.Valid() && Enabled(s1, Submit(u)) &&
            var s2 := Next(s1, Submit(u));
            var s3 := Next(s2, CheckHalt);
            Enabled(s3, Serve) &&
            var s4 := Next(s3, Serve);
            (s4.dropped == s.dropped <==> !CutsTail(s.ep, seqnum))
            && (CutsTail(s.ep, seqnum) ==> s4.dropped == s.dropped + Without(s.ep.pend, seqnum))
  {
    QueueInvStep(s, Unlinking(seqnum));
    UnlinkKeepsTail(s.ep, seqnum);
    if s.ep.pend == [] {
      assert Without(s.ep.pend, seqnum) == [];
    } else {
      assert s.ep.inq == [];
    }
  }

  // ---- a run that loses URBs ------------------------------------------------------------

  lemma {:induction false} DroppedGrows(ss: seq<State>, ts: seq<Step>, i: nat, j: nat)
    requires Run(ss, ts) && i <= j < |ss|
    ensures ss[i].dropped <= ss[j].dropped
  {
    if i < j {
      DroppedGrows(ss, ts, i, j - 1);
      assert ss[j] == Next(ss[j - 1], ts[j - 1]);
    }
  }

  /** A dropped URB never reaches the wire, at any later state of the run. */
  lemma DroppedIsLost(ss: seq<State>, ts: seq<Step>, i: nat, j: nat, u: Urb)
    requires Run(ss, ts) && i <= j < |ss| && u in ss[i].dropped
    ensures u in ss[j].submitted && u !in Urbs(ss[j].wire) && u !in ss[j].ep.pend && u !in ss[j].stalling
  {
    RunInvariant(ss, ts, j);
    DroppedGrows(ss, ts, i, j);
    var s := ss[j];
    CountMember(s.dropped, u);
    assert Places(s, u) == (if u in s.submitted then 1 else 0);
    CountMember(Urbs(s.wire), u);
    CountMember(s.ep.pend, u);
    CountMember(s.stalling, u);
  }

  lemma OneMoreStep(ss: seq<State>, ts: seq<Step>, t: Step, ss': seq<State>, ts': seq<Step>)
    requires Run(ss, ts) && ss[|ts|].ep.Valid() && Enabled(ss[|ts|], t)
    requires ss' == ss + [Next(ss[|ts|], t)] && ts' == ts + [t]
    ensures Run(ss', ts') && ss'[|ts'|] == Next(ss[|ts|], t)
  {
    assert ss'[0] == ss[0];
    forall i | 0 <= i < |ts'|
      ensures ss'[i].ep.Valid() && Enabled(ss'[i], ts'[i]) && ss'[i + 1] == Next(ss'[i], ts'[i])
    {
      if i < |ts| {
        assert ts'[i] == ts[i] && ss'[i] == ss[i] && ss'[i + 1] == ss[i + 1];
      }
    }
  }

  /** No data, no halt, and the serve thread at rest: a read submitted now is parked. */
  ghost predicate Resting(s: State) {
    s.ep.Valid() && s.server.Waiting? && s.ep.inq == [] && !s.ep.halted
  }

  lemma ParkRead(ss: seq<State>, ts: seq<Step>, u: Urb) returns (ss': seq<State>, ts': seq<Step>)
    requires Run(ss, ts) && Resting(ss[|ts|]) && forall v :: v in ss[|ts|].submitted ==> v.seqnum != u.seqnum
    ensures Run(ss', ts') && Resting(ss'[|ts'|])
    ensures var s := ss[|ts|];
      ss'[|ts'|] == s.(ep := Park(s.ep, u), submitted := s.submitted + [u], dropped := s.dropped + DroppedByPark(s.ep))
  {
    var s := ss[|ts|];
    var s1 := Next(s, Submit(u));
    var ss1, ts1 := ss + [s1], ts + [Submit(u)];
    OneMoreStep(ss, ts, Submit(u), ss1, ts1);
    var s2 := Next(s1, CheckHalt);
    var ss2, ts2 := ss1 + [s2], ts1 + [CheckHalt];
    OneMoreStep(ss1, ts1, CheckHalt, ss2, ts2);
    ss', ts' := ss2 + [Next(s2, Serve)], ts2 + [Serve];
    OneMoreStep(ss2, ts2, Serve, ss', ts');
  }

  /** From a fresh endpoint: three reads are parked, the newest is cancelled, a fourth is
      submitted, and the first two are gone without an answer. */
  lemma TailLossExample(a: Urb, b: Urb, c: Urb, d: Urb) returns (ss: seq<State>, ts: seq<Step>)
    requires DistinctSeqnums([a, b, c, d])
    ensures Run(ss, ts) && ss[|ts|].submitted == [a, b, c, d] && ss[|ts|].unlinked == [c]
    ensures ss[|ts|].ep.pend == [d] && ss[|ts|].dropped == [a, b] && ss[|ts|].wire == []
  {
    var all := [a, b, c, d];
    assert all[0].seqnum != all[1].seqnum && all[0].seqnum != all[2].seqnum && all[0].seqnum != all[3].seqnum;
    assert all[1].seqnum != all[2].seqnum && all[1].seqnum != all[3].seqnum && all[2].seqnum != all[3].seqnum;
    ss, ts := ThreeParked(a, b, c);
    TailCancelled(a, b, c);
    var s := Next(ss[|ts|], Unlinking(c.seqnum));
    assert s == Quiet([a, b], true, [a, b, c]).(unlinked := [c]);
    var ss1, ts1 := ss + [s], ts + [Unlinking(c.seqnum)];
    OneMoreStep(ss, ts, Unlinking(c.seqnum), ss1, ts1);
    ss, ts := ParkRead(ss1, ts1, d);
  }

  function Quiet(pend: seq<Urb>, tailNull: bool, submitted: seq<Urb>): State {
    State(Ep([], pend, tailNull, false), [Idle], Waiting, [], [], [], submitted, [], [])
  }

  lemma ThreeParked(a: Urb, b: Urb, c: Urb) returns (ss: seq<State>, ts: seq<Step>)
    requires a.seqnum != b.seqnum && a.seqnum != c.seqnum && b.seqnum != c.seqnum
    ensures Run(ss, ts) && ss[|ts|] == Quiet([a, b, c], false, [a, b, c])
  {
    ss, ts := [Quiet([], true, [])], [];
    ss, ts := ParkBehind(ss, ts, [], a);
    ss, ts := ParkBehind(ss, ts, [a], b);
    ss, ts := ParkBehind(ss, ts, [a, b], c);
    assert [] + [a] == [a] && [a] + [b] == [a, b] && [a, b] + [c] == [a, b, c];
  }

  lemma ParkBehind(ss: seq<State>, ts: seq<Step>, us: seq<Urb>, u: Urb) returns (ss': seq<State>, ts': seq<Step>)
    requires Run(ss, ts) && ss[|ts|] == Quiet(us, us == [], us) && forall v :: v in us ==> v.seqnum != u.seqnum
    ensures Run(ss', ts') && ss'[|ts'|] == Quiet(us + [u], false, us + [u])
  {
    ss', ts' := ParkRead(ss, ts, u);
  }

  lemma TailCancelled(a: Urb, b: Urb, c: Urb)
    requires a.seqnum != c.seqnum && b.seqnum != c.seqnum
    ensures Without([a, b, c], c.seqnum) == [a, b] && Named([a, b, c], c.seqnum) == [c]
  {
    assert [a, b, c][1..] == [b, c] && [b, c][1..] == [c] && [c][1..] == [];
    assert Without([c], c.seqnum) == [] && Named([c], c.seqnum) == [c];
    assert Without([b, c], c.seqnum) == [b] && Named([b, c], c.seqnum) == [c];
  }

  // ---- what an unlink stops ---------------------------------------------------------------

  lemma RunPrefix(ss: seq<State>, ts: seq<Step>, k: nat, ss': seq<State>, ts': seq<Step>)
    requires Run(ss, ts) && k < |ss| && ss' == ss[..k + 1] && ts' == ts[..k]
    ensures Run(ss', ts')
  {
    assert ss'[0] == ss[0];
    forall i | 0 <= i < |ts'|
      ensures ss'[i].ep.Valid() && Enabled(ss'[i], ts'[i]) && ss'[i + 1] == Next(ss'[i], ts'[i])
    {
      assert ts'[i] == ts[i] && ss'[i] == ss[i] && ss'[i + 1] == ss[i + 1];
    }
  }

  lemma {:induction false} HandOf(ws: seq<Writer>, u: Urb) returns (i: nat)
    requires CountOf(WriterHands(ws), u) > 0
    ensures i < |ws| && ws[i].InHand? && ws[i].urb == u
  {
    CountOfAppend(WriterHand(ws[0]), WriterHands(ws[1..]), u);
    if CountOf(WriterHand(ws[0]), u) > 0 {
      i := 0;
    } else {
      i := HandOf(ws[1..], u);
      i := i + 1;
    }
  }

  /** A URB waiting to be sent, in a writer's hand or after a stall, has a step that sends it. */
  lemma SendOf(s: State, u: Urb) returns (t: Step)
    requires s.ep.Valid() && (CountOf(WriterHands(s.writers), u) > 0 || u in s.stalling)
    ensures t.SendParked? || t.SendStall?
    ensures Enabled(s, t) && u in Urbs(Next(s, t).wire)
  {
    if u in s.stalling {
      var k :| 0 <= k < |s.stalling| && s.stalling[k] == u;
      t := SendStall(k);
    } else {
      var i := HandOf(s.writers, u);
      t := SendParked(i);
    }
    UrbsAppend(s.wire, Next(s, t).wire[|s.wire|], u);
    CountMember(Urbs(Next(s, t).wire), u);
    assert CountOf([u], u) == 1;
  }

  /** A run that goes as `ss` does up to state `k` and then unlinks `u`. */
  ghost predicate Unlinks(ss: seq<State>, k: nat, u: Urb, ss': seq<State>, ts': seq<Step>) {
    && Run(ss', ts') && k < |ss| && k < |ts'| && ss'[..k + 1] == ss[..k + 1] && ts'[k] == Unlinking(u.seqnum)
  }

  lemma UnlinkStopsParked(ss: seq<State>, k: nat, u: Urb, ss': seq<State>, ts': seq<Step>, j: nat)
    requires Unlinks(ss, k, u, ss', ts') && k < j < |ss'| && u in ss[k].ep.pend
    ensures u !in Urbs(ss'[j].wire)
  {
    assert ss'[k] == ss'[..k + 1][k] == ss[..k + 1][k] == ss[k];
    assert ss'[k + 1] == Next(ss[k], ts'[k]);
    NamedHas(ss[k].ep.pend, u);
    UnlinkedIsFinal(ss', ts', k + 1, j, u);
  }

  lemma {:induction false} NamedHas(pend: seq<Urb>, u: Urb)
    requires u in pend
    ensures u in Named(pend, u.seqnum)
  {
    if pend[0] != u {
      NamedHas(pend[1..], u);
    }
  }

  /** The run in which what is not parked is sent right after the unlink. */
  lemma UnlinkMisses(ss: seq<State>, ts: seq<Step>, k: nat, u: Urb) returns (ss': seq<State>, ts': seq<Step>)
    requires Run(ss, ts) && k < |ss| && ss[k].server.Waiting?
    requires CountOf(WriterHands(ss[k].writers), u) > 0 || u in ss[k].stalling
    ensures Unlinks(ss, k, u, ss', ts') && |ss'| == k + 3 && u in Urbs(ss'[k + 2].wire)
  {
    var pre, steps := ss[..k + 1], ts[..k];
    RunPrefix(ss, ts, k, pre, steps);
    RunInvariant(ss, ts, k);
    var unlink := Unlinking(u.seqnum);
    var s1 := Next(ss[k], unlink);
    QueueInvStep(ss[k], unlink);
    var ss1, ts1 := pre + [s1], steps + [unlink];
    OneMoreStep(pre, steps, unlink, ss1, ts1);
    var t := SendOf(s1, u);
    ss', ts' := ss1 + [Next(s1, t)], ts1 + [t];
    OneMoreStep(ss1, ts1, t, ss', ts');
    assert ss'[..k + 1] == pre;
  }

  /** CMD_UNLINK of a URB that has not been answered stops its completion, in every run that
      goes on from there, if and only if the URB is parked: one in a writer's hand, or taken by
      a stall, is still sent. */
  lemma UnlinkStopsIff(ss: seq<State>, ts: seq<Step>, k: nat, u: Urb)
    requires Run(ss, ts) && k < |ss| && ss[k].server.Waiting? && u in ss[k].submitted
    requires u !in Urbs(ss[k].wire) && u !in ss[k].unlinked && u !in ss[k].dropped
    ensures u in ss[k].ep.pend <==>
      forall ss': seq<State>, ts': seq<Step>, j: nat :: Unlinks(ss, k, u, ss', ts') && k < j < |ss'| ==> u !in Urbs(ss'[j].wire)
  {
    if u in ss[k].ep.pend {
      forall ss': seq<State>, ts': seq<Step>, j: nat | Unlinks(ss, k, u, ss', ts') && k < j < |ss'| ensures u !in Urbs(ss'[j].wire) {
        UnlinkStopsParked(ss, k, u, ss', ts', j);
      }
    } else {
      var s := ss[k];
      RunInvariant(ss, ts, k);
      assert Places(s, u) == 1;
      NotThere(s, u);
      var ss', ts' := UnlinkMisses(ss, ts, k, u);
    }
  }

  lemma NotThere(s: State, u: Urb)
    requires Places(s, u) == 1 && s.server.Waiting? && u !in s.ep.pend
    requires u !in Urbs(s.wire) && u !in s.unlinked && u !in s.dropped
    ensures CountOf(WriterHands(s.writers), u) > 0 || u in s.stalling
  {
    CountMember(s.ep.pend, u);
    CountMember(Urbs(s.wire), u);
    CountMember(s.unlinked, u);
    CountMember(s.dropped, u);
    CountMember(s.stalling, u);
  }
}
