/** Isochronous pacing: each endpoint's completions get deadlines off its own clock, and one
    pacer thread sends them when they fall due. */
module Pacer {
  import opened Bits

  // ---- the deadline clock ------------------------------------------------------------------

  /** One service interval in microseconds. */
  function FrameUs(highSpeed: bool, interval: nat): (us: nat)
    ensures us > 0
  {
    var b := if interval > 0 then interval else 1;
    if highSpeed then 125 * Pow2(b - 1) else b * 1000
  }

  /** At full speed a service interval is bInterval milliseconds; at high speed it is 125
      microseconds for bInterval 1 and doubles with each step; 0 counts as 1. */
  lemma ServiceIntervals(highSpeed: bool, b: nat)
    requires b > 0
    ensures FrameUs(false, b) == 1000 * b && FrameUs(true, 1) == 125 && FrameUs(true, b + 1) == 2 * FrameUs(true, b)
    ensures FrameUs(highSpeed, 0) == FrameUs(highSpeed, 1)
  {}

  /** iso_deadline */
  function Advance(deadline: nat, now: nat, frameUs: nat, packets: nat): nat {
    (if deadline < now then now else deadline) + frameUs * packets
  }

  /** A transfer submitted at time `now`. */
  datatype Due = Due(now: nat, packets: nat)

  function Clock(deadline: nat, frameUs: nat, dues: seq<Due>): nat
    decreases |dues|
  {
    if dues == [] then deadline else Clock(Advance(deadline, dues[0].now, frameUs, dues[0].packets), frameUs, dues[1..])
  }

  function PacketsOf(dues: seq<Due>): nat {
    if dues == [] then 0 else dues[0].packets + PacketsOf(dues[1..])
  }

  /** No submission came after the deadline before it. */
  ghost predicate NeverLate(deadline: nat, frameUs: nat, dues: seq<Due>)
    decreases |dues|
  {
    dues == [] ||
    (dues[0].now <= deadline && NeverLate(Advance(deadline, dues[0].now, frameUs, dues[0].packets), frameUs, dues[1..]))
  }

  lemma {:induction false} ClockAtLeast(deadline: nat, frameUs: nat, dues: seq<Due>)
    ensures Clock(deadline, frameUs, dues) >= deadline + frameUs * PacketsOf(dues)
    decreases |dues|
  {
    if dues != [] {
      ClockAtLeast(Advance(deadline, dues[0].now, frameUs, dues[0].packets), frameUs, dues[1..]);
      Spread(frameUs, dues[0].packets, PacketsOf(dues[1..]));
    }
  }

  lemma Spread(f: nat, a: nat, b: nat)
    ensures f * (a + b) == f * a + f * b
  {}

  /** The clock is exactly the start plus the interval times all packets, with no drift, if and
      only if the endpoint was never late. */
  lemma {:induction false} NoDriftIff(deadline: nat, frameUs: nat, dues: seq<Due>)
    ensures Clock(deadline, frameUs, dues) == deadline + frameUs * PacketsOf(dues) <==> NeverLate(deadline, frameUs, dues)
    decreases |dues|
  {
    if dues != [] {
      var next := Advance(deadline, dues[0].now, frameUs, dues[0].packets);
      NoDriftIff(next, frameUs, dues[1..]);
      ClockAtLeast(next, frameUs, dues[1..]);
      Spread(frameUs, dues[0].packets, PacketsOf(dues[1..]));
    }
  }

  // ---- the pacer ---------------------------------------------------------------------

  /** A completion waiting for its deadline; `id` is its place in the order of submission. */
  datatype Entry = Entry(id: nat, ep: nat, seqnum: nat, deadline: nat)

  datatype Sent = Sent(e: Entry, time: nat, stopping: bool)

  /** `entries` as the list is linked: newest first. */
  datatype State = State(now: nat, clock: map<nat, nat>, entries: seq<Entry>, stopping: bool,
                         sent: seq<Sent>, dropped: seq<Entry>, next: nat)

  datatype Step =
    | Tick(us: nat)
    | Submit(ep: nat, seqnum: nat, frameUs: nat, packets: nat)
    | Send
    | Unlink(seqnum: nat)
    | Stop

  function Init(now: nat): State {
    State(now, map[], [], false, [], [], 0)
  }

  function ClockOf(s: State, ep: nat): nat {
    if ep in s.clock then s.clock[ep] else 0
  }

  /** The pacer's scan: the first entry with the earliest deadline. */
  function Earliest(es: seq<Entry>): (k: nat)
    requires es != []
    ensures k < |es| && (forall i :: 0 <= i < |es| ==> es[k].deadline <= es[i].deadline)
    ensures forall i :: 0 <= i < k ==> es[k].deadline < es[i].deadline
  {
    if |es| == 1 then 0
    else
      var k := Earliest(es[..|es| - 1]);
      if es[|es| - 1].deadline < es[k].deadline then |es| - 1 else k
  }

  function Without(es: seq<Entry>, k: nat): seq<Entry>
    requires k < |es|
  {
    es[..k] + es[k + 1..]
  }

  function Others(es: seq<Entry>, seqnum: nat): seq<Entry> {
    if es == [] then []
    else if es[0].seqnum == seqnum then Others(es[1..], seqnum)
    else [es[0]] + Others(es[1..], seqnum)
  }

  function Named(es: seq<Entry>, seqnum: nat): seq<Entry> {
    if es == [] then []
    else if es[0].seqnum == seqnum then [es[0]] + Named(es[1..], seqnum)
    else Named(es[1..], seqnum)
  }

  predicate Enabled(s: State, step: Step) {
    match step
    case Submit(_, _, frameUs, packets) => !s.stopping && frameUs > 0 && packets > 0
    case Send => s.entries != [] && (s.stopping || s.entries[Earliest(s.entries)].deadline <= s.now)
    case _ => true
  }

  function Next(s: State, step: Step): State
    requires Enabled(s, step)
  {
    match step
    case Tick(us) => s.(now := s.now + us)
    case Submit(ep, seqnum, frameUs, packets) =>
      var d := Advance(ClockOf(s, ep), s.now, frameUs, packets);
      s.(clock := s.clock[ep := d], entries := [Entry(s.next, ep, seqnum, d)] + s.entries, next := s.next + 1)
    case Send =>
      var k := Earliest(s.entries);
      s.(entries := Without(s.entries, k), sent := s.sent + [Sent(s.entries[k], s.now, s.stopping)])
    case Unlink(seqnum) =>
      s.(entries := Others(s.entries, seqnum), dropped := s.dropped + Named(s.entries, seqnum))
    case Stop => s.(stopping := true)
  }

  // ---- order -------------------------------------------------------------------------

  /** `a` was submitted before `b`; on one endpoint it is due before it too. */
  ghost predicate Before(a: Entry, b: Entry) {
    a.id < b.id && (a.ep == b.ep ==> a.deadline < b.deadline)
  }

  ghost predicate Queued(s: State) {
    && (forall i, j :: 0 <= i < j < |s.entries| ==> Before(s.entries[j], s.entries[i]))
    && (forall i :: 0 <= i < |s.entries| ==> s.entries[i].id < s.next && s.entries[i].deadline <= ClockOf(s, s.entries[i].ep))
  }

  /** Per endpoint, what has been sent left in the order submitted, and before all that waits. */
  ghost predicate SentInOrder(s: State) {
    && (forall i, j :: 0 <= i < j < |s.sent| && s.sent[i].e.ep == s.sent[j].e.ep ==> Before(s.sent[i].e, s.sent[j].e))
    && (forall i, j :: 0 <= i < |s.sent| && 0 <= j < |s.entries| && s.sent[i].e.ep == s.entries[j].ep ==>
          Before(s.sent[i].e, s.entries[j]))
    && (forall i :: 0 <= i < |s.sent| ==> s.sent[i].e.id < s.next && s.sent[i].e.deadline <= ClockOf(s, s.sent[i].e.ep))
  }

  ghost predicate NoneEarly(s: State) {
    forall i :: 0 <= i < |s.sent| ==> s.sent[i].stopping || s.sent[i].e.deadline <= s.sent[i].time
  }

  lemma {:induction false} OthersAreSome(es: seq<Entry>, seqnum: nat, i: nat, j: nat) returns (a: nat, b: nat)
    requires i < j < |Others(es, seqnum)|
    ensures a < b < |es| && es[a] == Others(es, seqnum)[i] && es[b] == Others(es, seqnum)[j]
  {
    if es[0].seqnum == seqnum {
      a, b := OthersAreSome(es[1..], seqnum, i, j);
      a, b := a + 1, b + 1;
    } else if i > 0 {
      a, b := OthersAreSome(es[1..], seqnum, i - 1, j - 1);
      a, b := a + 1, b + 1;
    } else {
      b := OtherIsOne(es[1..], seqnum, j - 1);
      a, b := 0, b + 1;
    }
  }

  lemma {:induction false} OtherIsOne(es: seq<Entry>, seqnum: nat, i: nat) returns (a: nat)
    requires i < |Others(es, seqnum)|
    ensures a < |es| && es[a] == Others(es, seqnum)[i]
  {
    if es[0].seqnum == seqnum {
      a := OtherIsOne(es[1..], seqnum, i);
      a := a + 1;
    } else if i > 0 {
      a := OtherIsOne(es[1..], seqnum, i - 1);
      a := a + 1;
    } else {
      a := 0;
    }
  }

  ghost predicate Inv(s: State) {
    Queued(s) && SentInOrder(s) && NoneEarly(s)
  }

  lemma SubmitInv(s: State, step: Step)
    requires Inv(s) && Enabled(s, step) && step.Submit?
    ensures Inv(Next(s, step))
  {
    var t := Next(s, step);
    var d := Advance(ClockOf(s, step.ep), s.now, step.frameUs, step.packets);
    Positive(step.frameUs, step.packets);
    assert d > ClockOf(s, step.ep);
    forall i, j | 0 <= i < j < |t.entries| ensures Before(t.entries[j], t.entries[i]) {
      assert t.entries[j] == s.entries[j - 1];
      if i > 0 {
        assert t.entries[i] == s.entries[i - 1];
      }
    }
  }

  lemma Positive(a: nat, b: nat)
    requires a > 0 && b > 0
    ensures a * b > 0
  {}

  /** The entry sent is the oldest of its endpoint: every other one that waits comes after it. */
  lemma EarliestIsOldest(s: State)
    requires Queued(s) && s.entries != []
    ensures var k := Earliest(s.entries);
      forall j :: 0 <= j < |s.entries| && j != k && s.entries[j].ep == s.entries[k].ep ==> Before(s.entries[k], s.entries[j])
  {
    var k := Earliest(s.entries);
    forall j | k < j < |s.entries| ensures s.entries[j].ep != s.entries[k].ep {
      assert Before(s.entries[j], s.entries[k]);
    }
  }

  lemma WithoutQueued(s: State, k: nat)
    requires Queued(s) && k < |s.entries|
    ensures Queued(s.(entries := Without(s.entries, k)))
  {
    var es := Without(s.entries, k);
    forall i, j | 0 <= i < j < |es| ensures Before(es[j], es[i]) {
      var a, b := if i < k then i else i + 1, if j < k then j else j + 1;
      assert Before(s.entries[b], s.entries[a]);
    }
  }

  lemma SendInv(s: State)
    requires Inv(s) && Enabled(s, Send)
    ensures Inv(Next(s, Send))
  {
    var k := Earliest(s.entries);
    EarliestIsOldest(s);
    WithoutQueued(s, k);
    SendInOrder(s, k);
  }

  lemma SendInOrder(s: State, k: nat)
    requires Inv(s) && k < |s.entries|
    requires forall j :: 0 <= j < |s.entries| && j != k && s.entries[j].ep == s.entries[k].ep ==> Before(s.entries[k], s.entries[j])
    ensures SentInOrder(s.(entries := Without(s.entries, k), sent := s.sent + [Sent(s.entries[k], s.now, s.stopping)]))
  {
    var es := Without(s.entries, k);
    forall j | 0 <= j < |es| ensures es[j].ep == s.entries[k].ep ==> Before(s.entries[k], es[j]) {
      assert es[j] == s.entries[if j < k then j else j + 1];
    }
    forall j | 0 <= j < |es| ensures es[j] in s.entries {
      assert es[j] == s.entries[if j < k then j else j + 1];
    }
  }

  lemma UnlinkInv(s: State, seqnum: nat)
    requires Inv(s)
    ensures Inv(Next(s, Unlink(seqnum)))
  {
    var t := Next(s, Unlink(seqnum));
    forall i, j | 0 <= i < j < |t.entries| ensures Before(t.entries[j], t.entries[i]) {
      var a, b := OthersAreSome(s.entries, seqnum, i, j);
      assert Before(s.entries[b], s.entries[a]);
    }
    forall j | 0 <= j < |t.entries| ensures exists a :: 0 <= a < |s.entries| && s.entries[a] == t.entries[j] {
      var a := OtherIsOne(s.entries, seqnum, j);
    }
  }

  lemma StepInv(s: State, step: Step)
    requires Inv(s) && Enabled(s, step)
    ensures Inv(Next(s, step))
  {
    match step
    case Tick(_) =>
    case Submit(_, _, _, _) => SubmitInv(s, step);
    case Send => SendInv(s);
    case Unlink(seqnum) => UnlinkInv(s, seqnum);
    case Stop =>
  }

  // ---- each once ---------------------------------------------------------------------

  function Count(es: seq<Entry>, id: nat): nat {
    if es == [] then 0 else (if es[0].id == id then 1 else 0) + Count(es[1..], id)
  }

  function CountSent(sent: seq<Sent>, id: nat): nat {
    if sent == [] then 0 else CountSent(sent[..|sent| - 1], id) + if sent[|sent| - 1].e.id == id then 1 else 0
  }

  /** Where completion `id` is: waiting, sent, or dropped by an unlink. */
  function Places(s: State, id: nat): nat {
    Count(s.entries, id) + CountSent(s.sent, id) + Count(s.dropped, id)
  }

  lemma {:induction false} CountAppend(a: seq<Entry>, b: seq<Entry>, id: nat)
    ensures Count(a + b, id) == Count(a, id) + Count(b, id)
  {
    if a == [] {
      assert a + b == b;
    } else {
      assert (a + b)[1..] == a[1..] + b;
      CountAppend(a[1..], b, id);
    }
  }

  lemma CountWithout(es: seq<Entry>, k: nat, id: nat)
    requires k < |es|
    ensures Count(es, id) == Count(Without(es, k), id) + if es[k].id == id then 1 else 0
  {
    assert es == es[..k] + ([es[k]] + es[k + 1..]);
    CountAppend(es[..k], [es[k]] + es[k + 1..], id);
    CountAppend([es[k]], es[k + 1..], id);
    CountAppend(es[..k], es[k + 1..], id);
    assert [es[k]][1..] == [];
  }

  lemma {:induction false} CountSplit(es: seq<Entry>, seqnum: nat, id: nat)
    ensures Count(es, id) == Count(Others(es, seqnum), id) + Count(Named(es, seqnum), id)
  {
    if es != [] {
      CountSplit(es[1..], seqnum, id);
      CountAppend([es[0]], Others(es[1..], seqnum), id);
      CountAppend([es[0]], Named(es[1..], seqnum), id);
      assert [es[0]][1..] == [];
    }
  }

  ghost predicate OnceEach(s: State) {
    forall id: nat :: Places(s, id) == if id < s.next then 1 else 0
  }

  lemma StepOnce(s: State, step: Step)
    requires OnceEach(s) && Enabled(s, step)
    ensures OnceEach(Next(s, step))
  {
    var t := Next(s, step);
    forall id: nat ensures Places(t, id) == if id < t.next then 1 else 0 {
      assert Places(s, id) == if id < s.next then 1 else 0;
      match step
      case Tick(_) =>
      case Submit(_, _, _, _) => assert t.entries[1..] == s.entries;
      case Send => CountWithout(s.entries, Earliest(s.entries), id); assert t.sent[..|s.sent|] == s.sent;
      case Unlink(seqnum) => CountSplit(s.entries, seqnum, id); CountAppend(s.dropped, Named(s.entries, seqnum), id);
      case Stop =>
    }
  }

  // ---- runs --------------------------------------------------------------------------

  ghost predicate Runs(s: State, steps: seq<Step>)
    decreases |steps|
  {
    steps == [] || (Enabled(s, steps[0]) && Runs(Next(s, steps[0]), steps[1..]))
  }

  ghost function Run(s: State, steps: seq<Step>): State
    requires Runs(s, steps)
    decreases |steps|
  {
    if steps == [] then s else Run(Next(s, steps[0]), steps[1..])
  }

  lemma {:induction false} RunKeeps(s: State, steps: seq<Step>)
    requires Inv(s) && OnceEach(s) && Runs(s, steps)
    ensures Inv(Run(s, steps)) && OnceEach(Run(s, steps))
    decreases |steps|
  {
    if steps != [] {
      StepInv(s, steps[0]);
      StepOnce(s, steps[0]);
      RunKeeps(Next(s, steps[0]), steps[1..]);
    }
  }

  /** Over every run: an endpoint's completions leave in the order submitted, none before its
      deadline unless stopping, and each is waiting, sent once, or unlinked. */
  lemma EveryRun(now: nat, steps: seq<Step>)
    requires Runs(Init(now), steps)
    ensures var s := Run(Init(now), steps); SentInOrder(s) && NoneEarly(s) && OnceEach(s)
  {
    RunKeeps(Init(now), steps);
  }

  // ---- what is due when --------------------------------------------------------------

  /** A fresh pacer has nothing to send and is not stopping; until it is, any endpoint may submit. */
  lemma FreshPacer(now: nat, s: State, ep: nat, seqnum: nat, frameUs: nat, packets: nat)
    ensures var f := Init(now);
      f.now == now && f.clock == map[] && f.entries == f.dropped == [] && f.sent == [] && !f.stopping && f.next == 0
    ensures Enabled(s, Submit(ep, seqnum, frameUs, packets)) <==> !s.stopping && frameUs > 0 && packets > 0
  {}

  /** A submission is the newest entry, due at its endpoint's new clock: the interval of its
      packets after the old one, or after now when that has passed. No other clock moves. */
  lemma SubmitDue(s: State, ep: nat, seqnum: nat, frameUs: nat, packets: nat)
    requires Enabled(s, Submit(ep, seqnum, frameUs, packets))
    ensures var t := Next(s, Submit(ep, seqnum, frameUs, packets));
      && |t.entries| == |s.entries| + 1 && t.entries[1..] == s.entries
      && t.entries[0] == Entry(s.next, ep, seqnum, t.clock[ep])
      && t.clock[ep] == frameUs * packets + (if ep in s.clock && s.clock[ep] >= s.now then s.clock[ep] else s.now)
      && forall e: nat :: e != ep ==> (e in t.clock <==> e in s.clock) && (e in s.clock ==> t.clock[e] == s.clock[e])
  {}

  /** What was submitted on one endpoint, each with the time it came at. */
  ghost function DuesOf(s: State, steps: seq<Step>, ep: nat): seq<Due>
    requires Runs(s, steps)
    decreases |steps|
  {
    if steps == [] then []
    else
      (if steps[0].Submit? && steps[0].ep == ep then [Due(s.now, steps[0].packets)] else [])
      + DuesOf(Next(s, steps[0]), steps[1..], ep)
  }

  ghost predicate Rate(steps: seq<Step>, ep: nat, frameUs: nat) {
    forall i :: 0 <= i < |steps| && steps[i].Submit? && steps[i].ep == ep ==> steps[i].frameUs == frameUs
  }

  lemma {:induction false} RunClock(s: State, steps: seq<Step>, ep: nat, frameUs: nat)
    requires Runs(s, steps) && Rate(steps, ep, frameUs)
    ensures ClockOf(Run(s, steps), ep) == Clock(ClockOf(s, ep), frameUs, DuesOf(s, steps, ep))
    decreases |steps|
  {
    if steps != [] {
      RunClock(Next(s, steps[0]), steps[1..], ep, frameUs);
      var more := DuesOf(Next(s, steps[0]), steps[1..], ep);
      if steps[0].Submit? && steps[0].ep == ep {
        assert DuesOf(s, steps, ep)[1..] == more;
      } else {
        assert DuesOf(s, steps, ep) == more;
      }
    }
  }

  /** Over every run, whatever other endpoints do: an endpoint's deadline is its first submission
      plus the interval of all its packets, if and only if it was never late after that. */
  lemma RunDriftIff(now: nat, steps: seq<Step>, ep: nat, frameUs: nat)
    requires Runs(Init(now), steps) && Rate(steps, ep, frameUs) && DuesOf(Init(now), steps, ep) != []
    ensures var dues := DuesOf(Init(now), steps, ep); var first := dues[0].now + frameUs * dues[0].packets;
      ClockOf(Run(Init(now), steps), ep) == dues[0].now + frameUs * PacketsOf(dues) <==> NeverLate(first, frameUs, dues[1..])
  {
    var dues := DuesOf(Init(now), steps, ep);
    var first := dues[0].now + frameUs * dues[0].packets;
    RunClock(Init(now), steps, ep, frameUs);
    NoDriftIff(first, frameUs, dues[1..]);
    Spread(frameUs, dues[0].packets, PacketsOf(dues[1..]));
  }

  /** An unlink keeps the entries of other sequence numbers and drops those of its own. */
  lemma {:induction false} UnlinkParts(es: seq<Entry>, seqnum: nat)
    ensures forall e :: e in Others(es, seqnum) <==> e in es && e.seqnum != seqnum
    ensures forall e :: e in Named(es, seqnum) <==> e in es && e.seqnum == seqnum
  {
    if es != [] {
      UnlinkParts(es[1..], seqnum);
      assert es == [es[0]] + es[1..];
    }
  }

  function Sends(n: nat): (steps: seq<Step>)
    ensures |steps| == n
  {
    if n == 0 then [] else [Send] + Sends(n - 1)
  }

  /** Once stopping, the pacer can always go on sending until nothing waits. */
  lemma {:induction false} StopDrains(s: State)
    requires s.stopping
    ensures Runs(s, Sends(|s.entries|)) && Run(s, Sends(|s.entries|)).entries == []
    decreases |s.entries|
  {
    if s.entries != [] {
      assert Sends(|s.entries|)[1..] == Sends(|s.entries| - 1);
      StopDrains(Next(s, Send));
    }
  }

  // ---- the list as the threads handle it ------------------------------------------------------

  lemma OthersFrom(es: seq<Entry>, i: nat, seqnum: nat, kept: seq<Entry>)
    requires i < |es|
    ensures kept + Others(es[i..], seqnum)
         == (if es[i].seqnum == seqnum then kept else kept + [es[i]]) + Others(es[i + 1..], seqnum)
  {
    assert es[i..][1..] == es[i + 1..];
    if es[i].seqnum != seqnum {
      assert kept + ([es[i]] + Others(es[i + 1..], seqnum)) == kept + [es[i]] + Others(es[i + 1..], seqnum);
    }
  }

  /** The fields the pacer's lock guards. */
  class Pacer {
    var entries: seq<Entry>
    var stopping: bool
    var now: nat
    var clock: map<nat, nat>
    var next: nat
    ghost var sent: seq<Sent>
    ghost var dropped: seq<Entry>

    ghost function View(): State
      reads this
    {
      State(now, clock, entries, stopping, sent, dropped, next)
    }

    constructor (now: nat)
      ensures View() == Init(now)
    {
      entries, stopping, clock, next := [], false, map[], 0;
      this.now := now;
      sent, dropped := [], [];
    }

    /** iso_deadline, then pace_submit: the new entry goes to the head of the list. */
    method SubmitPaced(ep: nat, seqnum: nat, highSpeed: bool, interval: nat, packets: nat)
      requires !stopping && packets > 0 && (highSpeed ==> interval <= 16)
      modifies this`entries, this`clock, this`next
      ensures Enabled(old(View()), Submit(ep, seqnum, FrameUs(highSpeed, interval), packets))
      ensures View() == Next(old(View()), Submit(ep, seqnum, FrameUs(highSpeed, interval), packets))
    {
      var deadline := if ep in clock then clock[ep] else 0;
      if deadline < now {
        deadline := now;
      }
      deadline := deadline + FrameUs(highSpeed, interval) * packets;
      clock := clock[ep := deadline];
      entries := [Entry(next, ep, seqnum, deadline)] + entries;
      next := next + 1;
    }

    /** The scan for the earliest deadline. */
    method FindEarliest() returns (k: nat)
      requires entries != []
      ensures k == Earliest(entries)
    {
      k := 0;
      var i: nat := 1;
      while i < |entries|
        invariant 1 <= i <= |entries| && k == Earliest(entries[..i])
      {
        assert entries[..i + 1][..i] == entries[..i];
        if entries[i].deadline < entries[k].deadline {
          k := i;
        }
        i := i + 1;
      }
      assert entries[..i] == entries;
    }

    /** One turn of pacer_run: the entry to send, if one is due. */
    method Turn() returns (due: seq<Entry>)
      modifies this`entries, this`sent
      ensures if Enabled(old(View()), Send) then View() == Next(old(View()), Send) && due == [old(View()).entries[Earliest(old(entries))]]
              else View() == old(View()) && due == []
    {
      due := [];
      if |entries| > 0 {
        var k := FindEarliest();
        if stopping || entries[k].deadline <= now {
          due := [entries[k]];
          sent := sent + [Sent(entries[k], now, stopping)];
          entries := entries[..k] + entries[k + 1..];
        }
      }
    }

    /** The unlink's walk over the list. */
    method UnlinkPaced(seqnum: nat)
      modifies this`entries, this`dropped
      ensures View() == Next(old(View()), Unlink(seqnum))
    {
      ghost var was := entries;
      var kept: seq<Entry> := [];
      var i: nat := 0;
      while i < |entries|
        invariant i <= |entries| && entries == was && dropped == old(dropped)
        invariant kept + Others(was[i..], seqnum) == Others(was, seqnum)
      {
        OthersFrom(was, i, seqnum, kept);
        if entries[i].seqnum != seqnum {
          kept := kept + [entries[i]];
        }
        i := i + 1;
      }
      assert was[i..] == [] && kept + [] == kept;
      dropped := dropped + Named(was, seqnum);
      entries := kept;
    }
  }
}
