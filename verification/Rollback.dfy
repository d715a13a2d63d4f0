/** group_begin, any build steps, group_abort: exactly when the builder is as it was, and what
    stays true over builds in which groups are aborted. */
module Rollback {
  import opened Bytes
  import opened Allocation
  import opened ConfigParser
  import opened Builder

  // ---- what steps since a group's start leave of it -------------------------------------------

  /** How often a byte was counted up. */
  function Drift(was: byte, now: byte): nat {
    if now >= was then now - was else now + 256 - was
  }

  lemma DriftUp(was: byte, now: byte)
    ensures Drift(was, now) == 0 <==> was == now
    ensures Drift(was, now) < 255 ==> Drift(was, (now + 1) % 256) == Drift(was, now) + 1
  {
    assert (now + 1) % 256 == if now == 255 then 0 else now + 1;
  }

  /** The bytes of `was`, each counted up at most `m` times, and more behind them. */
  ghost predicate Counts(was: seq<byte>, now: seq<byte>, m: int) {
    |was| <= |now| && forall k :: 0 <= k < |was| ==> Drift(was[k], now[k]) <= m
  }

  /** The records of `was`, some moved to `from` or behind, and newer ones there. */
  ghost predicate Moved(was: seq<IfAlt>, now: seq<IfAlt>, from: nat) {
    && |was| <= |now|
    && (forall i :: 0 <= i < |was| ==> now[i].ifnum == was[i].ifnum && now[i].alt == was[i].alt)
    && (forall i :: 0 <= i < |now| ==> now[i].off >= from || (i < |was| && now[i] == was[i]))
  }

  /** The endpoints of `p` and more behind them; slots as in `p`, or held by a newer one. */
  ghost predicate Taken(p: Pipes, q: Pipes) {
    && p.Shape() && q.Shape() && p.eps <= q.eps
    && (forall s :: 0 <= s < 32 && p.holder[s].Held? ==> p.holder[s].ep < |p.eps|)
    && (forall s :: 0 <= s < 32 ==> q.holder[s] == p.holder[s] || (q.holder[s].Held? && q.holder[s].ep >= |p.eps|))
  }

  /** Each record's descriptor starts in the blob. */
  ghost predicate Anchored(b: Build) {
    forall i :: 0 <= i < |b.ifalts| ==> b.ifalts[i].off + 2 <= |b.blob|
  }

  /** `c` comes from `b` by the mark taken there and any steps but another begin. */
  ghost predicate Since(b: Build, c: Build) {
    && b.Shape() && c.Shape() && Anchored(b) && c.mark == MarkOf(b)
    && Counts(b.blob, c.blob, |c.pipes.eps| - |b.pipes.eps|)
    && Moved(b.ifalts, c.ifalts, |b.blob|)
    && Taken(b.pipes, c.pipes)
  }

  /** Nothing of `b` was touched on the way to `c`. */
  ghost predicate Clean(b: Build, c: Build) {
    && b.Shape() && c.Shape()
    && b.blob <= c.blob && b.ifalts <= c.ifalts
    && (forall s :: 0 <= s < 32 && b.pipes.holder[s].Held? ==> c.pipes.holder[s] == b.pipes.holder[s])
  }

  /** The guards under which a step in state `c` spares what was there in state `b`: it opens
      no alternate recorded in `b`, counts no endpoint in a byte of `b`, and takes no slot held
      in `b`. */
  ghost predicate Safe(b: Build, c: Build, s: BuildStep)
    requires b.Shape() && c.Shape() && Legal(s)
  {
    s.Descr? && Append(c, s.d).Accepted? ==>
      && (s.d[1] == DT_INTERFACE ==> FindAlt(b.ifalts, s.d[2], s.d[3]) == -1)
      && (s.d[1] == DT_ENDPOINT ==>
           && !(0 <= CountAt(c.ifalts, c.cur, c.curAlt) < |b.blob|)
           && b.pipes.holder[Slot(Alloc(c.pipes, c.Owner(), WantOf(s.d), DirInOf(s.d)), DirInOf(s.d))].Nobody?)
  }

  // ---- each kind of step ---------------------------------------------------------------------

  lemma CountedSince(was: seq<byte>, now: seq<byte>, at: int, m: nat)
    requires Counts(was, now, m) && m < 255
    ensures Counts(was, Counted(now, at), m + 1)
    ensures was <= Counted(now, at) <==> was <= now && !(0 <= at < |was|)
  {
    var r := Counted(now, at);
    forall k | 0 <= k < |was|
      ensures Drift(was[k], r[k]) <= m + 1 && (r[k] == was[k] <==> now[k] == was[k] && k != at)
    {
      DriftUp(was[k], now[k]);
      DriftUp(was[k], r[k]);
    }
    PrefixIs(was, now);
    PrefixIs(was, r);
  }

  lemma PrefixIs<T>(a: seq<T>, b: seq<T>)
    requires |a| <= |b|
    ensures a <= b <==> forall k :: 0 <= k < |a| ==> b[k] == a[k]
  {
    if forall k :: 0 <= k < |a| ==> b[k] == a[k] {
      assert b[..|a|] == a;
    }
  }

  lemma FoundSame(was: seq<IfAlt>, now: seq<IfAlt>, from: nat, n: byte, a: byte)
    requires Moved(was, now, from)
    ensures FindAlt(was, n, a) >= 0 ==> FindAlt(now, n, a) == FindAlt(was, n, a)
    ensures FindAlt(was, n, a) == -1 ==> FindAlt(now, n, a) == -1 || FindAlt(now, n, a) >= |was|
  {}

  lemma RecordedSince(was: seq<IfAlt>, now: seq<IfAlt>, from: nat, n: byte, a: byte, off: nat)
    requires Moved(was, now, from) && off >= from && forall i :: 0 <= i < |was| ==> was[i].off < from
    ensures Moved(was, Recorded(now, n, a, off), from)
    ensures was <= Recorded(now, n, a, off) <==> was <= now && FindAlt(was, n, a) == -1
  {
    var r := Recorded(now, n, a, off);
    FoundSame(was, now, from, n, a);
    PrefixIs(was, now);
    PrefixIs(was, r);
    var k := FindAlt(was, n, a);
    if k >= 0 {
      assert r[k].off == off && was[k].off < from;
    }
  }

  lemma AddSince(p: Pipes, q: Pipes, ep: EpRec)
    requires Taken(p, q) && ep.number < 16
    ensures Taken(p, Add(q, ep))
    ensures var s := Slot(ep.number, ep.dirIn);
      (forall t :: 0 <= t < 32 && p.holder[t].Held? ==> Add(q, ep).holder[t] == p.holder[t])
      <==> (forall t :: 0 <= t < 32 && p.holder[t].Held? ==> q.holder[t] == p.holder[t]) && p.holder[s].Nobody?
  {
    var r, s := Add(q, ep), Slot(ep.number, ep.dirIn);
    assert forall t :: 0 <= t < 32 && t != s ==> r.holder[t] == q.holder[t];
    assert r.holder[s] == Held(|q.eps|, ep.ifnum);
  }

  lemma InterfaceSince(b: Build, c: Build, d: Descriptor)
    requires Since(b, c) && WellFormed(d) && d[1] == DT_INTERFACE && |c.blob| + LengthOf(d) <= MAX_BLOB
    ensures var e := AppendInterface(c, d);
      Since(b, e) && (Clean(b, e) <==> Clean(b, c) && FindAlt(b.ifalts, d[2], d[3]) == -1)
  {
    RecordedSince(b.ifalts, c.ifalts, |b.blob|, d[2], d[3], |c.blob|);
    PrefixIs(b.blob, c.blob);
    PrefixIs(b.blob, c.blob + Normal(d));
  }

  lemma EndpointSince(b: Build, c: Build, d: Descriptor)
    requires Since(b, c) && WellFormed(d) && d[1] == DT_ENDPOINT && |c.blob| + LengthOf(d) <= MAX_BLOB
    requires AppendEndpoint(c, d).Accepted?
    ensures var e, s := AppendEndpoint(c, d).b, Slot(Alloc(c.pipes, c.Owner(), WantOf(d), DirInOf(d)), DirInOf(d));
      Since(b, e)
      && (Clean(b, e) <==> Clean(b, c) && !(0 <= CountAt(c.ifalts, c.cur, c.curAlt) < |b.blob|) && b.pipes.holder[s].Nobody?)
  {
    var n := Alloc(c.pipes, c.Owner(), WantOf(d), DirInOf(d));
    var placed := Addressed(Normal(d), Address(n, DirInOf(d)));
    CountedSince(b.blob, c.blob + placed, CountAt(c.ifalts, c.cur, c.curAlt), |c.pipes.eps| - |b.pipes.eps|);
    PrefixIs(b.blob, c.blob);
    PrefixIs(b.blob, c.blob + placed);
    AddSince(b.pipes, c.pipes, RecOf(d, n, c.Owner()));
  }

  lemma StepSince(b: Build, c: Build, s: BuildStep)
    requires Since(b, c) && Legal(s) && !s.Begin? && !s.Abort?
    ensures Since(b, Stepped(c, s)) && (Clean(b, Stepped(c, s)) <==> Clean(b, c) && Safe(b, c, s))
  {
    if s.Descr? && Append(c, s.d).Accepted? {
      if s.d[1] == DT_INTERFACE {
        InterfaceSince(b, c, s.d);
      } else if s.d[1] == DT_ENDPOINT {
        EndpointSince(b, c, s.d);
      } else {
        PrefixIs(b.blob, c.blob);
        PrefixIs(b.blob, c.blob + Normal(s.d));
      }
    }
  }

  // ---- abort -------------------------------------------------------------------------

  /** One abort brings back every field but the groups, if and only if nothing was touched. */
  lemma AbortIffClean(b: Build, c: Build)
    requires Since(b, c) && c.groups != []
    ensures GroupAbort(c) == b.(mark := MarkOf(b), groups := c.groups[..|c.groups| - 1]) <==> Clean(b, c)
  {
    var q := Released(c.pipes, |b.pipes.eps|);
    assert c.pipes.eps[..|b.pipes.eps|] == b.pipes.eps;
    assert q == b.pipes.holder <==> forall s :: 0 <= s < 32 ==> q[s] == b.pipes.holder[s];
  }

  /** No step begins or aborts a group. */
  ghost predicate Flat(steps: seq<BuildStep>) {
    forall i :: 0 <= i < |steps| ==> Legal(steps[i]) && !steps[i].Begin? && !steps[i].Abort?
  }

  ghost predicate AllSafe(b: Build, c: Build, steps: seq<BuildStep>)
    requires b.Shape() && c.Shape() && Flat(steps)
    decreases |steps|
  {
    steps == [] || (Safe(b, c, steps[0]) && AllSafe(b, Stepped(c, steps[0]), steps[1..]))
  }

  ghost predicate GroupsOf(b: Build, c: Build) {
    |c.groups| == |b.groups| + 1 && c.groups[..|b.groups|] == b.groups
  }

  lemma {:induction false} RunSince(b: Build, c: Build, steps: seq<BuildStep>)
    requires Since(b, c) && GroupsOf(b, c) && Flat(steps)
    ensures Since(b, Built(c, steps)) && GroupsOf(b, Built(c, steps))
    ensures Clean(b, Built(c, steps)) <==> Clean(b, c) && AllSafe(b, c, steps)
    decreases |steps|
  {
    if steps != [] {
      StepSince(b, c, steps[0]);
      RunSince(b, Stepped(c, steps[0]), steps[1..]);
    }
  }

  lemma BeginSince(b: Build)
    requires b.Shape() && Tabled(b.pipes) && Anchored(b) && |b.groups| < MAX_GROUPS
    ensures var c := GroupBegin(b); Since(b, c) && GroupsOf(b, c) && Clean(b, c)
  {
    forall s | 0 <= s < 32 && b.pipes.holder[s].Held? ensures b.pipes.holder[s].ep < |b.pipes.eps| {
      assert HolderIsEp(b.pipes, s);
    }
  }

  /** Begin, any steps, abort: every field of the builder is as before if and only if no step
      opened an alternate recorded before, counted an endpoint in a byte that was there before,
      or took a slot held before. */
  lemma AbortRestoresIff(b: Build, steps: seq<BuildStep>)
    requires b.Shape() && Tabled(b.pipes) && Anchored(b) && |b.groups| < MAX_GROUPS && Flat(steps)
    ensures GroupAbort(Built(GroupBegin(b), steps)) == b.(mark := MarkOf(b)) <==> AllSafe(b, GroupBegin(b), steps)
  {
    var c := Built(GroupBegin(b), steps);
    BeginSince(b);
    RunSince(b, GroupBegin(b), steps);
    AbortIffClean(b, c);
    assert c.groups[..|c.groups| - 1] == b.groups;
  }

  // ---- interfaces of the group's own -----------------------------------------------------

  /** No alternate and no endpoint of `b` belongs to this interface number. */
  ghost predicate Unused(b: Build, ifnum: byte) {
    && (forall i :: 0 <= i < |b.ifalts| ==> b.ifalts[i].ifnum != ifnum)
    && (forall i :: 0 <= i < |b.pipes.eps| ==> b.pipes.eps[i].ifnum != ifnum)
  }

  /** A step of a group begun in state `b`, taken in state `c`: interfaces opened are new, and
      endpoints belong to them. Reservations, routes and other descriptors are free. */
  ghost predicate Own(b: Build, c: Build, s: BuildStep) {
    && Legal(s) && !s.Begin? && !s.Abort?
    && (s.Descr? && s.d[1] == DT_INTERFACE ==> Unused(b, s.d[2]))
    && (s.Descr? && s.d[1] == DT_ENDPOINT ==> 0 <= c.cur < 256 && Unused(b, c.cur))
  }

  ghost predicate AllOwn(b: Build, c: Build, steps: seq<BuildStep>)
    requires c.Shape()
    decreases |steps|
  {
    steps == [] || (Own(b, c, steps[0]) && AllOwn(b, Stepped(c, steps[0]), steps[1..]))
  }

  /** A number some earlier interface holds is never given to a new one. */
  lemma SlotIsNew(b: Build, c: Build, owner: byte, n: Number, dirIn: bool)
    requires Clean(b, c) && Tabled(b.pipes) && Unused(b, owner) && Grantable(c.pipes, owner, n, dirIn)
    ensures b.pipes.holder[Slot(n, dirIn)].Nobody?
  {
    var s := Slot(n, dirIn);
    if b.pipes.holder[s].Held? {
      assert HolderIsEp(b.pipes, s);
    }
  }

  lemma OwnIsSafe(b: Build, c: Build, s: BuildStep)
    requires Since(b, c) && Clean(b, c) && Tabled(b.pipes) && Own(b, c, s)
    ensures Safe(b, c, s)
  {
    if s.Descr? && Append(c, s.d).Accepted? && s.d[1] == DT_ENDPOINT {
      FoundSame(b.ifalts, c.ifalts, |b.blob|, c.cur, c.curAlt);
      SlotIsNew(b, c, c.cur, Alloc(c.pipes, c.cur, WantOf(s.d), DirInOf(s.d)), DirInOf(s.d));
    }
  }

  lemma {:induction false} OwnRunIsSafe(b: Build, c: Build, steps: seq<BuildStep>)
    requires Since(b, c) && Clean(b, c) && Tabled(b.pipes) && AllOwn(b, c, steps) && Flat(steps)
    ensures AllSafe(b, c, steps)
    decreases |steps|
  {
    if steps != [] {
      OwnIsSafe(b, c, steps[0]);
      StepSince(b, c, steps[0]);
      OwnRunIsSafe(b, Stepped(c, steps[0]), steps[1..]);
    }
  }

  /** Begin, steps on interfaces of the group's own, abort: nothing is left of them. */
  lemma AbortRestores(b: Build, steps: seq<BuildStep>)
    requires b.Shape() && Tabled(b.pipes) && Anchored(b) && |b.groups| < MAX_GROUPS
    requires Flat(steps) && AllOwn(b, GroupBegin(b), steps)
    ensures GroupAbort(Built(GroupBegin(b), steps)) == b.(mark := MarkOf(b))
  {
    BeginSince(b);
    OwnRunIsSafe(b, GroupBegin(b), steps);
    AbortRestoresIff(b, steps);
  }

  // ---- what an abort leaves of a step that is not safe ----------------------------------------

  /** An endpoint for an interface from before the group is counted in that interface's
      descriptor, and the abort leaves the count. */
  lemma OldInterfaceKeepsCount(b: Build, d: Descriptor)
    requires b.Shape() && |b.groups| < MAX_GROUPS && WellFormed(d) && d[1] == DT_ENDPOINT
    requires 0 <= CountAt(b.ifalts, b.cur, b.curAlt) < |b.blob| && Append(GroupBegin(b), d).Accepted?
    ensures GroupAbort(Append(GroupBegin(b), d).b).blob
         == b.blob[CountAt(b.ifalts, b.cur, b.curAlt) := (b.blob[CountAt(b.ifalts, b.cur, b.curAlt)] as nat + 1) % 256]
    ensures GroupAbort(Append(GroupBegin(b), d).b).blob != b.blob
  {
    var at := CountAt(b.ifalts, b.cur, b.curAlt);
    var after := GroupAbort(Append(GroupBegin(b), d).b).blob;
    assert after[at] == (b.blob[at] as nat + 1) % 256;
  }

  /** An endpoint that reuses the number its interface held before the group takes the slot
      from the older endpoint, and after the abort that endpoint is in no slot. */
  lemma ReusedSlotIsLost(b: Build, d: Descriptor)
    requires b.Shape() && |b.groups| < MAX_GROUPS && WellFormed(d) && d[1] == DT_ENDPOINT
    requires WantOf(d) != 0 && HeldBy(b.pipes, Slot(WantOf(d), DirInOf(d)), b.Owner())
    requires Allows(b.pipes, b.Owner(), WantOf(d), DirInOf(d)) && Append(GroupBegin(b), d).Accepted?
    ensures GroupAbort(Append(GroupBegin(b), d).b).pipes.holder[Slot(WantOf(d), DirInOf(d))].Nobody?
  {}

  // ---- builds with aborts ----------------------------------------------------------------

  /** What holds of the builder from the start, as long as aborts restore. */
  ghost predicate Sound(b: Build) {
    b.Shape() && Consistent(b.pipes) && Anchored(b)
  }

  /** The build when the last group was begun, of those begun in the run at hand. */
  datatype Base = Unmarked | At(b: Build)

  function NextBase(m: Base, c: Build, s: BuildStep): Base {
    if s.Begin? && |c.groups| < MAX_GROUPS then At(c) else m
  }

  /** Every abort, if there is a group, is of one begun in this run that touched nothing older. */
  ghost predicate Heeded(m: Base, c: Build, steps: seq<BuildStep>)
    requires c.Shape()
    decreases |steps|
  {
    steps != [] ==>
      && Legal(steps[0])
      && (steps[0].Abort? && c.groups != [] ==> m.At? && Clean(m.b, c))
      && Heeded(NextBase(m, c, steps[0]), Stepped(c, steps[0]), steps[1..])
  }

  ghost predicate From(m: Base, c: Build) {
    m.At? ==> Sound(m.b) && Since(m.b, c)
  }

  lemma SinceSame(b: Build, c: Build)
    requires Sound(b) && c.Shape() && c.mark == MarkOf(b)
    requires c.blob == b.blob && c.ifalts == b.ifalts && c.pipes == b.pipes
    ensures Since(b, c)
  {
    forall s | 0 <= s < 32 && b.pipes.holder[s].Held? ensures b.pipes.holder[s].ep < |b.pipes.eps| {
      assert HolderIsEp(b.pipes, s);
    }
  }

  lemma StepFrom(m: Base, c: Build, s: BuildStep)
    requires From(m, c) && Sound(c) && Heeded(m, c, [s])
    ensures From(NextBase(m, c, s), Stepped(c, s))
  {
    if s.Begin? {
      if |c.groups| < MAX_GROUPS {
        SinceSame(c, GroupBegin(c));
      }
    } else if m.At? {
      if s.Abort? {
        if c.groups != [] {
          AbortIffClean(m.b, c);
          SinceSame(m.b, GroupAbort(c));
        }
      } else {
        StepSince(m.b, c, s);
      }
    }
  }

  lemma StepSound(m: Base, c: Build, s: BuildStep)
    requires From(m, c) && Sound(c) && Heeded(m, c, [s])
    ensures Sound(Stepped(c, s))
  {
    match s
    case Descr(d) =>
      if Append(c, d).Accepted? && d[1] == DT_ENDPOINT {
        AddKeepsConsistent(c.pipes, RecOf(d, Alloc(c.pipes, c.Owner(), WantOf(d), DirInOf(d)), c.Owner()));
      }
    case Claims(want) =>
      StepKeepsConsistent(c.pipes, ClaimOp(c.Owner(), want % 16, want >= 0x80));
    case Control(_, _) =>
    case SetAlt(_, _) =>
    case Begin =>
    case Abort =>
      if c.groups != [] {
        AbortIffClean(m.b, c);
      }
  }

  lemma FirstHeeded(m: Base, c: Build, steps: seq<BuildStep>)
    requires c.Shape() && steps != [] && Heeded(m, c, steps)
    ensures Heeded(m, c, [steps[0]])
  {
    assert Heeded(NextBase(m, c, steps[0]), Stepped(c, steps[0]), []);
  }

  /** Whatever was built, with groups aborted on the way, the records point into the blob and
      the plug-time check for endpoint conflicts passes. */
  lemma {:induction false} BuildConsistent(m: Base, b: Build, steps: seq<BuildStep>)
    requires Sound(b) && From(m, b) && Heeded(m, b, steps) && forall i :: 0 <= i < |steps| ==> Legal(steps[i])
    ensures Sound(Built(b, steps)) && NoConflict(Built(b, steps).pipes)
    decreases |steps|
  {
    if steps != [] {
      FirstHeeded(m, b, steps);
      StepFrom(m, b, steps[0]);
      StepSound(m, b, steps[0]);
      BuildConsistent(NextBase(m, b, steps[0]), Stepped(b, steps[0]), steps[1..]);
    } else {
      ConsistentIsUnopposed(b.pipes);
    }
  }

  lemma ConsistentIsUnopposed(p: Pipes)
    requires Consistent(p)
    ensures NoConflict(p)
  {
    forall i | 0 <= i < |p.eps| ensures HeldBy(p, Slot(p.eps[i].number, p.eps[i].dirIn), p.eps[i].ifnum) {}
  }

  // ---- after any aborts --------------------------------------------------------------------

  /** The table of holders survives every sequence of steps, aborts of any kind among them. */
  lemma StepTabled(b: Build, s: BuildStep)
    requires b.Shape() && Legal(s) && Tabled(b.pipes)
    ensures Tabled(Stepped(b, s).pipes)
  {
    match s
    case Descr(d) =>
      if Append(b, d).Accepted? && d[1] == DT_ENDPOINT {
        AddKeepsTabled(b.pipes, RecOf(d, Alloc(b.pipes, b.Owner(), WantOf(d), DirInOf(d)), b.Owner()));
      }
    case Claims(want) =>
      ClaimKeepsTabled(b.pipes, Reserve(b, want).0.pipes);
    case Control(_, _) =>
    case SetAlt(_, _) =>
    case Begin =>
    case Abort =>
      if b.groups != [] {
        ReleaseKeepsTabled(b.pipes, b.mark.nEps, b.mark.reserved);
      }
  }

  lemma ClaimKeepsTabled(p: Pipes, q: Pipes)
    requires Tabled(p) && q.Shape() && q.eps == p.eps && q.holder == p.holder
    ensures Tabled(q)
  {
    forall s | 0 <= s < 32 && q.holder[s].Held? ensures HolderIsEp(q, s) {
      assert HolderIsEp(p, s);
    }
  }

  lemma ReleaseKeepsTabled(p: Pipes, n: nat, reserved: seq<byte>)
    requires Tabled(p) && n <= |p.eps| && |reserved| == 32
    ensures Tabled(Pipes(p.eps[..n], Released(p, n), reserved))
  {
    var q := Pipes(p.eps[..n], Released(p, n), reserved);
    forall s | 0 <= s < 32 && q.holder[s].Held? ensures HolderIsEp(q, s) {
      assert HolderIsEp(p, s);
    }
  }

  /** From an empty device, whose table is empty, after any steps at all, the table is what the abort's loop needs. */
  lemma {:induction false} AlwaysTabled(b: Build, steps: seq<BuildStep>)
    requires b.Shape() && Tabled(b.pipes) && forall i :: 0 <= i < |steps| ==> Legal(steps[i])
    ensures Tabled(Built(b, steps).pipes)
    decreases |steps|
  {
    if steps != [] {
      assert Legal(steps[0]);
      StepTabled(b, steps[0]);
      AlwaysTabled(Stepped(b, steps[0]), steps[1..]);
    }
  }

  // ---- reservations ------------------------------------------------------------------

  lemma StepClaimed(m: Base, c: Build, s: BuildStep, owner: byte, n: Number, dirIn: bool)
    requires From(m, c) && Sound(c) && Heeded(m, c, [s]) && Claimed(c.pipes, owner, n, dirIn)
    requires m.At? ==> Claimed(m.b.pipes, owner, n, dirIn)
    ensures Claimed(Stepped(c, s).pipes, owner, n, dirIn)
  {
    match s
    case Descr(d) =>
      if Append(c, d).Accepted? && d[1] == DT_ENDPOINT {
        StepKeepsClaim(c.pipes, AddOp(c.Owner(), WantOf(d), DirInOf(d), d[3] % 4, Le16(d[4..6]), d[6]), owner, n, dirIn);
      }
    case Claims(want) =>
      StepKeepsClaim(c.pipes, ClaimOp(c.Owner(), want % 16, want >= 0x80), owner, n, dirIn);
    case Control(_, _) =>
    case SetAlt(_, _) =>
    case Begin =>
    case Abort =>
      if c.groups != [] {
        AbortIffClean(m.b, c);
      }
  }

  lemma {:induction false} BuildKeepsClaim(m: Base, b: Build, steps: seq<BuildStep>, owner: byte, n: Number, dirIn: bool)
    requires Sound(b) && From(m, b) && Heeded(m, b, steps) && forall i :: 0 <= i < |steps| ==> Legal(steps[i])
    requires Claimed(b.pipes, owner, n, dirIn) && (m.At? ==> Claimed(m.b.pipes, owner, n, dirIn))
    ensures Claimed(Built(b, steps).pipes, owner, n, dirIn)
    decreases |steps|
  {
    if steps != [] {
      FirstHeeded(m, b, steps);
      StepFrom(m, b, steps[0]);
      StepSound(m, b, steps[0]);
      StepClaimed(m, b, steps[0], owner, n, dirIn);
      BuildKeepsClaim(NextBase(m, b, steps[0]), Stepped(b, steps[0]), steps[1..], owner, n, dirIn);
    }
  }

  lemma AddressParts(n: Number, dirIn: bool)
    ensures Address(n, dirIn) % 16 == n && (Address(n, dirIn) >= 0x80 <==> dirIn)
  {}

  /** The address usbip_device_reserve_endpoint returns is the one the interface's endpoint gets
      when it asks for it, after any further build steps by anybody, with groups begun and
      aborted among them. */
  lemma ReservationHolds(b: Build, want: byte, steps: seq<BuildStep>)
    requires Sound(b) && b.cur < 255 && Heeded(Unmarked, Reserve(b, want).0, steps)
    requires (forall i :: 0 <= i < |steps| ==> Legal(steps[i])) && Reserve(b, want).1 != 0
    ensures var c, addr := Built(Reserve(b, want).0, steps), Reserve(b, want).1;
      Alloc(c.pipes, b.Owner(), addr % 16, addr >= 0x80) == addr % 16 && (addr >= 0x80) == (want >= 0x80)
  {
    var n: Number := Alloc(b.pipes, b.Owner(), want % 16, want >= 0x80);
    var b2 := Reserve(b, want).0;
    AddressParts(n, want >= 0x80);
    ClaimClaims(b.pipes, b.Owner(), want % 16, want >= 0x80);
    StepKeepsConsistent(b.pipes, ClaimOp(b.Owner(), want % 16, want >= 0x80));
    BuildKeepsClaim(Unmarked, b2, steps, b.Owner(), n, want >= 0x80);
  }
}
