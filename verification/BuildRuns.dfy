/** Whole builds, with groups begun and aborted: what the host reads at the end. */
module BuildRuns {
  import opened ConfigParser
  import opened Builder
  import opened BuilderRoundTrip
  import HostView
  import opened Rollback

  /** The descriptors the builder holds, as given, and those it held when the last group of the
      run was begun. */
  datatype Trace = Trace(now: seq<Descriptor>, marked: seq<Descriptor>)

  function NextTrace(t: Trace, b: Build, s: BuildStep): Trace
    requires b.Shape() && Legal(s)
  {
    if s.Descr? && Append(b, s.d).Accepted? then t.(now := t.now + [s.d])
    else if s.Begin? && |b.groups| < MAX_GROUPS then t.(marked := t.now)
    else if s.Abort? && b.groups != [] then t.(now := t.marked)
    else t
  }

  /** The descriptors accepted and not aborted, in order. */
  ghost function Left(t: Trace, b: Build, steps: seq<BuildStep>): seq<Descriptor>
    requires b.Shape() && forall i :: 0 <= i < |steps| ==> Legal(steps[i])
    decreases |steps|
  {
    if steps == [] then t.now
    else
      assert Legal(steps[0]);
      Left(NextTrace(t, b, steps[0]), Stepped(b, steps[0]), steps[1..])
  }

  /** The interface and endpoint descriptors a step brings have their standard fields. */
  ghost predicate StandardStep(s: BuildStep) {
    s.Descr? ==> Standard(s.d)
  }

  /** The build and the one the last group was begun in hold what the trace says. */
  ghost predicate Follows(t: Trace, m: Base, b: Build, ds: seq<Descriptor>, ms: seq<Descriptor>) {
    && Sound(b) && From(m, b) && Traced(b, t.now, ds)
    && (m.At? ==> Traced(m.b, t.marked, ms))
  }

  lemma AppendTraced(b: Build, gs: seq<Descriptor>, ds: seq<Descriptor>, d: Descriptor) returns (es: seq<Descriptor>)
    requires Traced(b, gs, ds) && Standard(d) && Append(b, d).Accepted?
    ensures Traced(Append(b, d).b, gs + [d], es)
  {
    if d[1] == DT_INTERFACE {
      TraceInterface(b, gs, ds, d);
      es := ds + [Normal(d)];
    } else if d[1] == DT_ENDPOINT {
      TraceEndpoint(b, gs, ds, d);
      es := WithEndpoint(ds, EndpointPut(b, d));
    } else {
      TraceOther(b, gs, ds, d);
      es := ds + [Normal(d)];
    }
  }

  lemma SameTraced(b: Build, c: Build, gs: seq<Descriptor>, ds: seq<Descriptor>)
    requires Traced(b, gs, ds) && c.Shape() && c.pipes.eps == b.pipes.eps
    requires c.blob == b.blob && c.ifalts == b.ifalts && c.cur == b.cur && c.curAlt == b.curAlt
    ensures Traced(c, gs, ds)
  {}

  lemma AbortTraced(t: Trace, m: Base, b: Build, ds: seq<Descriptor>, ms: seq<Descriptor>)
    requires Follows(t, m, b, ds, ms) && b.groups != [] && Heeded(m, b, [Abort])
    ensures Traced(GroupAbort(b), t.marked, ms)
  {
    AbortIffClean(m.b, b);
    SameTraced(m.b, GroupAbort(b), t.marked, ms);
  }

  lemma PlainTraced(t: Trace, b: Build, ds: seq<Descriptor>, s: BuildStep) returns (es: seq<Descriptor>)
    requires Traced(b, t.now, ds) && StandardStep(s) && !s.Abort?
    ensures Traced(Stepped(b, s), NextTrace(t, b, s).now, es)
    ensures s.Begin? ==> es == ds
  {
    if s.Descr? && Append(b, s.d).Accepted? {
      es := AppendTraced(b, t.now, ds, s.d);
    } else {
      es := ds;
      OtherStep(b, s);
      SameTraced(b, Stepped(b, s), t.now, ds);
    }
  }

  lemma OtherStep(b: Build, s: BuildStep)
    requires b.Shape() && Legal(s) && !s.Abort? && !(s.Descr? && Append(b, s.d).Accepted?)
    ensures var c := Stepped(b, s);
      c.blob == b.blob && c.ifalts == b.ifalts && c.cur == b.cur && c.curAlt == b.curAlt && c.pipes.eps == b.pipes.eps
  {}

  /** What the builder holds after a step; an abort brings back what is marked. */
  lemma NowTraced(t: Trace, m: Base, b: Build, ds: seq<Descriptor>, ms: seq<Descriptor>, s: BuildStep)
    returns (es: seq<Descriptor>)
    requires Follows(t, m, b, ds, ms) && StandardStep(s) && Heeded(m, b, [s])
    ensures Traced(Stepped(b, s), NextTrace(t, b, s).now, es)
    ensures s.Begin? ==> es == ds
  {
    if !s.Abort? {
      es := PlainTraced(t, b, ds, s);
    } else if b.groups != [] {
      es := ms;
      AbortTraced(t, m, b, ds, ms);
    } else {
      es := ds;
    }
  }

  lemma StepTraced(t: Trace, m: Base, b: Build, ds: seq<Descriptor>, ms: seq<Descriptor>, s: BuildStep)
    returns (es: seq<Descriptor>, ns: seq<Descriptor>)
    requires Follows(t, m, b, ds, ms) && StandardStep(s) && Heeded(m, b, [s])
    ensures Follows(NextTrace(t, b, s), NextBase(m, b, s), Stepped(b, s), es, ns)
  {
    StepFrom(m, b, s);
    StepSound(m, b, s);
    es := NowTraced(t, m, b, ds, ms, s);
    ns := if s.Begin? && |b.groups| < MAX_GROUPS then ds else ms;
  }

  lemma {:induction false} RunTraced(t: Trace, m: Base, b: Build, ds: seq<Descriptor>, ms: seq<Descriptor>, steps: seq<BuildStep>)
    returns (es: seq<Descriptor>)
    requires Follows(t, m, b, ds, ms) && Heeded(m, b, steps)
    requires (forall i :: 0 <= i < |steps| ==> Legal(steps[i])) && forall i :: 0 <= i < |steps| ==> StandardStep(steps[i])
    ensures Traced(Built(b, steps), Left(t, b, steps), es)
    decreases |steps|
  {
    if steps == [] {
      es := ds;
    } else {
      var s := steps[0];
      FirstHeeded(m, b, steps);
      var ns;
      es, ns := StepTraced(t, m, b, ds, ms, s);
      es := RunTraced(NextTrace(t, b, s), NextBase(m, b, s), Stepped(b, s), es, ns, steps[1..]);
    }
  }

  /** From an empty device, any build steps with standard descriptors, with groups begun and
      aborted among them: the host parses the descriptors accepted and not aborted, in order,
      each as given except that bLength is filled in, endpoints carry their allocated addresses,
      and bNumEndpoints counts, for exactly the alternates that have a record. */
  lemma HostReadsBuild(steps: seq<BuildStep>) returns (ds: seq<Descriptor>)
    requires (forall i :: 0 <= i < |steps| ==> Legal(steps[i])) && forall i :: 0 <= i < |steps| ==> StandardStep(steps[i])
    requires Heeded(Unmarked, NewBuild(), steps)
    ensures Faithful(Built(NewBuild(), steps), Left(Trace([], []), NewBuild(), steps), ds)
    ensures AutoCounted(Left(Trace([], []), NewBuild(), steps), ds)
    ensures HostSees(Built(NewBuild(), steps), ds)
    ensures HostView.HostHasTree(Served(Built(NewBuild(), steps)), ds)
    ensures HostView.HostHasAddresses(Built(NewBuild(), steps).pipes.eps, ds)
  {
    var b, gs := Built(NewBuild(), steps), Left(Trace([], []), NewBuild(), steps);
    ds := RunTraced(Trace([], []), Unmarked, NewBuild(), [], [], steps);
    HostOf(b, gs, ds);
  }

  lemma HostOf(b: Build, gs: seq<Descriptor>, ds: seq<Descriptor>)
    requires Traced(b, gs, ds)
    ensures Faithful(b, gs, ds) && AutoCounted(gs, ds) && HostSees(b, ds)
    ensures HostView.HostHasTree(Served(b), ds) && HostView.HostHasAddresses(b.pipes.eps, ds)
  {
    CountsAreExact(b, gs, ds);
    ParsesAsSections(b, gs, ds);
    HostView.HostTreeIs(b, ds);
    HostView.HostAddressesAllocated(b.pipes.eps, ds);
  }
}
