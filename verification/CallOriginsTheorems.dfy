/** What the call-origin protocol guarantees over whole runs. */
module CallOriginsTheorems {
  import opened Wrappers
  import opened Contexts
  import opened CallRouting
  import opened CallOrigins
  import opened CallOriginsInvariants

  // ----- Live tables and admission

  /** In every reachable state a reference is listed exactly while its invocation is bound and not
      yet released, under that invocation's connection and with that invocation's origin. */
  lemma LiveExactlyTheUnreleased(steps: seq<Step>, states: seq<State>, k: nat, c: Conn, r: string)
    requires Execution(steps, states) && k < |states|
    ensures (c, r) in states[k].live <==>
            && r in states[k].invocations
            && states[k].invocations[r].conn == c
            && states[k].invocations[r].lifetime == Bound
    ensures (c, r) in states[k].live ==> states[k].live[(c, r)] == states[k].invocations[r].origin
  {
    InvAlways(steps, states, k);
  }

  ghost predicate Same(a: Activity, b: Activity) {
    a == b.(phase := a.phase)
  }

  /** Step `i` found `a`'s single reference in the live table with origin `o`. */
  ghost predicate LookedUp(steps: seq<Step>, states: seq<State>, i: nat, id: ActivityId, a: Activity, o: Context)
    requires Execution(steps, states)
  {
    && i < |steps| && steps[i] == Lookup(id)
    && id in states[i].activities && Same(states[i].activities[id], a)
    && |a.refs| == 1
    && (a.conn, a.refs[0]) in states[i].live
    && states[i].live[(a.conn, a.refs[0])] == o
  }

  /** Step `j` checked that origin `o` was neither cancelled nor, for a caller-required call, unidentified. */
  ghost predicate Vetted(steps: seq<Step>, states: seq<State>, j: nat, id: ActivityId, a: Activity, o: Context)
    requires Execution(steps, states)
  {
    && j < |steps| && steps[j] == Check(id)
    && id in states[j].activities && Same(states[j].activities[id], a)
    && states[j].activities[id].phase == Found(Some(o))
    && !states[j].Err(o)
    && (a.kind == NeedsCaller ==> !o.Unidentified())
  }

  lemma ActivityAlways(steps: seq<Step>, states: seq<State>, k: nat, id: ActivityId)
    requires Execution(steps, states) && k < |states| && id in states[k].activities
    ensures ActivityOk(states[k], states[k].activities[id])
  {
    InvAlways(steps, states, k);
  }

  /** A pending activity has one reference to look up. */
  ghost predicate OneReference(s: State, id: ActivityId) {
    id in s.activities && s.activities[id].phase.Pending? ==> |s.activities[id].refs| == 1
  }

  lemma OneReferenceAlways(steps: seq<Step>, states: seq<State>, k: nat, id: ActivityId)
    requires Execution(steps, states) && k < |states|
    ensures OneReference(states[k], id)
  {
    if id in states[k].activities {
      ActivityAlways(steps, states, k, id);
    }
  }

  lemma LookupFinds(s: State, e: Step, id: ActivityId, o: Context)
    requires Enabled(s, e) && StepsOf(e, id) && id in Apply(s, e).activities
    requires Apply(s, e).activities[id].phase == Found(Some(o))
    requires OneReference(s, id)
    ensures e == Lookup(id) && id in s.activities
    ensures Same(s.activities[id], Apply(s, e).activities[id])
    ensures var a := s.activities[id];
            |a.refs| == 1 && (a.conn, a.refs[0]) in s.live && s.live[(a.conn, a.refs[0])] == o
  {}

  /** The activity was found by this very step, or the step left it alone. */
  lemma FoundOrKept(s: State, e: Step, t: State, id: ActivityId, o: Context)
    requires Enabled(s, e) && t == Apply(s, e) && OneReference(s, id)
    requires id in t.activities && t.activities[id].phase == Found(Some(o))
    ensures id in s.activities
    ensures e == Lookup(id) ==>
              var a := s.activities[id];
              && Same(a, t.activities[id])
              && |a.refs| == 1 && (a.conn, a.refs[0]) in s.live && s.live[(a.conn, a.refs[0])] == o
    ensures e != Lookup(id) ==> s.activities[id] == t.activities[id]
  {
    if StepsOf(e, id) {
      LookupFinds(s, e, id, o);
    } else {
      OthersUnchanged(s, e, id);
    }
  }

  lemma {:induction false} FoundByLookup(steps: seq<Step>, states: seq<State>, k: nat, id: ActivityId, o: Context)
    returns (i: nat)
    requires Execution(steps, states) && k < |states|
    requires id in states[k].activities && states[k].activities[id].phase == Found(Some(o))
    ensures i < k && LookedUp(steps, states, i, id, states[k].activities[id], o)
  {
    OneReferenceAlways(steps, states, k - 1, id);
    FoundOrKept(states[k - 1], steps[k - 1], states[k], id, o);
    if steps[k - 1] == Lookup(id) {
      i := k - 1;
    } else {
      i := FoundByLookup(steps, states, k - 1, id, o);
    }
  }

  /** The origin an activity is attached to, once its checks have passed. */
  ghost function AttachedOrigin(p: Phase): Option<Context> {
    match p
    case Admitted(o) => Some(o)
    case Attached(scope) => Some(scope.origin)
    case Running(_, Some(scope)) => Some(scope.origin)
    case Closing(scope) => Some(scope.origin)
    case _ => None
  }

  /** The activity passed its checks in this very step, or was attached to the same origin before. */
  lemma CheckedOrKept(s: State, e: Step, t: State, id: ActivityId, o: Context)
    requires Enabled(s, e) && t == Apply(s, e)
    requires id in t.activities && AttachedOrigin(t.activities[id].phase) == Some(o)
    ensures id in s.activities && Same(s.activities[id], t.activities[id])
    ensures e == Check(id) ==>
              && s.activities[id].phase == Found(Some(o)) && !s.Err(o)
              && (s.activities[id].kind == NeedsCaller ==> !o.Unidentified())
    ensures e != Check(id) ==> AttachedOrigin(s.activities[id].phase) == Some(o)
  {
    if !StepsOf(e, id) {
      OthersUnchanged(s, e, id);
    }
  }

  lemma {:induction false} AttachedAfterCheck(steps: seq<Step>, states: seq<State>, k: nat, id: ActivityId, o: Context)
    returns (j: nat)
    requires Execution(steps, states) && k < |states|
    requires id in states[k].activities && AttachedOrigin(states[k].activities[id].phase) == Some(o)
    ensures j < k && Vetted(steps, states, j, id, states[k].activities[id], o)
  {
    CheckedOrKept(states[k - 1], steps[k - 1], states[k], id, o);
    if steps[k - 1] == Check(id) {
      j := k - 1;
    } else {
      j := AttachedAfterCheck(steps, states, k - 1, id, o);
    }
  }

  /** A caller-required handler runs only after its one reference was found live, and then checked
      to be neither cancelled nor unidentified; it runs in that origin's restored context. */
  lemma AdmissionNeedsLiveOrigin(steps: seq<Step>, states: seq<State>, k: nat, id: ActivityId)
    requires Execution(steps, states) && k < |states|
    requires id in states[k].activities
    requires states[k].activities[id].kind == NeedsCaller && states[k].activities[id].phase.Running?
    ensures var a := states[k].activities[id];
            && |a.refs| == 1
            && exists i: nat, j: nat, o: Context, call: Node ::
                 && i < j < k
                 && LookedUp(steps, states, i, id, a, o)
                 && Vetted(steps, states, j, id, a, o)
                 && a.phase.ctx == Restored(a.raw, call, o, a.refs[0])
  {
    InvAlways(steps, states, k);
    var a := states[k].activities[id];
    assert ActivityOk(states[k], a);
    var scope := a.phase.running.value;
    var j := AttachedAfterCheck(steps, states, k, id, scope.origin);
    var i := FoundByLookup(steps, states, j, id, scope.origin);
    assert Same(states[i].activities[id], a);
    assert LookedUp(steps, states, i, id, a, scope.origin);
    assert a.phase.ctx == Restored(a.raw, scope.call, scope.origin, a.refs[0]);
  }

  /** What every step keeps holds from then on. */
  lemma {:induction false} Persists(holds: State -> bool, steps: seq<Step>, states: seq<State>, i: nat, j: nat)
    requires Execution(steps, states) && i <= j < |states| && holds(states[i])
    requires forall s, e | Enabled(s, e) && holds(s) :: holds(Apply(s, e))
    ensures holds(states[j])
  {
    if i < j {
      Persists(holds, steps, states, i, j - 1);
      assert Enabled(states[j - 1], steps[j - 1]);
    }
  }

  ghost predicate NoLongerBound(s: State, r: string) {
    r in s.invocations && s.invocations[r].lifetime != Bound
  }

  lemma ReleasedStep(s: State, e: Step, r: string)
    requires Enabled(s, e) && NoLongerBound(s, r)
    ensures NoLongerBound(Apply(s, e), r)
  {}

  lemma ReleasedStays(steps: seq<Step>, states: seq<State>, i: nat, j: nat, r: string)
    requires Execution(steps, states) && i <= j < |states| && NoLongerBound(states[i], r)
    ensures NoLongerBound(states[j], r)
  {
    forall s, e | Enabled(s, e) && NoLongerBound(s, r) ensures NoLongerBound(Apply(s, e), r) {
      ReleasedStep(s, e, r);
    }
    Persists(s => NoLongerBound(s, r), steps, states, i, j);
  }

  /** Once a reference is taken off its table no later lookup resolves it, by callback or by event,
      on any connection. */
  lemma ReleasedNeverResolves(steps: seq<Step>, states: seq<State>, i: nat, j: nat, r: string, id: ActivityId)
    requires Execution(steps, states) && i <= j < |steps|
    requires r in states[i].invocations && states[i].invocations[r].lifetime != Bound
    requires steps[j] == Lookup(id) && states[j].activities[id].refs == [r]
    ensures states[j + 1].activities[id].phase == Found(None)
  {
    ReleasedStays(steps, states, i, j, r);
    LiveExactlyTheUnreleased(steps, states, j, states[j].activities[id].conn, r);
  }

  // ----- Routing

  /** A callback made from an SDK handler context of the invocation bound under `r` resolves to that
      invocation's own origin or to nothing, in whatever state the host meanwhile is. */
  lemma CallbackResolvesToItsInvocation(
    steps: seq<Step>, states: seq<State>, bound: nat, looked: nat, id: ActivityId,
    server: Context, derived: Context)
    requires Execution(steps, states) && bound < looked < |steps|
    requires steps[bound].Bind?
    requires Transports(BoundCall(steps[bound].parent, steps[bound].reference), server)
    requires Extends(derived, WithPluginCallReference(server), HandlerReferenceKey)
    requires steps[looked] == Lookup(id)
    requires !states[looked].activities[id].kind.Delivering?
    requires Transports(HostCall(derived), states[looked].activities[id].raw)
    ensures states[looked + 1].activities[id].phase in
            {Found(None), Found(Some(Cancellable(steps[bound].parent, steps[bound].node)))}
  {
    var a := states[looked].activities[id];
    var r := steps[bound].reference;
    CallbackPresentsItsInvocation(steps[bound].parent, r, server, derived, a.raw);
    RefsArePresented(steps, states, looked, id);
    OriginStays(steps, states, bound + 1, looked, r);
    LiveExactlyTheUnreleased(steps, states, looked, a.conn, r);
  }

  /** A callback's references are the ones it arrived with. */
  ghost predicate Presents(s: State, id: ActivityId) {
    id in s.activities && !s.activities[id].kind.Delivering? ==>
      s.activities[id].refs == PresentedReferences(s.activities[id].raw)
  }

  lemma PresentsStep(s: State, e: Step, id: ActivityId)
    requires Enabled(s, e) && Presents(s, id)
    ensures Presents(Apply(s, e), id)
  {
    if !StepsOf(e, id) {
      OthersUnchanged(s, e, id);
    }
  }

  lemma RefsArePresented(steps: seq<Step>, states: seq<State>, k: nat, id: ActivityId)
    requires Execution(steps, states) && k < |states|
    ensures Presents(states[k], id)
  {
    forall s, e | Enabled(s, e) && Presents(s, id) ensures Presents(Apply(s, e), id) {
      PresentsStep(s, e, id);
    }
    Persists(s => Presents(s, id), steps, states, 0, k);
  }

  lemma OriginStays(steps: seq<Step>, states: seq<State>, i: nat, j: nat, r: string)
    requires Execution(steps, states) && i <= j < |states| && r in states[i].invocations
    ensures r in states[j].invocations && states[j].invocations[r].origin == states[i].invocations[r].origin
  {
    forall k | 0 < k < |states| ensures Grows(states[k - 1], states[k]) {
      StepGrows(states[k - 1], steps[k - 1]);
    }
    GrowsAlong(states, i, j);
  }

  lemma {:induction false} GrowsAlong(states: seq<State>, i: nat, j: nat)
    requires i <= j < |states|
    requires forall k | 0 < k < |states| :: Grows(states[k - 1], states[k])
    ensures Grows(states[i], states[j])
  {
    if i < j {
      GrowsAlong(states, i, j - 1);
    }
  }

  // ----- Cancellation

  lemma SettledAlongEdges(s: State, l: (Node, Node))
    requires Inv(s) && Quiescent(s) && l in s.edges && l.0 in s.done
    ensures l.1 in s.done
  {
    assert !StoppedDelivery(s, l.1);
  }

  lemma {:induction false} SettledAlongPath(s: State, p: seq<Node>)
    requires Inv(s) && Quiescent(s) && Path(s.edges, p) && p[0] in s.done
    ensures p[|p| - 1] in s.done
  {
    if |p| > 1 {
      var q := p[..|p| - 1];
      assert Path(s.edges, q);
      SettledAlongPath(s, q);
      SettledAlongEdges(s, (p[|p| - 2], p[|p| - 1]));
    }
  }

  /** Once pending propagations have fired, a node is closed exactly when some explicit cancel call
      reaches it: no cancellation is lost and none is spurious. */
  lemma ClosedIffCaused(steps: seq<Step>, states: seq<State>, k: nat, n: Node)
    requires Execution(steps, states) && k < |states| && Quiescent(states[k])
    ensures n in states[k].done <==> Caused(states[k], n)
  {
    var s := states[k];
    InvAlways(steps, states, k);
    if Caused(s, n) {
      var p :| Path(s.edges, p) && p[0] in s.cancelled && p[|p| - 1] == n;
      SettledAlongPath(s, p);
    }
  }

  lemma {:induction false} SettledFromAncestor(s: State, ctx: Context, n: Node)
    requires Inv(s) && Quiescent(s) && Wired(s.edges, ctx)
    requires n in ctx.Ancestors() && n in s.done
    ensures s.Err(ctx)
  {
    match ctx
    case Root(_, _) =>
    case Cancellable(p, m) =>
      if n != m {
        SettledFromAncestor(s, p, n);
        SettledAlongEdges(s, (p.DoneNode(), m));
      }
    case WithValue(p, _, _) => SettledFromAncestor(s, p, n);
    case Caller(call, origin) =>
      if n in call.Ancestors() {
        SettledFromAncestor(s, call, n);
      } else {
        SettledFromAncestor(s, origin, n);
        SettledAlongEdges(s, (origin.DoneNode(), call.DoneNode()));
      }
  }

  /** No lost race, at any depth: when nothing is pending, every context derived from the origin of a
      released invocation has failed, through any number of nested callbacks, deliveries and
      invocations, whichever of cancel and AfterFunc registration came first. */
  lemma ReleaseCancelsDescendants(steps: seq<Step>, states: seq<State>, k: nat, r: string, ctx: Context)
    requires Execution(steps, states) && k < |states| && Quiescent(states[k])
    requires r in states[k].invocations && states[k].invocations[r].lifetime == Released
    requires ctx in states[k].contexts
    requires states[k].invocations[r].origin.DoneNode() in ctx.Ancestors()
    ensures states[k].Err(ctx)
  {
    InvAlways(steps, states, k);
    assert InvocationOk(states[k], states[k].invocations[r]);
    SettledFromAncestor(states[k], ctx, states[k].invocations[r].origin.DoneNode());
  }

  /** A running handler's context is derived from its invocation's origin, so the law above covers it. */
  lemma RunningDescendsFromItsOrigin(steps: seq<Step>, states: seq<State>, k: nat, id: ActivityId)
    requires Execution(steps, states) && k < |states|
    requires id in states[k].activities
    requires states[k].activities[id].phase.Running? && states[k].activities[id].phase.running.Some?
    ensures var a := states[k].activities[id];
            && a.phase.ctx in states[k].contexts
            && |a.refs| == 1 && a.refs[0] in states[k].invocations
            && states[k].invocations[a.refs[0]].origin.Ancestors() <= a.phase.ctx.Ancestors()
            && states[k].invocations[a.refs[0]].origin.DoneNode() in a.phase.ctx.Ancestors()
  {
    InvAlways(steps, states, k);
    var s := states[k];
    var a := s.activities[id];
    assert ActivityOk(s, a) && InvocationOk(s, s.invocations[a.refs[0]]);
    RunningContextKnown(steps, states, k, id);
    var scope := a.phase.running.value;
    assert Caller(Cancellable(a.raw, scope.call), scope.origin).Ancestors() >= scope.origin.Ancestors();
  }

  lemma {:induction false} RunningContextKnown(steps: seq<Step>, states: seq<State>, k: nat, id: ActivityId)
    requires Execution(steps, states) && k < |states|
    requires id in states[k].activities && states[k].activities[id].phase.Running?
    ensures states[k].activities[id].phase.ctx in states[k].contexts
  {
    var s, e := states[k - 1], steps[k - 1];
    StepGrows(s, e);
    if !StepsOf(e, id) {
      OthersUnchanged(s, e, id);
      RunningContextKnown(steps, states, k - 1, id);
    }
  }

  /** What a running activity sees. A callback sees its own reference; a delivery sees none but its
      origin's; every other key has the origin's value, or the arriving call's where the origin has
      none. Without an origin it sees what it arrived with, marked unless its method is exempt. */
  lemma RunningSees(steps: seq<Step>, states: seq<State>, k: nat, id: ActivityId, key: Key)
    requires Execution(steps, states) && k < |states|
    requires id in states[k].activities && states[k].activities[id].phase.Running?
    ensures var a := states[k].activities[id];
            var ctx := a.phase.ctx;
            match a.phase.running
            case Some(scope) =>
              && (!a.kind.Delivering? ==> a.refs == [HostCallReference(ctx)])
              && (a.kind.Delivering? || key != HostCallReferenceKey ==>
                    ctx.Lookup(key) ==
                    if scope.origin.Lookup(key).Some? then scope.origin.Lookup(key) else a.raw.Lookup(key))
            case None =>
              && (ctx.Unidentified() <==> a.kind != Exempt)
              && (key != UnidentifiedKey ==> ctx.Lookup(key) == a.raw.Lookup(key))
  {
    ActivityAlways(steps, states, k, id);
    var a := states[k].activities[id];
    match a.phase.running
    case Some(scope) =>
      RestoredValues(a.raw, scope.call, scope.origin, scope.reference, key);
      assert Caller(Cancellable(a.raw, scope.call), scope.origin).Lookup(key) ==
             if scope.origin.Lookup(key).Some? then scope.origin.Lookup(key)
             else Cancellable(a.raw, scope.call).Lookup(key);
    case None =>
      MarkedValues(a.raw, key);
  }

  // ----- Chains of emitted events

  /** `next` was emitted under the reference of an invocation that delivered `event`. */
  ghost predicate EmittedFrom(s: State, event: EventId, next: EventId)
    requires next in s.events
  {
    exists r | r in s.invocations ::
      s.invocations[r].delivering == Some(event) && s.events[next].presented == [r]
  }

  /** Each event after the first was emitted from a delivery of the one before it. */
  ghost predicate Chain(s: State, chain: seq<EventId>) {
    && chain != []
    && (forall i | 0 <= i < |chain| :: chain[i] in s.events)
    && (forall i | 0 < i < |chain| :: EmittedFrom(s, chain[i - 1], chain[i]))
  }

  /** A delivery of an unresolved event, or of one emitted under an unidentified origin, is unidentified. */
  lemma DeliveryInheritsTaint(s: State, v: Event, i: Invocation)
    requires InvocationOk(s, i) && EventOk(s, v)
    requires i.delivering.Some? && v == s.events[i.delivering.value]
    requires "" !in s.invocations
    requires v.resolved ==> s.invocations[v.reference].origin.Unidentified()
    ensures i.origin.Unidentified()
  {
    var p := i.origin.parent;
    if !p.Unidentified() {
      ExtendsKeepsValue(p, s.invocations[v.reference].origin, UnidentifiedKey);
    }
  }

  /** Taint travels along a chain: the last event is unresolved or names an unidentified invocation. */
  lemma {:induction false} ChainTaints(s: State, chain: seq<EventId>)
    requires Inv(s) && Chain(s, chain) && !s.events[chain[0]].resolved
    ensures var v := s.events[chain[|chain| - 1]];
            v.resolved ==> v.reference in s.invocations && s.invocations[v.reference].origin.Unidentified()
  {
    var v := s.events[chain[|chain| - 1]];
    if v.resolved {
      var before := chain[|chain| - 2];
      assert EventOk(s, v) && EventOk(s, s.events[before]);
      assert EmittedFrom(s, before, chain[|chain| - 1]);
      ChainTaints(s, chain[..|chain| - 1]);
      DeliveryInheritsTaint(s, s.events[before], s.invocations[v.reference]);
    }
  }

  /** A delivery of `event` runs without identity. */
  ghost predicate DeliveredUnidentified(s: State, event: EventId) {
    && (forall id | id in s.activities && s.activities[id].kind == Delivering(event)
        && s.activities[id].phase.Running? ::
          s.activities[id].phase.ctx.Unidentified())
    && (forall r | r in s.invocations && s.invocations[r].delivering == Some(event) ::
          s.invocations[r].origin.Unidentified())
  }

  lemma TaintedDelivery(s: State, event: EventId, a: Activity)
    requires ActivityOk(s, a) && a.kind == Delivering(event) && a.phase.Running?
    requires event in s.events && EventOk(s, s.events[event]) && "" !in s.invocations
    requires s.events[event].resolved ==> s.invocations[s.events[event].reference].origin.Unidentified()
    ensures a.phase.ctx.Unidentified()
  {
    if a.phase.running.Some? {
      assert a.phase.ctx.origin == s.invocations[s.events[event].reference].origin;
    }
  }

  /** Once one event of a chain was emitted under a missing or dead reference, every delivery of a
      later event runs unidentified, and no caller-required call under the reference of such a
      delivery ever runs. */
  lemma UnidentifiedForTheRestOfTheChain(steps: seq<Step>, states: seq<State>, k: nat, chain: seq<EventId>)
    requires Execution(steps, states) && k < |states|
    requires Chain(states[k], chain) && !states[k].events[chain[0]].resolved
    ensures DeliveredUnidentified(states[k], chain[|chain| - 1])
    ensures forall id, r | id in states[k].activities && r in states[k].invocations ::
              && states[k].invocations[r].delivering == Some(chain[|chain| - 1])
              && states[k].activities[id].kind == NeedsCaller
              && states[k].activities[id].refs == [r]
              ==> !states[k].activities[id].phase.Running?
  {
    var s := states[k];
    var last := chain[|chain| - 1];
    InvAlways(steps, states, k);
    ChainTaints(s, chain);
    assert EventOk(s, s.events[last]);
    forall r | r in s.invocations && s.invocations[r].delivering == Some(last)
      ensures s.invocations[r].origin.Unidentified()
    {
      DeliveryInheritsTaint(s, s.events[last], s.invocations[r]);
    }
    forall id | id in s.activities
      ensures s.activities[id].kind == Delivering(last) && s.activities[id].phase.Running? ==>
                s.activities[id].phase.ctx.Unidentified()
      ensures ActivityOk(s, s.activities[id])
    {
      var a := s.activities[id];
      if a.kind == Delivering(last) && a.phase.Running? {
        TaintedDelivery(s, last, a);
      }
    }
  }

  /** The same for whatever a delivery sets off: an invocation bound at any later time on any context
      derived from the delivery's own, by steps that do not touch the mark, is unidentified, and no
      caller-required call under its reference ever runs. */
  lemma DeliveryTaintsWhatItSetsOff(
    steps: seq<Step>, states: seq<State>, i: nat, k: nat, chain: seq<EventId>, delivery: ActivityId, r: string)
    requires Execution(steps, states) && i <= k < |states|
    requires Chain(states[i], chain) && !states[i].events[chain[0]].resolved
    requires delivery in states[i].activities
    requires var a := states[i].activities[delivery]; a.kind == Delivering(chain[|chain| - 1]) && a.phase.Running?
    requires r in states[k].invocations
    requires Extends(states[k].invocations[r].origin, states[i].activities[delivery].phase.ctx, UnidentifiedKey)
    ensures states[k].invocations[r].origin.Unidentified()
    ensures forall id | id in states[k].activities ::
              states[k].activities[id].kind == NeedsCaller && states[k].activities[id].refs == [r] ==>
                !states[k].activities[id].phase.Running?
  {
    var ctx := states[i].activities[delivery].phase.ctx;
    UnidentifiedForTheRestOfTheChain(steps, states, i, chain);
    ExtendsKeepsValue(states[k].invocations[r].origin, ctx, UnidentifiedKey);
    forall id | id in states[k].activities ensures ActivityOk(states[k], states[k].activities[id]) {
      ActivityAlways(steps, states, k, id);
    }
  }

  // ----- Identity

  /** Callbacks in progress inside one another: each runs under an invocation whose origin was derived,
      without rebinding `key`, from the context of the one around it, the first from `root`. */
  ghost predicate Nesting(s: State, root: Context, key: Key, calls: seq<ActivityId>) {
    calls == []
    || (var n := |calls| - 1;
        Nesting(s, root, key, calls[..n]) && CallWithin(s, Innermost(s, root, calls[..n]), key, calls[n]))
  }

  ghost function Innermost(s: State, root: Context, calls: seq<ActivityId>): Context {
    if calls == [] then root
    else
      var id := calls[|calls| - 1];
      if id in s.activities && s.activities[id].phase.Running? then s.activities[id].phase.ctx else root
  }

  ghost predicate CallWithin(s: State, outer: Context, key: Key, id: ActivityId) {
    && id in s.activities && !s.activities[id].kind.Delivering?
    && s.activities[id].phase.Running? && s.activities[id].phase.running.Some?
    && |s.activities[id].refs| == 1 && s.activities[id].refs[0] in s.invocations
    && Extends(s.invocations[s.activities[id].refs[0]].origin, outer, key)
  }

  lemma IdentityOfOneCall(s: State, outer: Context, key: Key, id: ActivityId)
    requires CallWithin(s, outer, key, id) && ActivityOk(s, s.activities[id])
    requires outer.Lookup(key).Some? && key != HostCallReferenceKey
    ensures s.activities[id].phase.ctx.Lookup(key) == outer.Lookup(key)
    ensures HostCallReference(s.activities[id].phase.ctx) == s.activities[id].refs[0]
  {
    var origin := s.invocations[s.activities[id].refs[0]].origin;
    ExtendsKeepsValue(origin, outer, key);
    var a := s.activities[id];
    var scope := a.phase.running.value;
    assert a.phase.ctx == Restored(a.raw, scope.call, origin, a.refs[0]);
    assert Caller(Cancellable(a.raw, scope.call), origin).Lookup(key) == origin.Lookup(key);
  }

  /** In every reachable state, at any depth of calls in progress, a root value that host code does not
      rebind is still the root's, and the host-call reference is the innermost one. */
  lemma {:induction false} IdentityInEveryState(
    steps: seq<Step>, states: seq<State>, k: nat, root: Context, key: Key, calls: seq<ActivityId>)
    requires Execution(steps, states) && k < |states|
    requires Nesting(states[k], root, key, calls) && calls != []
    requires root.Lookup(key).Some? && key != HostCallReferenceKey
    ensures var id := calls[|calls| - 1];
            && id in states[k].activities && states[k].activities[id].phase.Running?
            && states[k].activities[id].phase.ctx.Lookup(key) == root.Lookup(key)
            && states[k].activities[id].refs == [HostCallReference(states[k].activities[id].phase.ctx)]
  {
    var n := |calls| - 1;
    var s := states[k];
    if n > 0 {
      IdentityInEveryState(steps, states, k, root, key, calls[..n]);
    }
    ActivityAlways(steps, states, k, calls[n]);
    IdentityOfOneCall(s, Innermost(s, root, calls[..n]), key, calls[n]);
  }

  // ----- Settling

  ghost function Due(s: State): set<(Node, Node)> {
    set l | l in s.links && l.0 in s.done && l.1 !in s.done
  }

  ghost function HalfReleased(s: State): set<ActivityId> {
    set id | id in s.activities && s.activities[id].kind.Delivering? && s.activities[id].phase.Closing?
  }

  ghost function Open(s: State): set<(Node, Node)> {
    set l | l in s.links && l.1 !in s.done
  }

  /** A step of pending work that changes something: a propagation that is due, or the second half of
      a delivery's release. */
  ghost predicate Effective(s: State, e: Step) {
    match e
    case Propagate(from, to) => (from, to) in Due(s)
    case CloseSecond(id) => id in HalfReleased(s)
    case _ => false
  }

  /** `steps` are effective steps from `s` to `t`, in any order. */
  ghost predicate Fires(steps: seq<Step>, s: State, t: State) {
    if steps == [] then s == t
    else Effective(s, steps[0]) && Enabled(s, steps[0]) && Fires(steps[1..], Apply(s, steps[0]), t)
  }

  /** How much work is pending at most. */
  ghost function Pending(s: State): nat {
    |HalfReleased(s)| + |Open(s)|
  }

  /** Whatever effective step is taken, less work is pending. */
  lemma EffectiveShrinks(s: State, e: Step)
    requires Effective(s, e)
    ensures Enabled(s, e) && Pending(Apply(s, e)) < Pending(s)
  {
    var t := Apply(s, e);
    if e.Propagate? {
      assert HalfReleased(t) == HalfReleased(s);
      assert (e.from, e.to) in Open(s) && (e.from, e.to) !in Open(t);
      Shrinks(Open(t), Open(s));
    } else {
      assert e.id in HalfReleased(s) && e.id !in HalfReleased(t);
      Shrinks(HalfReleased(t), HalfReleased(s));
      Subset(Open(t), Open(s));
    }
  }

  /** A state in which nothing is left to fire is quiescent, and the other way round. */
  lemma NothingEffectiveIffQuiescent(s: State)
    ensures Quiescent(s) <==> forall e :: !Effective(s, e)
  {
    if forall e :: !Effective(s, e) {
      forall l | l in s.links && l.0 in s.done ensures l.1 in s.done {
        assert !Effective(s, Propagate(l.0, l.1));
      }
      forall id | id in s.activities ensures !(s.activities[id].kind.Delivering? && s.activities[id].phase.Closing?) {
        assert !Effective(s, CloseSecond(id));
      }
    }
  }

  /** In every order: pending work fires at most `Pending(s)` times, so firing always comes to an end,
      and where it ends the state is quiescent. */
  lemma {:induction false} EveryFiringSettles(steps: seq<Step>, s: State, t: State)
    requires Fires(steps, s, t)
    ensures |steps| + Pending(t) <= Pending(s)
    ensures (forall e :: !Effective(t, e)) <==> Quiescent(t)
    decreases |steps|
  {
    NothingEffectiveIffQuiescent(t);
    if steps != [] {
      EffectiveShrinks(s, steps[0]);
      EveryFiringSettles(steps[1..], Apply(s, steps[0]), t);
    }
  }

  /** Every firing can be carried on to the end. */
  lemma {:induction false} PendingWorkSettles(s: State) returns (steps: seq<Step>, t: State)
    ensures Fires(steps, s, t) && Quiescent(t)
    decreases Pending(s)
  {
    NothingEffectiveIffQuiescent(s);
    if e :| Effective(s, e) {
      EffectiveShrinks(s, e);
      var rest;
      rest, t := PendingWorkSettles(Apply(s, e));
      steps := [e] + rest;
    } else {
      steps, t := [], s;
    }
  }

  ghost predicate EndsIn(states: seq<State>, s: State) {
    states != [] && states[|states| - 1] == s
  }

  lemma OneMoreStep(steps: seq<Step>, states: seq<State>, s: State, e: Step)
    requires Execution(steps, states) && EndsIn(states, s) && Enabled(s, e)
    ensures Execution(steps + [e], states + [Apply(s, e)])
  {
    var steps', states' := steps + [e], states + [Apply(s, e)];
    forall i | 0 <= i < |steps'| ensures Enabled(states'[i], steps'[i]) && states'[i + 1] ==
        Apply(states'[i], steps'[i]) {
      if i < |steps| {
        assert steps'[i] == steps[i] && states'[i] == states[i] && states'[i + 1] == states[i + 1];
      } else {
        assert steps'[i] == e && states'[i] == s;
      }
    }
  }

  /** Firing pending work carries an execution on, and releases nothing anew. */
  lemma {:induction false} FiringExtends(steps: seq<Step>, states: seq<State>, more: seq<Step>, s: State, t: State)
    returns (states': seq<State>)
    requires Execution(steps, states) && EndsIn(states, s) && Fires(more, s, t)
    ensures Execution(steps + more, states') && EndsIn(states', t)
    ensures t.invocations == s.invocations && s.contexts <= t.contexts
    decreases |more|
  {
    if more == [] {
      assert steps + more == steps;
      states' := states;
    } else {
      var e, u := more[0], Apply(s, more[0]);
      OneMoreStep(steps, states, s, e);
      assert u.invocations == s.invocations && s.contexts <= u.contexts;
      states' := FiringExtends(steps + [e], states + [u], more[1..], u, t);
      assert steps + [e] + more[1..] == steps + more;
    }
  }

  /** The race, settled: from any reachable state in which an invocation has been released, after
      every maximal firing of pending work, in whatever order, each context derived from its origin
      has failed. */
  lemma EveryMaximalFiringCancels(
    steps: seq<Step>, states: seq<State>, more: seq<Step>, s: State, t: State, r: string, ctx: Context)
    requires Execution(steps, states) && EndsIn(states, s) && Fires(more, s, t)
    requires forall e :: !Effective(t, e)
    requires r in s.invocations && s.invocations[r].lifetime == Released
    requires ctx in t.contexts && s.invocations[r].origin.DoneNode() in ctx.Ancestors()
    ensures t.Err(ctx)
  {
    var states' := FiringExtends(steps, states, more, s, t);
    NothingEffectiveIffQuiescent(t);
    ReleaseCancelsDescendants(steps + more, states', |states'| - 1, r, ctx);
  }

  lemma {:induction false} Shrinks<T>(a: set<T>, b: set<T>)
    requires a < b
    ensures |a| < |b|
  {
    var x :| x in b && x !in a;
    assert a <= b - {x};
    Subset(a, b - {x});
  }

  lemma {:induction false} Subset<T>(a: set<T>, b: set<T>)
    requires a <= b
    ensures |a| <= |b|
  {
    if a != {} {
      var x :| x in a;
      Subset(a - {x}, b - {x});
    }
  }
}
