/** What every step of the call-origin protocol keeps. */
module CallOriginsInvariants {
  import opened Wrappers
  import opened Contexts
  import opened CallRouting
  import opened CallOrigins

  // ----- The live tables

  /** The tables hold exactly the bound, unreleased references, each with its own origin. */
  ghost predicate TablesExact(s: State) {
    && "" !in s.invocations
    && (forall c, r :: (c, r) in s.live <==>
          r in s.invocations && s.invocations[r].conn == c && s.invocations[r].lifetime == Bound)
    && (forall c, r | (c, r) in s.live :: s.live[(c, r)] == s.invocations[r].origin)
  }

  /** Neither the tables nor who is bound has changed. */
  ghost predicate SameBindings(s: State, t: State) {
    && t.live == s.live && t.invocations.Keys == s.invocations.Keys
    && forall r | r in s.invocations ::
         && t.invocations[r].conn == s.invocations[r].conn
         && t.invocations[r].origin == s.invocations[r].origin
         && (t.invocations[r].lifetime == Bound <==> s.invocations[r].lifetime == Bound)
  }

  lemma BindTables(s: State, e: Step)
    requires TablesExact(s) && Enabled(s, e) && e.Bind?
    ensures TablesExact(Apply(s, e))
  {
    assert forall c :: (c, e.reference) !in s.live;
  }

  lemma UnlistTables(s: State, e: Step)
    requires TablesExact(s) && Enabled(s, e) && e.Unlist?
    ensures TablesExact(Apply(s, e))
  {}

  lemma OthersKeepBindings(s: State, e: Step)
    requires Enabled(s, e) && !e.Bind? && !e.Unlist?
    ensures SameBindings(s, Apply(s, e))
  {}

  lemma BindingsKeepTables(s: State, t: State)
    requires TablesExact(s) && SameBindings(s, t)
    ensures TablesExact(t)
  {
    assert forall r :: r in t.invocations <==> r in s.invocations;
  }

  lemma TablesStep(s: State, e: Step)
    requires TablesExact(s) && Enabled(s, e)
    ensures TablesExact(Apply(s, e))
  {
    if e.Bind? {
      BindTables(s, e);
    } else if e.Unlist? {
      UnlistTables(s, e);
    } else {
      OthersKeepBindings(s, e);
      BindingsKeepTables(s, Apply(s, e));
    }
  }

  // ----- Propagation

  ghost predicate Path(edges: set<(Node, Node)>, p: seq<Node>) {
    p != [] && forall i | 0 <= i < |p| - 1 :: (p[i], p[i + 1]) in edges
  }

  /** Some explicit cancel call leads to `n` along registered propagations. */
  ghost predicate Caused(s: State, n: Node) {
    exists p: seq<Node> :: Path(s.edges, p) && p[0] in s.cancelled && p[|p| - 1] == n
  }

  /** A delivery that has stopped following its origin and is about to cancel node `n` itself. */
  ghost predicate StoppedDelivery(s: State, n: Node) {
    exists id | id in s.activities ::
      && s.activities[id].kind.Delivering?
      && s.activities[id].phase.Closing?
      && s.activities[id].phase.scope.call == n
  }

  ghost predicate NothingLost(s: State) {
    forall l | l in s.edges :: l in s.links || l.1 in s.done || StoppedDelivery(s, l.1)
  }

  ghost predicate NothingSpurious(s: State) {
    s.links <= s.edges && s.cancelled <= s.done && forall n | n in s.done :: Caused(s, n)
  }

  /** A callback that has cancelled itself is done before it stops following its origin. */
  ghost predicate ClosingOk(s: State) {
    forall id | id in s.activities && s.activities[id].phase.Closing? && !s.activities[id].kind.Delivering? ::
      s.activities[id].phase.scope.call in s.done
  }

  lemma CausedGrows(s: State, t: State, n: Node)
    requires Caused(s, n) && s.edges <= t.edges && s.cancelled <= t.cancelled
    ensures Caused(t, n)
  {
    var p :| Path(s.edges, p) && p[0] in s.cancelled && p[|p| - 1] == n;
    assert Path(t.edges, p);
  }

  lemma CausedAtOnce(s: State, n: Node)
    requires n in s.cancelled
    ensures Caused(s, n)
  {
    assert Path(s.edges, [n]);
  }

  lemma CausedAlong(s: State, l: (Node, Node))
    requires Caused(s, l.0) && l in s.edges
    ensures Caused(s, l.1)
  {
    var p :| Path(s.edges, p) && p[0] in s.cancelled && p[|p| - 1] == l.0;
    assert Path(s.edges, p + [l.1]);
  }

  /** A step closes a node only by an explicit cancel call or along a registered propagation. */
  lemma GraphStep(s: State, e: Step)
    requires Enabled(s, e)
    ensures s.edges <= Apply(s, e).edges && s.cancelled <= Apply(s, e).cancelled
    ensures Apply(s, e).cancelled - s.cancelled <= Apply(s, e).done
    ensures Apply(s, e).links - s.links <= Apply(s, e).edges
    ensures s.done <= Apply(s, e).done
    ensures forall n | n in Apply(s, e).done - s.done ::
              n in Apply(s, e).cancelled || (e.Propagate? && n == e.to)
  {}

  lemma SpuriousStep(s: State, e: Step)
    requires NothingSpurious(s) && Enabled(s, e)
    ensures NothingSpurious(Apply(s, e))
  {
    var t := Apply(s, e);
    GraphStep(s, e);
    forall n | n in t.done ensures Caused(t, n) {
      if n in s.done {
        CausedGrows(s, t, n);
      } else if n in t.cancelled {
        CausedAtOnce(t, n);
      } else {
        CausedGrows(s, t, e.from);
        CausedAlong(t, (e.from, e.to));
      }
    }
  }

  lemma ClosingStep(s: State, e: Step)
    requires ClosingOk(s) && Enabled(s, e)
    ensures ClosingOk(Apply(s, e))
  {}

  lemma StoppedStays(s: State, e: Step, n: Node)
    requires Enabled(s, e) && StoppedDelivery(s, n)
    ensures StoppedDelivery(Apply(s, e), n) || n in Apply(s, e).done
  {
    var t := Apply(s, e);
    var id :| id in s.activities && s.activities[id].kind.Delivering?
      && s.activities[id].phase.Closing? && s.activities[id].phase.scope.call == n;
    if StepsOf(e, id) {
      assert e == CloseSecond(id);
    } else {
      OthersUnchanged(s, e, id);
    }
  }

  lemma LostStep(s: State, e: Step)
    requires NothingLost(s) && ClosingOk(s) && Enabled(s, e)
    ensures NothingLost(Apply(s, e))
  {
    var t := Apply(s, e);
    forall l | l in t.edges ensures l in t.links || l.1 in t.done || StoppedDelivery(t, l.1) {
      if l in s.edges && StoppedDelivery(s, l.1) {
        StoppedStays(s, e, l.1);
      } else if l in s.links && l !in t.links && e.CloseFirst? {
        assert t.activities[e.id].phase.Closing?;
      }
    }
  }

  // ----- Activities, contexts, events

  /** Every cancellation node of `ctx` is wired to the nodes it was derived from. */
  ghost predicate Wired(edges: set<(Node, Node)>, ctx: Context) {
    match ctx
    case Root(_, _) => true
    case Cancellable(p, n) => Wired(edges, p) && (p.DoneNode(), n) in edges
    case WithValue(p, _, _) => Wired(edges, p)
    case Caller(call, origin) =>
      && Wired(edges, call) && Wired(edges, origin)
      && (origin.DoneNode(), call.DoneNode()) in edges
  }

  ghost predicate OriginOf(s: State, a: Activity, origin: Context) {
    && |a.refs| == 1 && a.refs[0] in s.invocations
    && s.invocations[a.refs[0]].origin == origin
    && s.invocations[a.refs[0]].conn == a.conn
  }

  ghost predicate ScopeOk(s: State, a: Activity, scope: Scope) {
    && OriginOf(s, a, scope.origin)
    && a.refs == [scope.reference]
    && (a.kind == NeedsCaller ==> !scope.origin.Unidentified())
    && (a.raw.DoneNode(), scope.call) in s.edges
  }

  ghost predicate ActivityOk(s: State, a: Activity) {
    && a.raw in s.contexts
    && PublicRoot(a.raw)
    && (a.kind.Delivering? ==> a.kind.event in s.events && a.refs == [s.events[a.kind.event].reference])
    && match a.phase
       case Pending => |a.refs| == 1 && a.kind != Exempt
       case Found(o) => a.kind != Exempt && (o.Some? ==> OriginOf(s, a, o.value))
       case Admitted(o) =>
         a.kind != Exempt && OriginOf(s, a, o) && (a.kind == NeedsCaller ==> !o.Unidentified())
       case Attached(scope) => a.kind != Exempt && ScopeOk(s, a, scope)
       case Running(ctx, None) =>
         a.kind != NeedsCaller && ctx == (if a.kind == Exempt then a.raw else MarkUnidentified(a.raw))
       case Running(ctx, Some(scope)) => ScopeOk(s, a, scope) && ctx == ScopedContext(a, scope)
       case _ => true
  }

  ghost predicate EventOk(s: State, v: Event) {
    if v.resolved then v.reference in s.invocations && v.presented == [v.reference]
    else v.reference == ""
  }

  /** `ctx` was derived from a delivery of event `v`: unidentified, or from the emitter's origin. */
  ghost predicate DeliveryContext(s: State, v: Event, ctx: Context) {
    || ctx.Unidentified()
    || (v.reference in s.invocations && Extends(ctx, s.invocations[v.reference].origin, UnidentifiedKey))
  }

  ghost predicate InvocationOk(s: State, i: Invocation) {
    && i.origin in s.contexts
    && i.origin.Cancellable?
    && (i.lifetime == Released ==> i.origin.DoneNode() in s.done)
    && (i.delivering.Some? ==>
          i.delivering.value in s.events && DeliveryContext(s, s.events[i.delivering.value], i.origin.parent))
  }

  ghost predicate RecordsOk(s: State) {
    && (forall ctx | ctx in s.contexts :: Wired(s.edges, ctx))
    && (forall id | id in s.activities :: ActivityOk(s, s.activities[id]))
    && (forall v | v in s.events :: EventOk(s, s.events[v]))
    && (forall r | r in s.invocations :: InvocationOk(s, s.invocations[r]))
  }

  /** What only grows: records keep their identity for the rest of the run. */
  ghost predicate Grows(s: State, t: State) {
    && s.contexts <= t.contexts && s.edges <= t.edges && s.done <= t.done
    && (forall v | v in s.events :: v in t.events && t.events[v] == s.events[v])
    && (forall r | r in s.invocations ::
          && r in t.invocations
          && t.invocations[r].conn == s.invocations[r].conn
          && t.invocations[r].origin == s.invocations[r].origin
          && t.invocations[r].delivering == s.invocations[r].delivering)
  }

  lemma StepGrows(s: State, e: Step)
    requires Enabled(s, e)
    ensures Grows(s, Apply(s, e))
  {}

  lemma {:induction false} WiredGrows(a: set<(Node, Node)>, b: set<(Node, Node)>, ctx: Context)
    requires Wired(a, ctx) && a <= b
    ensures Wired(b, ctx)
  {
    match ctx
    case Root(_, _) =>
    case Cancellable(p, _) => WiredGrows(a, b, p);
    case WithValue(p, _, _) => WiredGrows(a, b, p);
    case Caller(call, origin) => WiredGrows(a, b, call); WiredGrows(a, b, origin);
  }

  lemma ActivityKeeps(s: State, t: State, a: Activity)
    requires ActivityOk(s, a) && Grows(s, t)
    ensures ActivityOk(t, a)
  {}

  /** The step an activity takes itself. */
  ghost predicate StepsOf(e: Step, id: ActivityId) {
    match e
    case Arrive(i, _, _, _) => i == id
    case Lookup(i) => i == id
    case Check(i) => i == id
    case Attach(i, _) => i == id
    case Register(i) => i == id
    case CloseFirst(i) => i == id
    case CloseSecond(i) => i == id
    case _ => false
  }

  lemma OthersUnchanged(s: State, e: Step, id: ActivityId)
    requires Enabled(s, e) && !StepsOf(e, id)
    ensures id in Apply(s, e).activities <==> id in s.activities
    ensures id in s.activities ==> Apply(s, e).activities[id] == s.activities[id]
  {}

  lemma ArriveOk(s: State, e: Step, t: State)
    requires e.Arrive? && Enabled(s, e) && t == Apply(s, e)
    ensures e.id in t.activities && ActivityOk(t, t.activities[e.id])
  {}

  lemma LookupOk(s: State, e: Step, t: State)
    requires e.Lookup? && Enabled(s, e) && t == Apply(s, e)
    requires TablesExact(s) && ActivityOk(s, s.activities[e.id])
    ensures e.id in t.activities && ActivityOk(t, t.activities[e.id])
  {}

  lemma CheckOk(s: State, e: Step, t: State)
    requires e.Check? && Enabled(s, e) && t == Apply(s, e)
    requires ActivityOk(s, s.activities[e.id])
    ensures e.id in t.activities && ActivityOk(t, t.activities[e.id])
  {}

  lemma AttachOk(s: State, e: Step, t: State)
    requires e.Attach? && Enabled(s, e) && t == Apply(s, e)
    requires ActivityOk(s, s.activities[e.id])
    ensures e.id in t.activities && ActivityOk(t, t.activities[e.id])
  {}

  lemma RegisterOk(s: State, e: Step, t: State)
    requires e.Register? && Enabled(s, e) && t == Apply(s, e)
    requires ActivityOk(s, s.activities[e.id])
    ensures e.id in t.activities && ActivityOk(t, t.activities[e.id])
  {}

  lemma CloseFirstOk(s: State, e: Step, t: State)
    requires e.CloseFirst? && Enabled(s, e) && t == Apply(s, e)
    requires ActivityOk(s, s.activities[e.id])
    ensures e.id in t.activities && ActivityOk(t, t.activities[e.id])
  {}

  lemma CloseSecondOk(s: State, e: Step, t: State)
    requires e.CloseSecond? && Enabled(s, e) && t == Apply(s, e)
    requires ActivityOk(s, s.activities[e.id])
    ensures e.id in t.activities && ActivityOk(t, t.activities[e.id])
  {}

  lemma OwnStep(s: State, e: Step, id: ActivityId, t: State)
    requires Enabled(s, e) && t == Apply(s, e) && StepsOf(e, id)
    requires TablesExact(s) && (id in s.activities ==> ActivityOk(s, s.activities[id]))
    ensures id in t.activities && ActivityOk(t, t.activities[id])
  {
    if e.Arrive? { ArriveOk(s, e, t); }
    else if e.Lookup? { LookupOk(s, e, t); }
    else if e.Check? { CheckOk(s, e, t); }
    else if e.Attach? { AttachOk(s, e, t); }
    else if e.Register? { RegisterOk(s, e, t); }
    else if e.CloseFirst? { CloseFirstOk(s, e, t); }
    else { CloseSecondOk(s, e, t); }
  }

  lemma ActivitiesStep(s: State, e: Step, id: ActivityId)
    requires TablesExact(s) && RecordsOk(s) && Enabled(s, e)
    requires id in Apply(s, e).activities
    ensures ActivityOk(Apply(s, e), Apply(s, e).activities[id])
  {
    if StepsOf(e, id) {
      OwnStep(s, e, id, Apply(s, e));
    } else {
      StepGrows(s, e);
      OthersUnchanged(s, e, id);
      ActivityKeeps(s, Apply(s, e), s.activities[id]);
    }
  }

  /** The context a step adds, if it adds one. */
  ghost predicate Adds(s: State, e: Step, ctx: Context)
    requires Enabled(s, e)
  {
    match e
    case NewRoot(root) => ctx == root
    case Derive(_, child) => ctx == child
    case Bind(_, _, parent, node, _) => ctx == Cancellable(parent, node)
    case Arrive(_, _, raw, _) => ctx == raw || ctx == MarkUnidentified(raw)
    case Check(id) => ctx == MarkUnidentified(s.activities[id].raw)
    case Register(id) => ctx == ScopedContext(s.activities[id], s.activities[id].phase.scope)
    case _ => false
  }

  lemma NewContextIsAdded(s: State, e: Step, ctx: Context)
    requires Enabled(s, e) && ctx in Apply(s, e).contexts && ctx !in s.contexts
    ensures Adds(s, e, ctx)
  {}

  lemma ScopedIsWired(edges: set<(Node, Node)>, a: Activity, scope: Scope)
    requires PublicRoot(a.raw) && Wired(edges, scope.origin)
    requires (a.raw.DoneNode(), scope.call) in edges && (scope.origin.DoneNode(), scope.call) in edges
    ensures Wired(edges, ScopedContext(a, scope))
  {
    assert Wired(edges, Cancellable(a.raw, scope.call));
    assert Wired(edges, Caller(Cancellable(a.raw, scope.call), scope.origin));
  }

  lemma RegisteredIsWired(s: State, id: ActivityId)
    requires RecordsOk(s) && Enabled(s, Register(id))
    ensures Wired(Apply(s, Register(id)).edges, ScopedContext(s.activities[id], s.activities[id].phase.scope))
  {
    var a, t := s.activities[id], Apply(s, Register(id));
    assert ActivityOk(s, a) && InvocationOk(s, s.invocations[a.refs[0]]);
    WiredGrows(s.edges, t.edges, a.phase.scope.origin);
    ScopedIsWired(t.edges, a, a.phase.scope);
  }

  lemma ContextsStep(s: State, e: Step, ctx: Context)
    requires RecordsOk(s) && Enabled(s, e)
    requires ctx in Apply(s, e).contexts
    ensures Wired(Apply(s, e).edges, ctx)
  {
    var t := Apply(s, e);
    StepGrows(s, e);
    if ctx in s.contexts {
      WiredGrows(s.edges, t.edges, ctx);
    } else {
      NewContextIsAdded(s, e, ctx);
      match e
      case Derive(parent, _) => WiredGrows(s.edges, t.edges, parent);
      case Bind(_, _, parent, _, _) => WiredGrows(s.edges, t.edges, parent);
      case Check(id) => assert ActivityOk(s, s.activities[id]);
      case Register(id) => RegisteredIsWired(s, id);
      case _ =>
    }
  }

  lemma RunningReference(s: State, a: Activity)
    requires ActivityOk(s, a) && a.phase.Running? && a.kind == Emitting
    ensures HostCallReference(a.phase.ctx) == if a.phase.running.Some? then a.phase.running.value.reference else ""
  {
    if a.phase.running.None? {
      assert a.raw.Lookup(HostCallReferenceKey) == None;
    }
  }

  lemma EventsStep(s: State, e: Step, v: EventId)
    requires RecordsOk(s) && Enabled(s, e)
    requires v in Apply(s, e).events
    ensures EventOk(Apply(s, e), Apply(s, e).events[v])
  {
    StepGrows(s, e);
    if v !in s.events {
      RunningReference(s, s.activities[e.id]);
    }
  }

  lemma InvocationKeeps(s: State, t: State, i: Invocation)
    requires InvocationOk(s, i) && Grows(s, t)
    ensures InvocationOk(t, i)
  {}

  /** What host code derives from a delivery's context stays a context of that delivery. */
  lemma DerivedFromDelivery(s: State, a: Activity, ctx: Context)
    requires ActivityOk(s, a) && a.kind.Delivering? && a.phase.Running? && a.kind.event in s.events
    requires Extends(ctx, a.phase.ctx, UnidentifiedKey)
    ensures DeliveryContext(s, s.events[a.kind.event], ctx)
  {
    if a.phase.running.None? {
      assert a.phase.ctx.Unidentified();
      ExtendsKeepsValue(ctx, a.phase.ctx, UnidentifiedKey);
    } else {
      ExtendsTransitive(ctx, a.phase.ctx, a.phase.running.value.origin, UnidentifiedKey);
    }
  }

  lemma NewInvocation(s: State, e: Step)
    requires RecordsOk(s) && Enabled(s, e) && e.Bind?
    ensures InvocationOk(Apply(s, e), Apply(s, e).invocations[e.reference])
  {
    if e.delivery.Some? {
      var a := s.activities[e.delivery.value];
      assert ActivityOk(s, a);
      DerivedFromDelivery(s, a, e.parent);
    }
  }

  lemma InvocationsStep(s: State, e: Step, r: string)
    requires RecordsOk(s) && Enabled(s, e)
    requires r in Apply(s, e).invocations
    ensures InvocationOk(Apply(s, e), Apply(s, e).invocations[r])
  {
    if e.Bind? && e.reference == r {
      NewInvocation(s, e);
    } else {
      StepGrows(s, e);
      InvocationKeeps(s, Apply(s, e), s.invocations[r]);
    }
  }

  ghost predicate Inv(s: State) {
    && TablesExact(s)
    && NothingLost(s)
    && NothingSpurious(s)
    && ClosingOk(s)
    && RecordsOk(s)
  }

  lemma InvStep(s: State, e: Step)
    requires Inv(s) && Enabled(s, e)
    ensures Inv(Apply(s, e))
  {
    var t := Apply(s, e);
    TablesStep(s, e);
    LostStep(s, e);
    SpuriousStep(s, e);
    ClosingStep(s, e);
    forall ctx | ctx in t.contexts ensures Wired(t.edges, ctx) { ContextsStep(s, e, ctx); }
    forall id | id in t.activities ensures ActivityOk(t, t.activities[id]) { ActivitiesStep(s, e, id); }
    forall v | v in t.events ensures EventOk(t, t.events[v]) { EventsStep(s, e, v); }
    forall r | r in t.invocations ensures InvocationOk(t, t.invocations[r]) { InvocationsStep(s, e, r); }
  }

  lemma {:induction false} InvAlways(steps: seq<Step>, states: seq<State>, k: nat)
    requires Execution(steps, states) && k < |states|
    ensures Inv(states[k])
  {
    if k > 0 {
      InvAlways(steps, states, k - 1);
      InvStep(states[k - 1], steps[k - 1]);
    }
  }
}
