/** The call-origin protocol as a step system: every interleaving of invocations, callbacks,
    event deliveries, releases and cancellations over the live tables of all plugin connections. */
module CallOrigins {
  import opened Wrappers
  import opened Contexts
  import opened CallRouting

  type Conn = nat
  type ActivityId = nat
  type EventId = nat

  /** What resolves a reference: a callback of one of three classes, or an event delivery. */
  datatype Kind = Exempt | NeedsCaller | Emitting | Delivering(event: EventId)

  const EMIT_EVENT := "/kandev.plugin.v1.Host/EmitEvent"

  /** A method outside the exempt table needs a caller; emitting an event is its own class. */
  function Classify(operation: string, exempt: set<string>): Kind {
    if operation == EMIT_EVENT then Emitting
    else if operation in exempt then Exempt
    else NeedsCaller
  }

  /** The origin an activity resolved to and the cancel node of the context derived for it. */
  datatype Scope = Scope(reference: string, origin: Context, call: Node)

  datatype Phase =
    | Pending                                     // before the table lookup
    | Found(found: Option<Context>)               // after the lookup, before the checks
    | Admitted(origin: Context)                   // checks passed
    | Attached(scope: Scope)                      // cancel node made, AfterFunc not yet registered
    | Running(ctx: Context, running: Option<Scope>)
    | Closing(scope: Scope)                       // between the two calls that end it
    | Ended
    | Denied

  datatype Activity = Activity(conn: Conn, raw: Context, kind: Kind, refs: seq<string>, phase: Phase)

  datatype Lifetime = Bound | Unlisted | Released

  datatype Invocation = Invocation(
    conn: Conn, origin: Context, delivering: Option<EventId>, lifetime: Lifetime)

  /** A published event: the reference in its envelope, the references its emitter presented, and
      whether the emitter's reference resolved. */
  datatype Event = Event(reference: string, presented: seq<string>, resolved: bool)

  /** `done` are the closed nodes and `links` the registered propagations. `cancelled` (explicit
      cancel calls) and `edges` (every propagation ever registered) are history. */
  datatype State = State(
    live: map<(Conn, string), Context>,
    invocations: map<string, Invocation>,
    activities: map<ActivityId, Activity>,
    events: map<EventId, Event>,
    contexts: set<Context>,
    done: set<Node>,
    links: set<(Node, Node)>,
    cancelled: set<Node>,
    edges: set<(Node, Node)>)
  {
    predicate Err(ctx: Context) {
      ctx.DoneNode() in done
    }

    function Cancel(n: Node): State {
      this.(done := done + {n}, cancelled := cancelled + {n})
    }

    function Link(from: Node, to: Node): State {
      this.(links := links + {(from, to)}, edges := edges + {(from, to)})
    }

    function Unlink(from: Node, to: Node): State {
      this.(links := links - {(from, to)})
    }

    /** Moves an activity on; the context it runs in becomes available to host code. */
    function SetPhase(id: ActivityId, phase: Phase): State
      requires id in activities
    {
      this.(activities := activities[id := activities[id].(phase := phase)],
            contexts := contexts + (if phase.Running? then {phase.ctx} else {}))
    }
  }

  const Init := State(map[], map[], map[], map[], {}, {}, {}, {}, {})

  datatype Step =
    // host code and its environment
    | NewRoot(root: Context)
    | Derive(parent: Context, child: Context)
    | CancelNode(node: Node)
    | Propagate(from: Node, to: Node)
    // one host-to-plugin invocation
    | Bind(reference: string, conn: Conn, parent: Context, node: Node, delivery: Option<ActivityId>)
    | Unlist(reference: string)
    | CancelOrigin(reference: string)
    // one callback or delivery
    | Arrive(id: ActivityId, conn: Conn, raw: Context, kind: Kind)
    | Lookup(id: ActivityId)
    | Check(id: ActivityId)
    | Attach(id: ActivityId, node: Node)
    | Register(id: ActivityId)
    | CloseFirst(id: ActivityId)
    | CloseSecond(id: ActivityId)
    | Publish(id: ActivityId, event: EventId)

  predicate PublicRoot(ctx: Context) {
    ctx.Root? && forall k | k in ctx.values :: k.Public()
  }

  predicate DerivedByHost(parent: Context, child: Context) {
    match child
    case Cancellable(p, _) => p == parent
    case WithValue(p, k, _) => p == parent && k.Public()
    case _ => false
  }

  /** A fresh UUID is never reused, and node identities need not even be fresh: any node may be
      cancelled at any time by its owner. */
  predicate Enabled(s: State, e: Step) {
    match e
    case NewRoot(root) => PublicRoot(root)
    case Derive(parent, child) => parent in s.contexts && DerivedByHost(parent, child)
    case CancelNode(_) => true
    case Propagate(from, to) => (from, to) in s.links && from in s.done
    case Bind(r, _, parent, _, delivery) =>
      && r != "" && r !in s.invocations && parent in s.contexts
      && (delivery.Some? ==>
            && delivery.value in s.activities
            && s.activities[delivery.value].kind.Delivering?
            && s.activities[delivery.value].phase.Running?
            && Extends(parent, s.activities[delivery.value].phase.ctx, UnidentifiedKey))
    case Unlist(r) => r in s.invocations && s.invocations[r].lifetime == Bound
    case CancelOrigin(r) => r in s.invocations && s.invocations[r].lifetime == Unlisted
    case Arrive(id, _, raw, kind) =>
      && id !in s.activities && PublicRoot(raw)
      && (kind.Delivering? ==> kind.event in s.events)
    case Lookup(id) => id in s.activities && s.activities[id].phase.Pending?
    case Check(id) => id in s.activities && s.activities[id].phase.Found?
    case Attach(id, _) => id in s.activities && s.activities[id].phase.Admitted?
    case Register(id) => id in s.activities && s.activities[id].phase.Attached?
    case CloseFirst(id) => id in s.activities && s.activities[id].phase.Running?
    case CloseSecond(id) => id in s.activities && s.activities[id].phase.Closing?
    case Publish(id, event) =>
      && id in s.activities && s.activities[id].phase.Running? && s.activities[id].kind == Emitting
          && event !in s.events
  }

  /** An activity that cannot be resolved: callbacks that need a caller are refused, emissions and
      deliveries go on without an identity. */
  function Unresolved(kind: Kind, raw: Context): Phase {
    if kind == NeedsCaller then Denied else Running(MarkUnidentified(raw), None)
  }

  function Arrival(kind: Kind, raw: Context, refs: seq<string>): Phase {
    if kind == Exempt then Running(raw, None)
    else if !kind.Delivering? && (|refs| != 1 || refs[0] == "") then Unresolved(kind, raw)
    else Pending
  }

  function ApplyArrive(s: State, id: ActivityId, conn: Conn, raw: Context, kind: Kind): State
    requires Enabled(s, Arrive(id, conn, raw, kind))
  {
    var refs := if kind.Delivering? then [s.events[kind.event].reference] else PresentedReferences(raw);
    var a := Activity(conn, raw, kind, refs, Pending);
    s.(activities := s.activities[id := a], contexts := s.contexts + {raw})
    .SetPhase(id, Arrival(kind, raw, refs))
  }

  function Verdict(s: State, a: Activity, origin: Option<Context>): Phase {
    if origin.None? || s.Err(origin.value) then Unresolved(a.kind, a.raw)
    else if a.kind == NeedsCaller && origin.value.Unidentified() then Denied
    else Admitted(origin.value)
  }

  /** The context an activity runs in once its origin is attached: deliveries do not install a
      host-call reference. */
  function ScopedContext(a: Activity, scope: Scope): Context {
    if a.kind.Delivering? then Caller(Cancellable(a.raw, scope.call), scope.origin)
    else Restored(a.raw, scope.call, scope.origin, scope.reference)
  }

  /** Callbacks cancel, then stop the AfterFunc; deliveries stop it, then cancel. */
  function ApplyCloseFirst(s: State, id: ActivityId): State
    requires Enabled(s, CloseFirst(id))
  {
    var a := s.activities[id];
    match a.phase.running
    case None => s.SetPhase(id, Ended)
    case Some(scope) =>
      (if a.kind.Delivering? then s.Unlink(scope.origin.DoneNode(), scope.call) else s.Cancel(scope.call))
      .SetPhase(id, Closing(scope))
  }

  function ApplyCloseSecond(s: State, id: ActivityId): State
    requires Enabled(s, CloseSecond(id))
  {
    var a := s.activities[id];
    var scope := a.phase.scope;
    (if a.kind.Delivering? then s.Cancel(scope.call) else s.Unlink(scope.origin.DoneNode(), scope.call))
    .SetPhase(id, Ended)
  }

  function ApplyBind(s: State, e: Step): State
    requires e.Bind? && Enabled(s, e)
  {
    var origin := Cancellable(e.parent, e.node);
    var delivering := if e.delivery.Some? then Some(s.activities[e.delivery.value].kind.event) else None;
    s.Link(e.parent.DoneNode(), e.node).(
      live := s.live[(e.conn, e.reference) := origin],
      invocations := s.invocations[e.reference := Invocation(e.conn, origin, delivering, Bound)],
      contexts := s.contexts + {origin})
  }

  function Apply(s: State, e: Step): State
    requires Enabled(s, e)
  {
    match e
    case NewRoot(root) => s.(contexts := s.contexts + {root})
    case Derive(parent, child) =>
      (if child.Cancellable? then s.Link(parent.DoneNode(), child.node) else s)
      .(contexts := s.contexts + {child})
    case CancelNode(n) => s.Cancel(n)
    case Propagate(_, to) => s.(done := s.done + {to})
    case Bind(_, _, _, _, _) => ApplyBind(s, e)
    case Unlist(r) =>
      s.(live := s.live - {(s.invocations[r].conn, r)},
         invocations := s.invocations[r := s.invocations[r].(lifetime := Unlisted)])
    case CancelOrigin(r) =>
      s.Cancel(s.invocations[r].origin.DoneNode())
      .(invocations := s.invocations[r := s.invocations[r].(lifetime := Released)])
    case Arrive(id, conn, raw, kind) => ApplyArrive(s, id, conn, raw, kind)
    case Lookup(id) =>
      var a := s.activities[id];
      var key := (a.conn, if |a.refs| == 1 then a.refs[0] else "");
      s.SetPhase(id, Found(if key in s.live then Some(s.live[key]) else None))
    case Check(id) => s.SetPhase(id, Verdict(s, s.activities[id], s.activities[id].phase.found))
    case Attach(id, node) =>
      var a := s.activities[id];
      s.Link(a.raw.DoneNode(), node)
      .SetPhase(id, Attached(Scope(if |a.refs| == 1 then a.refs[0] else "", a.phase.origin, node)))
    case Register(id) =>
      var a := s.activities[id];
      s.Link(a.phase.scope.origin.DoneNode(), a.phase.scope.call)
      .SetPhase(id, Running(ScopedContext(a, a.phase.scope), Some(a.phase.scope)))
    case CloseFirst(id) => ApplyCloseFirst(s, id)
    case CloseSecond(id) => ApplyCloseSecond(s, id)
    case Publish(id, event) =>
      var a := s.activities[id];
      s.(events := s.events[event := Event(HostCallReference(a.phase.ctx), a.refs, a.phase.running.Some?)])
  }

  // ----- Executions

  /** `states` is the run that takes `steps` one after another from the empty host. */
  ghost predicate Execution(steps: seq<Step>, states: seq<State>) {
    && |states| == |steps| + 1
    && states[0] == Init
    && forall i | 0 <= i < |steps| ::
         Enabled(states[i], steps[i]) && states[i + 1] == Apply(states[i], steps[i])
  }

  /** No registered propagation is still due, and no delivery is halfway through its release. */
  ghost predicate Quiescent(s: State) {
    && (forall l | l in s.links && l.0 in s.done :: l.1 in s.done)
    && (forall id | id in s.activities :: !(s.activities[id].kind.Delivering? && s.activities[id].phase.Closing?))
  }
}
