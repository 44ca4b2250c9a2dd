/** The per-connection table of live invocations and the operations that use it, as the SDK runs
    them, each tied to the steps of the protocol. */
module PluginCallTable {
  import opened Wrappers
  import opened Contexts
  import opened CallRouting
  import opened CallOrigins

  /** Cancellation state shared by all contexts of the process. */
  class ContextRuntime {
    var done: set<Node>
    var links: set<(Node, Node)>
    var next: Node

    constructor ()
      ensures done == {} && links == {} && next == 0
    {
      done, links, next := {}, {}, 0;
    }

    predicate Err(ctx: Context)
      reads this`done
    {
      ctx.DoneNode() in done
    }

    /** Registers that `to` follows `from`; a follower of a closed node closes at once. */
    method Follow(from: Node, to: Node)
      modifies this`done, this`links
      ensures links == old(links) + {(from, to)}
      ensures done == old(done) + (if from in old(done) then {to} else {})
    {
      links := links + {(from, to)};
      if from in done {
        done := done + {to};
      }
    }

    method WithCancel(parent: Context) returns (child: Context)
      modifies this
      ensures child == Cancellable(parent, old(next)) && next == old(next) + 1
      ensures links == old(links) + {(parent.DoneNode(), old(next))}
      ensures done == old(done) + (if parent.DoneNode() in old(done) then {old(next)} else {})
    {
      child := Cancellable(parent, next);
      Follow(parent.DoneNode(), next);
      next := next + 1;
    }
  }

  datatype BindResult =
    | BindFailed(cancelled: bool)
    | BindOk(call: Context, origin: Context)

  /** What the interceptor or the event resolver decides about one activity. */
  datatype Outcome = Refused | Proceeds(ctx: Context, scope: Option<Scope>)

  /** A derived call context follows both the context it arrived with and its origin. */
  function Followed(raw: Context, origin: Context, call: Node): set<(Node, Node)> {
    {(raw.DoneNode(), call), (origin.DoneNode(), call)}
  }

  /** It closes at once when one of them has closed already. */
  function Closed(done: set<Node>, raw: Context, origin: Context, call: Node): set<Node> {
    if raw.DoneNode() in done || origin.DoneNode() in done then {call} else {}
  }

  /** The single reference a call presents, if it is listed and its origin has not failed. */
  ghost function Alive(live: map<string, Context>, done: set<Node>, refs: seq<string>): (r: Option<string>)
    ensures r.Some? ==> r.value in live && refs == [r.value]
  {
    if |refs| == 1 && refs[0] != "" && refs[0] in live && live[refs[0]].DoneNode() !in done then Some(refs[0])
    else None
  }

  class PluginCallOrigins {
    var live: map<string, Context>
    const runtime: ContextRuntime

    constructor (runtime: ContextRuntime)
      ensures this.runtime == runtime && live == map[]
    {
      this.runtime := runtime;
      live := map[];
    }

    /** `validated` is the host policy's answer and `reference` the new UUID. */
    method Bind(ctx: Context, validated: bool, reference: string) returns (r: BindResult)
      modifies this`live, runtime
      ensures r.BindFailed? <==> old(runtime.Err(ctx)) || !validated
      ensures r.BindFailed? ==> r.cancelled == old(runtime.Err(ctx)) && live == old(live) && unchanged(runtime)
      ensures r.BindOk? ==>
                && r.origin == Cancellable(ctx, old(runtime.next))
                && r.call == BoundCall(ctx, reference)
                && live == old(live)[reference := r.origin]
                && runtime.links == old(runtime.links) + {(ctx.DoneNode(), old(runtime.next))}
                && runtime.done == old(runtime.done) && runtime.next == old(runtime.next) + 1
    {
      if runtime.Err(ctx) {
        return BindFailed(true);
      }
      if !validated {
        return BindFailed(false);
      }
      var origin := runtime.WithCancel(ctx);
      live := live[reference := origin];
      var md := FromOutgoing(ctx);
      md := md[PLUGIN_CALL_METADATA := [reference]];
      r := BindOk(NewOutgoing(ctx, md), origin);
    }

    /** The release closure: take the reference off the table, then cancel its origin. */
    method Release(reference: string, origin: Context)
      modifies this`live, runtime`done
      ensures live == old(live) - {reference}
      ensures runtime.done == old(runtime.done) + {origin.DoneNode()}
    {
      live := live - {reference};
      runtime.done := runtime.done + {origin.DoneNode()};
    }

    method Attach(raw: Context, origin: Context) returns (call: Context)
      modifies runtime
      ensures call == Cancellable(raw, old(runtime.next)) && runtime.next == old(runtime.next) + 1
      ensures runtime.links == old(runtime.links) + Followed(raw, origin, old(runtime.next))
      ensures runtime.done == old(runtime.done) + Closed(old(runtime.done), raw, origin, old(runtime.next))
    {
      call := runtime.WithCancel(raw);
      runtime.Follow(origin.DoneNode(), call.DoneNode());
    }

    /** The interceptor up to the start of the handler, for a method and the table of exempt ones.
        Emitting always proceeds, whatever the table holds, around the presented origin exactly if that
        is alive; every other exempt method proceeds as it came; any other method proceeds exactly
        around a live and identified origin. */
    method Intercept(raw: Context, operation: string, exempt: set<string>) returns (o: Outcome)
      modifies runtime
      ensures var kind, refs := Classify(operation, exempt), PresentedReferences(raw);
              o == old(Decide(live, runtime.done, raw, kind, refs, runtime.next))
      ensures live == old(live)
      ensures operation == "/kandev.plugin.v1.Host/EmitEvent" ==>
                && o.Proceeds?
                && (o.scope.Some? <==> old(Alive(live, runtime.done, PresentedReferences(raw))).Some?)
                && (o.scope.None? ==> o.ctx == MarkUnidentified(raw))
      ensures operation != EMIT_EVENT && operation in exempt ==> o == Proceeds(raw, None)
      ensures operation != EMIT_EVENT && operation !in exempt ==>
                && (o.Proceeds? ==> o.scope.Some?)
                && (o.Proceeds? <==>
                      var alive := old(Alive(live, runtime.done, PresentedReferences(raw)));
                      alive.Some? && !live[alive.value].Unidentified())
      ensures o.Proceeds? && o.scope.Some? ==>
                var scope := o.scope.value;
                && old(Alive(live, runtime.done, PresentedReferences(raw))) == Some(scope.reference)
                && scope.origin == live[scope.reference] && scope.call == old(runtime.next)
                && o.ctx == Restored(raw, scope.call, scope.origin, scope.reference)
      ensures !(o.Proceeds? && o.scope.Some?) ==> unchanged(runtime)
      ensures o.Proceeds? && o.scope.Some? ==>
                && runtime.next == old(runtime.next) + 1
                && runtime.links == old(runtime.links) + Followed(raw, o.scope.value.origin, old(runtime.next))
                && runtime.done == old(runtime.done + Closed(runtime.done, raw, raw, runtime.next))
    {
      var kind := Classify(operation, exempt);
      if kind == Exempt {
        return Proceeds(raw, None);
      }
      var refs := PresentedReferences(raw);
      if |refs| != 1 || refs[0] == "" {
        if kind == Emitting {
          return Proceeds(MarkUnidentified(raw), None);
        }
        return Refused;
      }
      if refs[0] !in live || runtime.Err(live[refs[0]]) {
        if kind == Emitting {
          return Proceeds(MarkUnidentified(raw), None);
        }
        return Refused;
      }
      var origin := live[refs[0]];
      if kind != Emitting && origin.Unidentified() {
        return Refused;
      }
      var call := Attach(raw, origin);
      o := Proceeds(WithValue(Caller(call, origin), HostCallReferenceKey, Text(refs[0])),
                    Some(Scope(refs[0], origin, call.DoneNode())));
    }

    /** Resolution of a plugin-emitted event before it is delivered. */
    method EventOriginContext(ctx: Context, reference: string, event: EventId) returns (o: Outcome)
      modifies runtime
      ensures o == old(Decide(live, runtime.done, ctx, Delivering(event), [reference], runtime.next))
      ensures live == old(live)
      ensures o.Proceeds? && (o.scope.None? ==> unchanged(runtime) && o.ctx == MarkUnidentified(ctx))
      ensures o.scope.Some? <==> reference in live && live[reference].DoneNode() !in old(runtime.done)
      ensures o.scope.Some? ==>
                var scope := o.scope.value;
                && scope == Scope(reference, live[reference], old(runtime.next))
                && o.ctx == Caller(Cancellable(ctx, scope.call), scope.origin)
      ensures o.scope.Some? ==>
                && runtime.next == old(runtime.next) + 1
                && runtime.links == old(runtime.links) + Followed(ctx, o.scope.value.origin, old(runtime.next))
                && runtime.done == old(runtime.done + Closed(runtime.done, ctx, ctx, runtime.next))
    {
      if reference !in live || runtime.Err(live[reference]) {
        return Proceeds(MarkUnidentified(ctx), None);
      }
      var call := Attach(ctx, live[reference]);
      o := Proceeds(Caller(call, live[reference]), Some(Scope(reference, live[reference], call.DoneNode())));
    }

    /** The end of a callback cancels its context and then stops following the origin; the end of a
        delivery does so the other way round. */
    method Finish(scope: Scope, delivered: bool)
      modifies runtime`done, runtime`links
      ensures runtime.done == old(runtime.done) + {scope.call}
      ensures runtime.links == old(runtime.links) - {(scope.origin.DoneNode(), scope.call)}
    {
      if delivered {
        runtime.links := runtime.links - {(scope.origin.DoneNode(), scope.call)};
        runtime.done := runtime.done + {scope.call};
      } else {
        runtime.done := runtime.done + {scope.call};
        runtime.links := runtime.links - {(scope.origin.DoneNode(), scope.call)};
      }
    }
  }

  // ----- The protocol's own account of an undisturbed activity

  /** The phase one activity reaches when its steps run without interleaving. */
  ghost function Undisturbed(s: State, id: ActivityId, conn: Conn, raw: Context, kind: Kind, node: Node): Phase
    requires Enabled(s, Arrive(id, conn, raw, kind))
  {
    var s1 := Apply(s, Arrive(id, conn, raw, kind));
    if s1.activities[id].phase.Pending? then Resolved(s1, id, node) else s1.activities[id].phase
  }

  ghost function TableOf(live: map<(Conn, string), Context>, conn: Conn): map<string, Context> {
    map k | k in live && k.0 == conn :: k.1 := live[k]
  }

  /** The decision as a condition on the table: who proceeds, with which origin, and who is refused. */
  ghost function Decide(
    live: map<string, Context>, done: set<Node>, raw: Context, kind: Kind, refs: seq<string>, node: Node): Outcome
  {
    var usable := |refs| == 1 && (kind.Delivering? || refs[0] != "") && refs[0] in live
                  && live[refs[0]].DoneNode() !in done
                  && (kind == NeedsCaller ==> !live[refs[0]].Unidentified());
    if kind == Exempt then Proceeds(raw, None)
    else if usable then
      var scope := Scope(refs[0], live[refs[0]], node);
      Proceeds(if kind.Delivering? then Caller(Cancellable(raw, node), scope.origin)
               else Restored(raw, node, scope.origin, refs[0]), Some(scope))
    else if kind == NeedsCaller then Refused
    else Proceeds(MarkUnidentified(raw), None)
  }

  lemma Arrives(s: State, id: ActivityId, conn: Conn, raw: Context, kind: Kind, refs: seq<string>)
    requires Enabled(s, Arrive(id, conn, raw, kind))
    requires refs == if kind.Delivering? then [s.events[kind.event].reference] else PresentedReferences(raw)
    ensures var t := Apply(s, Arrive(id, conn, raw, kind));
            && t.activities[id] == Activity(conn, raw, kind, refs, Arrival(kind, raw, refs))
            && t.live == s.live && t.done == s.done
  {}

  lemma IsJudged(s: State, id: ActivityId)
    requires id in s.activities && s.activities[id].phase.Pending? && |s.activities[id].refs| == 1
    ensures var a := s.activities[id];
            var key := (a.conn, a.refs[0]);
            var verdict := Verdict(s, a, if key in s.live then Some(s.live[key]) else None);
            Apply(Apply(s, Lookup(id)), Check(id)).activities[id] == a.(phase := verdict)
  {}

  lemma Starts(s: State, id: ActivityId, node: Node)
    requires id in s.activities && s.activities[id].phase.Admitted? && |s.activities[id].refs| == 1
    ensures var a := s.activities[id];
            var scope := Scope(a.refs[0], a.phase.origin, node);
            Apply(Apply(s, Attach(id, node)), Register(id)).activities[id].phase ==
              Running(ScopedContext(a, scope), Some(scope))
  {}

  /** The phase an undisturbed activity reaches, without the states in between. */
  ghost function PhaseReached(s: State, a: Activity, node: Node): Phase
    requires a.phase.Pending? ==> |a.refs| == 1
  {
    if !a.phase.Pending? then a.phase
    else
      var key := (a.conn, a.refs[0]);
      var verdict := Verdict(s, a, if key in s.live then Some(s.live[key]) else None);
      if !verdict.Admitted? then verdict
      else
        var scope := Scope(a.refs[0], verdict.origin, node);
        Running(ScopedContext(a, scope), Some(scope))
  }

  lemma UndisturbedReaches(
    s: State, id: ActivityId, conn: Conn, raw: Context, kind: Kind, refs: seq<string>, node: Node)
    requires Enabled(s, Arrive(id, conn, raw, kind))
    requires refs == if kind.Delivering? then [s.events[kind.event].reference] else PresentedReferences(raw)
    ensures Undisturbed(s, id, conn, raw, kind, node)
         == PhaseReached(s, Activity(conn, raw, kind, refs, Arrival(kind, raw, refs)), node)
  {
    Arrives(s, id, conn, raw, kind, refs);
    var s1 := Apply(s, Arrive(id, conn, raw, kind));
    if s1.activities[id].phase.Pending? {
      PendingReaches(s1, id, node);
    }
  }

  /** The steps of a pending activity, taken together. */
  ghost function Resolved(s: State, id: ActivityId, node: Node): Phase
    requires id in s.activities && s.activities[id].phase.Pending?
  {
    var t := Apply(Apply(s, Lookup(id)), Check(id));
    if !t.activities[id].phase.Admitted? then t.activities[id].phase
    else Apply(Apply(t, Attach(id, node)), Register(id)).activities[id].phase
  }

  lemma PendingReaches(s: State, id: ActivityId, node: Node)
    requires id in s.activities && s.activities[id].phase.Pending? && |s.activities[id].refs| == 1
    ensures Resolved(s, id, node) == PhaseReached(s, s.activities[id], node)
  {
    IsJudged(s, id);
    var t := Apply(Apply(s, Lookup(id)), Check(id));
    if t.activities[id].phase.Admitted? {
      Starts(t, id, node);
    }
  }

  lemma ReachedIsDecided(s: State, conn: Conn, raw: Context, kind: Kind, refs: seq<string>, node: Node)
    requires kind.Delivering? ==> |refs| == 1
    ensures PhaseReached(s, Activity(conn, raw, kind, refs, Arrival(kind, raw, refs)), node) ==
            match Decide(TableOf(s.live, conn), s.done, raw, kind, refs, node)
            case Refused => Denied
            case Proceeds(ctx, scope) => Running(ctx, scope)
  {
    if |refs| == 1 {
      TableLookup(s.live, conn, refs[0]);
    }
  }

  /** The table's sequential code and the interleaved protocol decide alike when nothing intervenes. */
  lemma UndisturbedDecides(s: State, id: ActivityId, conn: Conn, raw: Context, kind: Kind, node: Node)
    requires Enabled(s, Arrive(id, conn, raw, kind))
    ensures var refs := if kind.Delivering? then [s.events[kind.event].reference] else PresentedReferences(raw);
            Undisturbed(s, id, conn, raw, kind, node) ==
            match Decide(TableOf(s.live, conn), s.done, raw, kind, refs, node)
            case Refused => Denied
            case Proceeds(ctx, scope) => Running(ctx, scope)
  {
    var refs := if kind.Delivering? then [s.events[kind.event].reference] else PresentedReferences(raw);
    UndisturbedReaches(s, id, conn, raw, kind, refs, node);
    ReachedIsDecided(s, conn, raw, kind, refs, node);
  }

  lemma TableLookup(live: map<(Conn, string), Context>, conn: Conn, r: string)
    ensures r in TableOf(live, conn) <==> (conn, r) in live
    ensures (conn, r) in live ==> TableOf(live, conn)[r] == live[(conn, r)]
  {
    if (conn, r) in live {
      assert (conn, r).1 in TableOf(live, conn);
    }
  }

  lemma TableGains(live: map<(Conn, string), Context>, c: Conn, r: string, origin: Context, d: Conn)
    ensures TableOf(live[(c, r) := origin], d) == if c == d then TableOf(live, d)[r := origin] else TableOf(live, d)
  {
    var after := live[(c, r) := origin];
    forall x
      ensures x in TableOf(live, d) <==> (d, x) in live
      ensures x in TableOf(after, d) <==> (d, x) in after
    {
      TableLookup(live, d, x);
      TableLookup(after, d, x);
    }
  }

  lemma TableLoses(live: map<(Conn, string), Context>, c: Conn, r: string, d: Conn)
    ensures TableOf(live - {(c, r)}, d) == if c == d then TableOf(live, d) - {r} else TableOf(live, d)
  {
    var after := live - {(c, r)};
    forall x
      ensures x in TableOf(live, d) <==> (d, x) in live
      ensures x in TableOf(after, d) <==> (d, x) in after
    {
      TableLookup(live, d, x);
      TableLookup(after, d, x);
    }
  }

  /** Binding and unlisting change one connection's table, as `Bind` and `Release` change theirs; no
      other step changes any table. */
  lemma StepsUpdateOneTable(s: State, e: Step, c: Conn)
    requires Enabled(s, e)
    ensures TableOf(Apply(s, e).live, c) ==
            if e.Bind? && e.conn == c then TableOf(s.live, c)[e.reference := Cancellable(e.parent, e.node)]
            else if e.Unlist? && s.invocations[e.reference].conn == c then TableOf(s.live, c) - {e.reference}
            else TableOf(s.live, c)
  {
    if e.Bind? {
      TableGains(s.live, e.conn, e.reference, Cancellable(e.parent, e.node), c);
    } else if e.Unlist? {
      TableLoses(s.live, s.invocations[e.reference].conn, e.reference, c);
    } else {
      assert Apply(s, e).live == s.live;
    }
  }

  // ----- What can always happen

  /** A bound invocation can be released, once: its reference leaves the table before its origin is
      cancelled, which together is what `Release` does. */
  lemma ReleaseTakesTwoSteps(s: State, r: string)
    requires r in s.invocations && s.invocations[r].lifetime == Bound
    ensures Enabled(s, Unlist(r)) && Enabled(Apply(s, Unlist(r)), CancelOrigin(r))
    ensures var call, t := s.invocations[r], Apply(s, Unlist(r));
            var u := Apply(t, CancelOrigin(r));
            && t.live == s.live - {(call.conn, r)} && t.done == s.done
            && u.live == t.live && u.done == s.done + {call.origin.DoneNode()} && u.links == s.links
            && !Enabled(u, Unlist(r)) && !Enabled(u, CancelOrigin(r))
  {}

  /** A running activity can end, once. A callback cancels its context before it stops following its
      origin and a delivery does so after; together that is what `Finish` does. */
  lemma FinishTakesTwoSteps(s: State, id: ActivityId)
    requires id in s.activities && s.activities[id].phase.Running?
    ensures Enabled(s, CloseFirst(id))
    ensures var a, t := s.activities[id], Apply(s, CloseFirst(id));
            match a.phase.running
            case None => t.activities[id].phase == Ended && t.done == s.done && t.links == s.links
            case Some(scope) =>
              && Enabled(t, CloseSecond(id)) && !Enabled(t, CloseFirst(id))
              && var u, link := Apply(t, CloseSecond(id)), (scope.origin.DoneNode(), scope.call);
                 && (if a.kind.Delivering? then t.done == s.done && t.links == s.links - {link}
                     else t.done == s.done + {scope.call} && t.links == s.links)
                 && u.done == s.done + {scope.call} && u.links == s.links - {link}
                 && u.activities[id] == a.(phase := Ended)
  {}

  /** A running emission can publish any number of events, and each can be delivered at any later time
      and any number of times, under the reference its emitter ran with. */
  lemma EventsCanBeDelivered(
    s: State, id: ActivityId, event: EventId, t: State, d: ActivityId, conn: Conn, raw: Context)
    requires id in s.activities && s.activities[id].phase.Running? && s.activities[id].kind == Emitting
    requires event !in s.events
    requires t.events == Apply(s, Publish(id, event)).events && d !in t.activities && PublicRoot(raw)
    ensures Enabled(s, Publish(id, event)) && Enabled(t, Arrive(d, conn, raw, Delivering(event)))
    ensures Apply(t, Arrive(d, conn, raw, Delivering(event))).activities[d] ==
            Activity(conn, raw, Delivering(event), [HostCallReference(s.activities[id].phase.ctx)], Pending)
  {}

  /** A callback of any class can arrive at any time on any connection, with whatever metadata, and a host
      context can be made or derived with whatever public values. */
  lemma CallbacksAreFree(
    s: State, id: ActivityId, conn: Conn, raw: Context, kind: Kind, parent: Context, node: Node, key: Key, v: Value)
    requires id !in s.activities && !kind.Delivering? && raw.Root? && forall k | k in raw.values :: k.Public()
    requires parent in s.contexts && key.Public()
    ensures Enabled(s, Arrive(id, conn, raw, kind)) && Enabled(s, NewRoot(raw))
    ensures Apply(s, Arrive(id, conn, raw, kind)).activities[id].refs == PresentedReferences(raw)
    ensures Enabled(s, Derive(parent, Cancellable(parent, node)))
    ensures Enabled(s, Derive(parent, WithValue(parent, key, v)))
    ensures parent.DoneNode() in s.done ==>
              Enabled(Apply(s, Derive(parent, Cancellable(parent, node))), Propagate(parent.DoneNode(), node))
  {}

  /** Any node can be cancelled at any time, and a fresh reference can be bound on any known context. */
  lemma HostIsFree(s: State, n: Node, reference: string, conn: Conn, parent: Context, node: Node)
    requires parent in s.contexts && reference != "" && reference !in s.invocations
    ensures Enabled(s, CancelNode(n))
    ensures Apply(s, CancelNode(n)) == s.(done := s.done + {n}, cancelled := s.cancelled + {n})
    ensures Enabled(s, Bind(reference, conn, parent, node, None))
    ensures var t := Apply(s, Bind(reference, conn, parent, node, None));
            && t.live == s.live[(conn, reference) := Cancellable(parent, node)] && t.done == s.done
            && t.links == s.links + {(parent.DoneNode(), node)}
            && t.contexts == s.contexts + {Cancellable(parent, node)}
  {}
}
