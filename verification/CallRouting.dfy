/** How a call reference travels: minted by the host, carried privately by the plugin SDK,
    presented by each callback, and used to restore the invocation's context. */
module CallRouting {
  import opened Wrappers
  import opened Contexts

  // ----- The context transformers

  /** The outgoing call context of a host-to-plugin invocation bound to `reference`. */
  function BoundCall(ctx: Context, reference: string): Context {
    NewOutgoing(ctx, FromOutgoing(ctx)[PLUGIN_CALL_METADATA := [reference]])
  }

  /** Entry point of every plugin RPC handler. */
  function WithPluginCallReference(ctx: Context): Context {
    match FromIncoming(ctx)
    case None => ctx
    case Some(incoming) =>
      var refs := Get(incoming, PLUGIN_CALL_METADATA);
      if |refs| != 1 || refs[0] == "" then ctx
      else WithValue(NewIncoming(ctx, incoming - {PLUGIN_CALL_METADATA}), HandlerReferenceKey, Text(refs[0]))
  }

  function PrivateReference(ctx: Context): Option<string> {
    match ctx.Lookup(HandlerReferenceKey)
    case Some(Text(r)) => if r == "" then None else Some(r)
    case _ => None
  }

  /** The outgoing context of a plugin-to-host callback. */
  function HostCall(ctx: Context): Context {
    var clean := FromOutgoing(ctx) - {PLUGIN_CALL_METADATA};
    match PrivateReference(ctx)
    case Some(r) => NewOutgoing(ctx, clean[PLUGIN_CALL_METADATA := [r]])
    case None => NewOutgoing(ctx, clean)
  }

  /** The references an arriving callback presents to the host interceptor. */
  function PresentedReferences(raw: Context): seq<string> {
    match FromIncoming(raw)
    case Some(md) => Get(md, PLUGIN_CALL_METADATA)
    case None => []
  }

  function MarkUnidentified(ctx: Context): Context {
    WithValue(ctx, UnidentifiedKey, Flag)
  }

  /** The context an admitted callback's handler runs in. */
  function Restored(raw: Context, call: Node, origin: Context, reference: string): Context {
    WithValue(Caller(Cancellable(raw, call), origin), HostCallReferenceKey, Text(reference))
  }

  function HostCallReference(ctx: Context): string {
    match ctx.Lookup(HostCallReferenceKey)
    case Some(Text(r)) => r
    case _ => ""
  }

  /** The transport delivers the call-reference entry unchanged; it may add other entries. */
  ghost predicate Transports(sent: Context, received: Context) {
    && received.Root?
    && HandlerReferenceKey !in received.values
    && FromIncoming(received).Some?
    && Get(FromIncoming(received).value, PLUGIN_CALL_METADATA) == Get(FromOutgoing(sent), PLUGIN_CALL_METADATA)
  }

  // ----- Routing

  /** Only the private reference reaches the host, whatever the plugin put in its metadata. */
  lemma OnlyPrivateReferenceReachesHost(ctx: Context, raw: Context)
    requires Transports(HostCall(ctx), raw)
    ensures PresentedReferences(raw) ==
            match PrivateReference(ctx) case Some(r) => [r] case None => []
  {
    assert FromOutgoing(HostCall(ctx)) == HostCall(ctx).val.base;
  }

  /** End to end: host invocation, plugin handler, any plugin-derived context, host callback. */
  lemma CallbackPresentsItsInvocation(
    hostCtx: Context, reference: string, server: Context, derived: Context, raw: Context)
    requires reference != ""
    requires Transports(BoundCall(hostCtx, reference), server)
    requires Extends(derived, WithPluginCallReference(server), HandlerReferenceKey)
    requires Transports(HostCall(derived), raw)
    ensures PresentedReferences(raw) == [reference]
    ensures PresentedReferences(WithPluginCallReference(server)) == []
  {
    assert FromOutgoing(BoundCall(hostCtx, reference)) == BoundCall(hostCtx, reference).val.base;
    var handler := WithPluginCallReference(server);
    assert handler.Lookup(HandlerReferenceKey) == Some(Text(reference));
    assert handler.Lookup(IncomingKey) == handler.parent.Lookup(IncomingKey);
    ExtendsKeepsValue(derived, handler, HandlerReferenceKey);
    OnlyPrivateReferenceReachesHost(derived, raw);
  }

  /** The values a context carries under an outgoing key: those set first, then those appended. */
  ghost function Carried(ctx: Context, k: string): seq<string> {
    match ctx.Lookup(OutgoingKey)
    case Some(Outgoing(base, added)) => Get(base, k) + Appended(added, k)
    case _ => []
  }

  lemma CarriedIsSent(ctx: Context, k: string)
    ensures Get(FromOutgoing(ctx), k) == Carried(ctx, k)
  {
    match ctx.Lookup(OutgoingKey)
    case Some(Outgoing(base, added)) => MergeKeepsAll(base, added, k);
    case _ =>
  }

  /** Binding a call and calling back keep every other entry of the caller's metadata, and every other
      value of its context. */
  lemma CallsKeepTheRest(ctx: Context, reference: string, k: string, key: Key)
    requires k != "x-kandev-plugin-call" && key != OutgoingKey
    ensures Get(FromOutgoing(BoundCall(ctx, reference)), k) == Carried(ctx, k)
    ensures Get(FromOutgoing(BoundCall(ctx, reference)), "x-kandev-plugin-call") == [reference]
    ensures Get(FromOutgoing(HostCall(ctx)), k) == Carried(ctx, k)
    ensures BoundCall(ctx, reference).Lookup(key) == ctx.Lookup(key) == HostCall(ctx).Lookup(key)
  {
    CarriedIsSent(ctx, k);
    assert FromOutgoing(BoundCall(ctx, reference)) == BoundCall(ctx, reference).val.base;
    assert FromOutgoing(HostCall(ctx)) == HostCall(ctx).val.base;
  }

  /** A handler sees its invocation's metadata without the reference; a call without exactly one
      nonempty reference is left as it is. */
  lemma HandlersKeepTheRest(ctx: Context, k: string, key: Key)
    requires k != "x-kandev-plugin-call" && key != IncomingKey && key != HandlerReferenceKey
    ensures var handler := WithPluginCallReference(ctx);
            && FromIncoming(handler).Some? == FromIncoming(ctx).Some?
            && (FromIncoming(ctx).Some? ==>
                  Get(FromIncoming(handler).value, k) == Get(FromIncoming(ctx).value, k))
            && handler.Lookup(key) == ctx.Lookup(key)
            && (handler == ctx <==> |PresentedReferences(ctx)| != 1 || PresentedReferences(ctx)[0] == "")
  {
    var handler := WithPluginCallReference(ctx);
    if handler != ctx {
      assert handler.Lookup(IncomingKey) == handler.parent.Lookup(IncomingKey);
    } else {
      NotItsOwnParent(ctx);
    }
  }

  ghost function Size(ctx: Context): nat {
    match ctx
    case Root(_, _) => 0
    case Cancellable(p, _) => Size(p) + 1
    case WithValue(p, _, _) => Size(p) + 1
    case Caller(call, origin) => Size(call) + Size(origin) + 1
  }

  lemma NotItsOwnParent(ctx: Context)
    ensures forall md, v :: WithValue(NewIncoming(ctx, md), HandlerReferenceKey, v) != ctx
  {
    forall md, v ensures WithValue(NewIncoming(ctx, md), HandlerReferenceKey, v) != ctx {
      assert Size(WithValue(NewIncoming(ctx, md), HandlerReferenceKey, v)) == Size(ctx) + 2;
    }
  }

  /** In a restored context a key has the origin's value, and where the origin has none the arriving
      call's; only the host-call reference is its own. */
  lemma RestoredValues(raw: Context, call: Node, origin: Context, reference: string, key: Key)
    ensures HostCallReference(Restored(raw, call, origin, reference)) == reference
    ensures key != HostCallReferenceKey && origin.Lookup(key).Some? ==>
              Restored(raw, call, origin, reference).Lookup(key) == origin.Lookup(key)
    ensures key != HostCallReferenceKey && origin.Lookup(key).None? ==>
              Restored(raw, call, origin, reference).Lookup(key) == raw.Lookup(key)
  {
    var caller := Caller(Cancellable(raw, call), origin);
    assert caller.Lookup(key) ==
           if origin.Lookup(key).Some? then origin.Lookup(key) else Cancellable(raw, call).Lookup(key);
  }

  /** Marking a context changes nothing but the mark. */
  lemma MarkedValues(ctx: Context, key: Key)
    ensures MarkUnidentified(ctx).Unidentified() && MarkUnidentified(ctx).DoneNode() == ctx.DoneNode()
    ensures key != UnidentifiedKey ==> MarkUnidentified(ctx).Lookup(key) == ctx.Lookup(key)
  {}

  // ----- Identity under nesting

  /** One level of host -> plugin -> host: host code derives `host` from the context it was given,
      binds it under `reference` with cancel node `bound`, and the callback arrives on `raw`. */
  datatype Level = Level(host: Context, bound: Node, reference: string, raw: Context, call: Node)

  /** The handler context after `levels` nested round trips that start from `root`. */
  function Nested(root: Context, levels: seq<Level>): Context {
    if levels == [] then root
    else
      var l := levels[|levels| - 1];
      Restored(l.raw, l.call, Cancellable(l.host, l.bound), l.reference)
  }

  ghost predicate Nests(root: Context, levels: seq<Level>, key: Key) {
    forall i | 0 <= i < |levels| :: Extends(levels[i].host, Nested(root, levels[..i]), key)
  }

  /** At any depth a root value that host code does not rebind is still the root's, whatever the
      callbacks' own server contexts hold, and the host-call reference is the innermost one. */
  lemma {:induction false} IdentityUnderNesting(root: Context, levels: seq<Level>, key: Key)
    requires Nests(root, levels, key)
    requires root.Lookup(key).Some?
    requires key != HostCallReferenceKey
    ensures Nested(root, levels).Lookup(key) == root.Lookup(key)
    ensures levels != [] ==> HostCallReference(Nested(root, levels)) == levels[|levels| - 1].reference
  {
    if levels != [] {
      var outer := levels[..|levels| - 1];
      assert forall i | 0 <= i < |outer| :: outer[..i] == levels[..i];
      IdentityUnderNesting(root, outer, key);
      var l := levels[|levels| - 1];
      ExtendsKeepsValue(l.host, Nested(root, outer), key);
      var origin := Cancellable(l.host, l.bound);
      assert origin.Lookup(key) == root.Lookup(key);
      assert Caller(Cancellable(l.raw, l.call), origin).Lookup(key) == root.Lookup(key);
    }
  }
}
