/** Request contexts as the plugin SDK builds them: a tree of values and cancellation nodes,
    and the gRPC metadata that travels in them. */
module Contexts {
  import opened Wrappers

  /** Identity of a context's done channel. */
  type Node = nat

  type Metadata = map<string, seq<string>>

  /** `UserKey` is any key that code outside the SDK package can name. The handler-reference,
      host-call-reference and unidentified keys are unexported types. */
  datatype Key =
    | IncomingKey
    | OutgoingKey
    | HandlerReferenceKey
    | HostCallReferenceKey
    | UnidentifiedKey
    | UserKey(name: string)
  {
    predicate Public() {
      IncomingKey? || OutgoingKey? || UserKey?
    }
  }

  datatype Value =
    | Incoming(md: Metadata)
    | Outgoing(base: Metadata, added: seq<(string, string)>)
    | Text(text: string)
    | Flag
    | Data(data: int)

  /** `Root` is a context the SDK did not derive (a server or application context);
      `Caller` is the wrapper that restores an invocation's values around a callback. */
  datatype Context =
    | Root(node: Node, values: map<Key, Value>)
    | Cancellable(parent: Context, node: Node)
    | WithValue(parent: Context, key: Key, val: Value)
    | Caller(call: Context, origin: Context)
  {
    function Lookup(k: Key): Option<Value> {
      match this
      case Root(_, values) => if k in values then Some(values[k]) else None
      case Cancellable(p, _) => p.Lookup(k)
      case WithValue(p, key, v) => if k == key then Some(v) else p.Lookup(k)
      case Caller(call, origin) =>
        var restored := origin.Lookup(k);
        if restored.Some? then restored else call.Lookup(k)
    }

    /** The node whose channel Done() returns; a context has failed when that node is done. */
    function DoneNode(): Node {
      match this
      case Root(n, _) => n
      case Cancellable(_, n) => n
      case WithValue(p, _, _) => p.DoneNode()
      case Caller(call, _) => call.DoneNode()
    }

    /** Every cancellation node this context was derived from, through parents and restored origins. */
    ghost function Ancestors(): set<Node> {
      match this
      case Root(n, _) => {n}
      case Cancellable(p, n) => p.Ancestors() + {n}
      case WithValue(p, _, _) => p.Ancestors()
      case Caller(call, origin) => call.Ancestors() + origin.Ancestors()
    }

    predicate Unidentified() {
      Lookup(UnidentifiedKey).Some?
    }
  }

  // ----- Metadata

  const PLUGIN_CALL_METADATA := "x-kandev-plugin-call"

  function Get(md: Metadata, k: string): seq<string> {
    if k in md then md[k] else []
  }

  /** Entries appended to an outgoing context are merged after its base entries. */
  function Merge(base: Metadata, added: seq<(string, string)>): Metadata
    decreases |added|
  {
    if added == [] then base
    else
      var (k, v) := added[0];
      Merge(base[k := Get(base, k) + [v]], added[1..])
  }

  /** The values appended under `k`, in order. */
  function Appended(added: seq<(string, string)>, k: string): seq<string> {
    if added == [] then []
    else Appended(added[..|added| - 1], k) + (if added[|added| - 1].0 == k then [added[|added| - 1].1] else [])
  }

  lemma {:induction false} AppendedFirst(added: seq<(string, string)>, k: string)
    requires added != []
    ensures Appended(added, k) == (if added[0].0 == k then [added[0].1] else []) + Appended(added[1..], k)
  {
    if |added| > 1 {
      var n := |added| - 1;
      AppendedFirst(added[..n], k);
      assert added[..n][1..] == added[1..][..n - 1];
      assert added[1..][n - 1] == added[n];
    } else {
      assert added[..0] == [] && added[1..] == [];
    }
  }

  /** Under every key the base values come first and the appended ones follow in order. */
  lemma {:induction false} MergeKeepsAll(base: Metadata, added: seq<(string, string)>, k: string)
    ensures Get(Merge(base, added), k) == Get(base, k) + Appended(added, k)
    decreases |added|
  {
    if added == [] {
      assert Get(base, k) + [] == Get(base, k);
    } else {
      var (key, v) := added[0];
      MergeKeepsAll(base[key := Get(base, key) + [v]], added[1..], k);
      AppendedFirst(added, k);
      if k == key {
        assert Get(base, k) + ([v] + Appended(added[1..], k)) == Get(base, k) + [v] + Appended(added[1..], k);
      } else {
        assert [] + Appended(added[1..], k) == Appended(added[1..], k);
      }
    }
  }

  function FromIncoming(ctx: Context): Option<Metadata> {
    match ctx.Lookup(IncomingKey)
    case Some(Incoming(md)) => Some(md)
    case _ => None
  }

  function FromOutgoing(ctx: Context): Metadata {
    match ctx.Lookup(OutgoingKey)
    case Some(Outgoing(base, added)) => Merge(base, added)
    case _ => map[]
  }

  function NewIncoming(ctx: Context, md: Metadata): Context {
    WithValue(ctx, IncomingKey, Incoming(md))
  }

  function NewOutgoing(ctx: Context, md: Metadata): Context {
    WithValue(ctx, OutgoingKey, Outgoing(md, []))
  }

  // ----- Derivation

  /** `ctx` was derived from `base` by steps that never bind `key`; a caller wrapper counts as
      derived from the origin it restores. */
  predicate Extends(ctx: Context, base: Context, key: Key) {
    || ctx == base
    || match ctx
       case Root(_, _) => false
       case Cancellable(p, _) => Extends(p, base, key)
       case WithValue(p, k, _) => k != key && Extends(p, base, key)
       case Caller(_, origin) => Extends(origin, base, key)
  }

  /** A value set in the base survives every derivation that does not rebind its key. */
  lemma {:induction false} ExtendsKeepsValue(ctx: Context, base: Context, key: Key)
    requires Extends(ctx, base, key)
    requires base.Lookup(key).Some?
    ensures ctx.Lookup(key) == base.Lookup(key)
  {
    if ctx != base {
      match ctx
      case Cancellable(p, _) => ExtendsKeepsValue(p, base, key);
      case WithValue(p, _, _) => ExtendsKeepsValue(p, base, key);
      case Caller(_, origin) => ExtendsKeepsValue(origin, base, key);
    }
  }

  lemma {:induction false} ExtendsTransitive(ctx: Context, middle: Context, base: Context, key: Key)
    requires Extends(ctx, middle, key) && Extends(middle, base, key)
    ensures Extends(ctx, base, key)
  {
    if ctx != middle {
      match ctx
      case Cancellable(p, _) => ExtendsTransitive(p, middle, base, key);
      case WithValue(p, _, _) => ExtendsTransitive(p, middle, base, key);
      case Caller(_, origin) => ExtendsTransitive(origin, middle, base, key);
    }
  }
}
