/**
 * The dispatch registry: resolver names mapped to handlers, `Add` to register one
 * and `Handle` to route an invocation to it. A handler's argument and identity
 * types are known only to the handler, so each handler carries the decoders for
 * them (uninterpreted partial functions from raw JSON) and its decoded values are
 * of one type-erased type `V`.
 */
module Registries {
  import opened Wrappers
  import opened Invocations

  /** What a handler returns: a response value and an optional error message. */
  datatype Reply<V> = Reply(response: V, err: Option<string>)

  /**
   * A registered handler. It takes the decoded payload, and a binary handler also
   * the decoded identity; `zeroIdentity` is the zero value it gets when the
   * invocation carries no identity.
   */
  datatype Handler<!V> =
    | Unary(decodeArg: Raw -> Option<V>, callUnary: V -> Reply<V>)
    | Binary(decodeArg: Raw -> Option<V>, decodeIdentity: Raw -> Option<V>, zeroIdentity: V,
             callBinary: (V, V) -> Reply<V>)

  /** The kinds of failure `Handle` reports. */
  datatype Error =
    | ResolverNotFound
    | ArgumentDecodeError
    | IdentityDecodeError
    | HandlerError(message: string)

  /** The `(result, error)` pair `Handle` returns; `None` is Go's `nil`. */
  datatype Outcome<V> = Outcome(result: Option<V>, error: Option<Error>)

  /** The outcome of a handler that ran: its response, and its error if it gave one. */
  function Deliver<V>(reply: Reply<V>): (out: Outcome<V>)
    ensures out.result == Some(reply.response)
    ensures out.error.None? <==> reply.err.None?
    ensures reply.err.Some? ==> out.error == Some(HandlerError(reply.err.value))
  {
    Outcome(Some(reply.response), if reply.err.None? then None else Some(HandlerError(reply.err.value)))
  }

  /** The handler registered under the invocation's name is found and every decode it needs succeeds. */
  predicate Invokes<V>(handlers: map<string, Handler<V>>, inv: Invocation)
  {
    && inv.resolve in handlers
    && handlers[inv.resolve].decodeArg(inv.PayloadText()).Some?
    && (handlers[inv.resolve].Binary? && inv.Identity().Some? ==>
          handlers[inv.resolve].decodeIdentity(inv.Identity().value).Some?)
  }

  /**
   * What `Handle` does with the registered handlers: exact-name lookup, then the
   * payload is decoded, then (binary handlers only) the identity, then the handler
   * is called. Each step that fails stops there with its own error and no result.
   */
  function Dispatch<V>(handlers: map<string, Handler<V>>, inv: Invocation): (out: Outcome<V>)
    ensures out.result.Some? <==> Invokes(handlers, inv)
    ensures !Invokes(handlers, inv) ==> out.error.Some? && !out.error.value.HandlerError?
    ensures Invokes(handlers, inv) && out.error.Some? ==> out.error.value.HandlerError?
    ensures out.error == Some(ResolverNotFound) <==> inv.resolve !in handlers
    ensures out.error == Some(ArgumentDecodeError) <==>
              inv.resolve in handlers && handlers[inv.resolve].decodeArg(inv.PayloadText()).None?
    ensures out.error == Some(IdentityDecodeError) <==>
              && inv.resolve in handlers
              && handlers[inv.resolve].Binary?
              && handlers[inv.resolve].decodeArg(inv.PayloadText()).Some?
              && inv.Identity().Some?
              && handlers[inv.resolve].decodeIdentity(inv.Identity().value).None?
  {
    if inv.resolve !in handlers then
      Outcome(None, Some(ResolverNotFound))
    else
      var h := handlers[inv.resolve];
      match h.decodeArg(inv.PayloadText())
      case None => Outcome(None, Some(ArgumentDecodeError))
      case Some(arg) =>
        match h
        case Unary(_, call) => Deliver(call(arg))
        case Binary(_, decodeIdentity, zero, call) =>
          match inv.Identity()
          case None => Deliver(call(arg, zero))
          case Some(raw) =>
            match decodeIdentity(raw)
            case None => Outcome(None, Some(IdentityDecodeError))
            case Some(ident) => Deliver(call(arg, ident))
  }

  /** A unary handler whose payload decodes gets exactly that value, and its reply is passed through. */
  lemma UnaryPassThrough<V>(handlers: map<string, Handler<V>>, inv: Invocation, arg: V)
    requires inv.resolve in handlers && handlers[inv.resolve].Unary?
    requires handlers[inv.resolve].decodeArg(inv.PayloadText()) == Some(arg)
    ensures Dispatch(handlers, inv) == Deliver(handlers[inv.resolve].callUnary(arg))
  {
  }

  /** A binary handler gets the decoded payload and the decoded identity, and its reply is passed through. */
  lemma BinaryPassThrough<V>(handlers: map<string, Handler<V>>, inv: Invocation, arg: V, ident: V)
    requires inv.resolve in handlers && handlers[inv.resolve].Binary?
    requires handlers[inv.resolve].decodeArg(inv.PayloadText()) == Some(arg)
    requires inv.Identity().Some? && handlers[inv.resolve].decodeIdentity(inv.Identity().value) == Some(ident)
    ensures Dispatch(handlers, inv) == Deliver(handlers[inv.resolve].callBinary(arg, ident))
  {
  }

  /** A binary handler called without an identity gets its identity type's zero value. */
  lemma AbsentIdentityIsZero<V>(handlers: map<string, Handler<V>>, inv: Invocation, arg: V)
    requires inv.resolve in handlers && handlers[inv.resolve].Binary?
    requires handlers[inv.resolve].decodeArg(inv.PayloadText()) == Some(arg)
    requires inv.Identity().None?
    ensures Dispatch(handlers, inv) ==
              Deliver(handlers[inv.resolve].callBinary(arg, handlers[inv.resolve].zeroIdentity))
  {
  }

  /** One `Add` call: a name and the handler registered under it. */
  datatype Registration<!V> = Registration(name: string, handler: Handler<V>)

  /** No name is registered twice. */
  ghost predicate DistinctNames<V>(adds: seq<Registration<V>>)
  {
    forall i, j :: 0 <= i < j < |adds| ==> adds[i].name != adds[j].name
  }

  /** The handlers after `New()` followed by `Add` for each registration in turn. */
  ghost function Registered<V>(adds: seq<Registration<V>>): (m: map<string, Handler<V>>)
    ensures m.Keys == set i | 0 <= i < |adds| :: adds[i].name
    decreases |adds|
  {
    if adds == [] then map[]
    else
      var prefix, last := adds[..|adds| - 1], adds[|adds| - 1];
      assert (set i | 0 <= i < |adds| :: adds[i].name) ==
             (set i | 0 <= i < |prefix| :: prefix[i].name) + {last.name};
      Registered(prefix)[last.name := last.handler]
  }

  /** With distinct names, every registered name still leads to the handler registered under it. */
  lemma {:induction false} RegisteredLookup<V>(adds: seq<Registration<V>>, i: nat)
    requires DistinctNames(adds)
    requires i < |adds|
    ensures adds[i].name in Registered(adds)
    ensures Registered(adds)[adds[i].name] == adds[i].handler
    decreases |adds|
  {
    if i < |adds| - 1 {
      var prefix := adds[..|adds| - 1];
      assert DistinctNames(prefix);
      assert prefix[i] == adds[i];
      RegisteredLookup(prefix, i);
      assert adds[i].name != adds[|adds| - 1].name;
    }
  }

  /**
   * Handlers registered together stay apart: a call to one of the registered
   * names has the same outcome as in a registry holding only that name's handler.
   */
  lemma DispatchReachesOwnHandler<V>(adds: seq<Registration<V>>, i: nat, inv: Invocation)
    requires DistinctNames(adds)
    requires i < |adds| && inv.resolve == adds[i].name
    ensures Dispatch(Registered(adds), inv) == Dispatch(map[adds[i].name := adds[i].handler], inv)
  {
    RegisteredLookup(adds, i);
  }

  /** A name that was never registered is not found, and there is no result. */
  lemma UnregisteredNameNotFound<V>(adds: seq<Registration<V>>, inv: Invocation)
    requires forall i :: 0 <= i < |adds| ==> adds[i].name != inv.resolve
    ensures Dispatch(Registered(adds), inv) == Outcome(None, Some(ResolverNotFound))
  {
  }

  /** The registry. `log` is the ghost record of every `Add` so far, in order. */
  class Registry<V> {
    var handlers: map<string, Handler<V>>
    ghost var log: seq<Registration<V>>

    ghost predicate Valid()
      reads this
    {
      handlers == Registered(log)
    }

    /** `New()`: an empty registry. */
    constructor New()
      ensures Valid() && log == [] && handlers == map[]
    {
      handlers := map[];
      log := [];
    }

    /** Registers `handler` under `name`; every other name keeps its handler. */
    method Add(name: string, handler: Handler<V>)
      requires Valid()
      modifies this
      ensures Valid()
      ensures log == old(log) + [Registration(name, handler)]
      ensures handlers == old(handlers)[name := handler]
    {
      handlers := handlers[name := handler];
      log := log + [Registration(name, handler)];
    }

    /** Routes `inv` to the handler registered under its name; changes nothing. */
    method Handle(inv: Invocation) returns (out: Outcome<V>)
      ensures out == Dispatch(handlers, inv)
    {
      if inv.resolve !in handlers {
        return Outcome(None, Some(ResolverNotFound));
      }
      var h := handlers[inv.resolve];
      var arg := h.decodeArg(inv.PayloadText());
      if arg.None? {
        return Outcome(None, Some(ArgumentDecodeError));
      }
      if h.Unary? {
        out := Deliver(h.callUnary(arg.value));
      } else {
        var ident := h.zeroIdentity;
        if inv.Identity().Some? {
          var decoded := h.decodeIdentity(inv.Identity().value);
          if decoded.None? {
            return Outcome(None, Some(IdentityDecodeError));
          }
          ident := decoded.value;
        }
        out := Deliver(h.callBinary(arg.value, ident));
      }
    }
  }
}
