/**
 * The registry the repository's tests build: four handlers over one argument
 * shape and one identity shape (each a record with a single string field `bar`),
 * all answering with a record whose field `Foo` is a fixed string.
 */
module RepositoryScenarios {
  import opened Wrappers
  import opened Invocations
  import opened Registries

  /** The decoded values the test handlers exchange. */
  datatype Shape = Arguments(bar: string) | Identity(bar: string) | Response(foo: string)

  /** A payload that decodes into either shape. */
  const WellFormed: Raw := "{\"bar\":\"foo\"}"
  /** A payload that is not JSON: the key has no colon and no value. */
  const Malformed: Raw := "{\"bar:foo\"}"

  /** A root invocation with the given arguments and identity. */
  function Root(name: string, arguments: Raw, identity: Option<Raw>): Invocation
  {
    Invocation(name, Context(Some(arguments), None, identity))
  }

  /**
   * Registers the four handlers and handles the six invocations of the test
   * suite. Decoding is left to the given decoders; all the suite relies on is that
   * they accept the well-formed payload and reject the malformed one.
   */
  method RepositorySuite(decodeArguments: Raw -> Option<Shape>, decodeIdentity: Raw -> Option<Shape>)
    returns (matching: Outcome<Shape>, withIdentity: Outcome<Shape>, withError: Outcome<Shape>,
             identityMalformed: Outcome<Shape>, argumentsMalformed: Outcome<Shape>,
             notFound: Outcome<Shape>)
    requires decodeArguments(WellFormed).Some? && decodeArguments(Malformed).None?
    requires decodeIdentity(WellFormed).Some? && decodeIdentity(Malformed).None?
    ensures matching == Outcome(Some(Response("bar")), None)
    ensures withIdentity == Outcome(Some(Response("foo")), None)
    ensures withError == Outcome(Some(Response("bar")), Some(HandlerError("Has Error")))
    ensures identityMalformed == Outcome(None, Some(IdentityDecodeError))
    ensures argumentsMalformed == Outcome(None, Some(ArgumentDecodeError))
    ensures notFound == Outcome(None, Some(ResolverNotFound))
  {
    var r := new Registry<Shape>.New();
    r.Add("example.resolver",
          Unary(decodeArguments, (arg: Shape) => Reply(Response("bar"), None)));
    r.Add("example.resolver.with.identity",
          Binary(decodeArguments, decodeIdentity, Identity(""),
                 (arg: Shape, ident: Shape) => Reply(Response("foo"), None)));
    r.Add("example.resolver.with.error",
          Unary(decodeArguments, (arg: Shape) => Reply(Response("bar"), Some("Has Error"))));
    r.Add("example.resolver.with.identity.with.error",
          Binary(decodeArguments, decodeIdentity, Identity(""),
                 (arg: Shape, ident: Shape) => Reply(Response("foo"), Some("Has Error"))));

    assert "example.resolver" in r.handlers;
    assert "example.resolver.with.identity" in r.handlers;
    assert "example.resolver.with.error" in r.handlers;
    assert "example.resolver.with.identity.with.error" in r.handlers;
    assert "example.resolver.not.found" !in r.handlers;
    matching := r.Handle(Root("example.resolver", WellFormed, None));
    withIdentity := r.Handle(Root("example.resolver.with.identity", WellFormed, Some(WellFormed)));
    withError := r.Handle(Root("example.resolver.with.error", WellFormed, None));
    identityMalformed := r.Handle(Root("example.resolver.with.identity.with.error", WellFormed, Some(Malformed)));
    argumentsMalformed := r.Handle(Root("example.resolver.with.error", Malformed, None));
    notFound := r.Handle(Root("example.resolver.not.found", WellFormed, None));
  }
}
