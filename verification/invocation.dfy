/**
 * The invocation a resolver request carries: the resolver's name, and a context
 * with the raw (undecoded) arguments, the raw parent value ("source") and an
 * optional raw caller identity. Raw JSON is kept as text, one character per byte.
 * All accessors are value-receiver reads: an Invocation is an immutable value.
 */
module Invocations {
  import opened Wrappers

  /** Undecoded JSON text (a `json.RawMessage`). */
  type Raw = seq<char>

  /** The JSON literal `null` (section 3 of RFC 8259). */
  const NullLiteral: Raw := "null"

  /** `Arguments` and `Source` are nil-able slices; `Identity` is a nil-able pointer. */
  datatype Context = Context(arguments: Option<Raw>, source: Option<Raw>, identity: Option<Raw>)

  datatype Invocation = Invocation(resolve: string, context: Context) {

    /** A root call has no parent value: the source is nil or is exactly the text `null`. */
    function IsRoot(): (r: bool)
      ensures r <==> context.source.None? || context.source == Some(NullLiteral)
    {
      context.source == None || context.source.value == NullLiteral
    }

    /** The payload handed to the handler: the arguments for a root call, the source otherwise. */
    function Payload(): (r: Option<Raw>)
      ensures r == context.arguments || r == context.source
      ensures IsRoot() ==> r == context.arguments
      ensures !IsRoot() ==> r == context.source && r.Some? && r.value != NullLiteral
    {
      if IsRoot() then context.arguments else context.source
    }

    /** The optional identity, passed through as it is (nil stays nil). */
    function Identity(): (r: Option<Raw>)
      ensures r == context.identity
    {
      context.identity
    }

    /** The bytes a decoder sees for the payload: a nil slice reads as no bytes at all. */
    function PayloadText(): Raw
    {
      Payload().GetOr([])
    }
  }

  /** A present source is root exactly when its text is the whole literal `null`. */
  lemma PresentSourceIsRootOnlyIfNull(inv: Invocation)
    requires inv.context.source.Some?
    ensures inv.IsRoot() <==> inv.context.source.value == NullLiteral
  {
  }

  /**
   * The comparison with `null` is on the whole text, case-sensitive: a padded
   * `null`, an upper-case `NULL` and a present but empty source are not root.
   */
  lemma NearNullSourcesAreNotRoot(name: string, arguments: Option<Raw>, identity: Option<Raw>)
    ensures !Invocation(name, Context(arguments, Some(" null"), identity)).IsRoot()
    ensures !Invocation(name, Context(arguments, Some("NULL"), identity)).IsRoot()
    ensures !Invocation(name, Context(arguments, Some([]), identity)).IsRoot()
  {
  }

  /** A nested call's payload does not depend on its arguments, whatever they are. */
  lemma NestedPayloadIgnoresArguments(inv: Invocation, arguments: Option<Raw>)
    requires !inv.IsRoot()
    ensures inv.(context := inv.context.(arguments := arguments)).Payload() == inv.Payload()
    ensures inv.Payload() == inv.context.source
  {
  }

  /** A root call's payload does not depend on which root form (nil or `null`) the source takes. */
  lemma RootPayloadIgnoresSource(inv: Invocation, source: Option<Raw>)
    requires inv.IsRoot()
    requires source.None? || source == Some(NullLiteral)
    ensures inv.(context := inv.context.(source := source)).Payload() == inv.context.arguments
  {
  }
}
