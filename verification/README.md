# Resolver dispatch registry — a Dafny model

This project models the core of a "direct resolver" dispatch registry (Go package
`resolvers`). A caller builds an `Invocation` that names a resolver and carries raw
JSON arguments, a raw parent value (`Source`) and an optional raw caller identity.
The registry looks up the handler registered under that name and decodes the
invocation's payload into the handler's argument type. A binary handler also gets
the decoded identity. The registry then calls the handler and returns its
`(result, error)` pair.

- `wrappers.dfy` — module `Wrappers`: `Option`, standing for Go's nil slices and pointers.
- `invocation.dfy` — module `Invocations`: `Context`, `Invocation` and the accessors
  `IsRoot`, `Payload` and `Identity`. Raw JSON is text, one character per byte.
- `registry.dfy` — module `Registries`: the `Handler` variant (unary or binary) and
  the error kinds. `Dispatch` is the specification of `Handle`, as a function of
  the name→handler map and the invocation. `Registered` is the map that a sequence
  of `Add` calls builds. The `Registry` class has a `handlers` map field, a
  constructor `New`, a state-changing `Add` and a read-only `Handle`.
- `repository_scenarios.dfy` — module `RepositoryScenarios`: the registry the test
  suite builds, and the outcomes of its six invocations.

The implementation of `New`, `Add` and `Handle` is not part of this model. Their
behaviour is taken from the assertions in `repository_test.go` and from the
system's design description: the order of the dispatch steps, the error kinds,
the zero identity, and the handler's result returned alongside its error.

## Model

| member | source | states |
|---|---|---|
| `Invocations.Invocation.IsRoot` | invocation.go:16-18 | A call is root exactly when `Source` is nil or its whole text is `null` |
| `Invocations.PresentSourceIsRootOnlyIfNull` | invocation.go:17 | When `Source` is present, root-ness depends only on whether its text equals `null` |
| `Invocations.NearNullSourcesAreNotRoot` | invocation.go:17 | The comparison is literal and whole-string: ` null`, `NULL` and an empty non-nil `Source` are not root |
| `Invocations.Invocation.Payload` | invocation.go:20-26 | The payload is always `Arguments` or `Source` and nothing else. It is `Arguments` for a root call. For a nested call it is `Source`, which is then present and is not `null` |
| `Invocations.NestedPayloadIgnoresArguments` | invocation.go:20-26 | For a nested call, replacing `Arguments` with anything leaves the payload unchanged |
| `Invocations.RootPayloadIgnoresSource` | invocation.go:16-23 | For a root call, a nil `Source` and a `null` `Source` give the same payload, `Arguments` |
| `Invocations.Invocation.Identity` | invocation.go:28-30 | The identity is returned unchanged, and an absent identity stays absent |
| `Registries.Deliver` | repository_test.go:63-74 | A handler's response becomes the result. Its error is reported as a handler error exactly when it gave one |
| `Registries.Dispatch` | repository_test.go:27-119 | The result is present exactly when the handler is found and every decode it needs succeeds. A failure before the call is reported with no result and never as a handler error. Not-found happens exactly when the name is unregistered. Argument-decode failure happens exactly when the selected payload does not decode. Identity-decode failure happens exactly when a binary handler's present identity does not decode after its payload did |
| `Registries.UnaryPassThrough` | repository_test.go:27-42 | A unary handler receives the decoded payload, and its reply is returned as it is |
| `Registries.BinaryPassThrough` | repository_test.go:44-61 | A binary handler receives the decoded payload and the decoded identity, and its reply is returned as it is |
| `Registries.AbsentIdentityIsZero` | invocation.go:28-30 | A binary handler called without an identity receives its identity type's zero value and still runs |
| `Registries.Registered` | repository_test.go:21-25 | The names a sequence of `Add` calls registers are exactly the names passed to them |
| `Registries.RegisteredLookup` | repository_test.go:21-25 | With distinct names, each name leads to the handler registered under it |
| `Registries.DispatchReachesOwnHandler` | repository_test.go:21-61 | Handlers registered together stay apart. A call to a registered name has the same outcome as in a registry holding only that handler |
| `Registries.UnregisteredNameNotFound` | repository_test.go:104-119 | A name never registered gives no result and a not-found error |
| `Registries.Registry.New` | repository_test.go:21 | A new registry is empty |
| `Registries.Registry.Add` | repository_test.go:22-25 | `Add` registers the handler under the name, keeps every other name's handler, and extends the registration history |
| `Registries.Registry.Handle` | repository_test.go:28-33 | `Handle` returns exactly what `Dispatch` specifies for the current handlers and changes nothing |
| `RepositoryScenarios.RepositorySuite` | repository_test.go:11-120 | With the suite's four handlers and any decoders that accept `{"bar":"foo"}` and reject `{"bar:foo"}`, the outcomes are as follows. A matching call returns `Foo == "bar"` with no error. The binary call returns `Foo == "foo"` with no error. The erroring handler's error is propagated. A malformed identity or malformed arguments give an error and no result. An unknown name gives no result and an error |

## Left out

- JSON decoding (`encoding/json` unmarshalling into caller-defined structs) is a foreign library. Each handler carries its decoders as uninterpreted partial functions from raw text to an optional value. A nil payload reaches the decoder as empty text, because `json.Unmarshal` treats nil and empty input alike.
- The JSON struct tags and wire framing of `Invocation` and `Context` (invocation.go:5-14) are plumbing. Only the fields are modelled.
- Raw JSON is modelled as `seq<char>` with one character per byte. No encoding is modelled.
- Handler signature inspection and dynamic calls through reflection are not part of this model. The `Handler` variant (unary or binary, each returning a response and an optional error) makes every other arity unrepresentable, so the invalid-signature error of registration does not arise.
- Handler results are of one type-erased type `V` per registry, standing for Go's `interface{}`.
- The wording of the errors `Handle` returns is not modelled, only their kinds. A handler's error message is kept.
- Registry.Add: registering a name twice is not exercised by the suite. `Add` is a map update, so the later handler replaces the earlier one, as the design description says the source does. No lemma relies on this, and the lemmas about several registrations assume distinct names.
- Concurrent use of the registry and any transport layer that produces invocations are absent from the modelled code.
- Panics inside handlers are not modelled. Handlers are total functions.
