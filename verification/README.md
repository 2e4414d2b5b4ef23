# MAPLE core in Dafny

A Dafny model of the sequential core of MAPLE (Multi-Agent Protocol Language
Engine). It covers six pieces:

- the UAL command-line parser (`parse_ual`), which splits a line on whitespace
  into type, target, destination and `key=value` parameters;
- the agent registry, which routes a parsed statement to the agent registered
  under its destination;
- the package manager and its built-in `software_factory` workflow, whose
  every line is proved to parse;
- the mode-tagged UAL message (`UalMessage`): Json, gRPC or byte-level;
- an agent's per-message processing rule (`Agent::process_message`);
- the two access decisions of the HTTP API: the `Bearer` key check and the
  rule that keeps Free-tier keys from registering premium roles.

Modules follow the crates:

| module | file | models |
|---|---|---|
| `Results` | results.dfy | Rust's `Option` and `Result` |
| `Strings` | strings.dfy | `str::split_whitespace`, `split_once`, `strip_prefix` |
| `UalParser` | ual_parser.dfy | src/ual.rs |
| `AgentRegistry` | agent_registry.dfy | agent/src/lib.rs |
| `Packages` | packages.dfy | maple-core/package/src/lib.rs |
| `Utf8` | utf8.dfy | `String::from_utf8` and `str::as_bytes` |
| `Ual` | ual.dfy | ual/src/lib.rs |
| `Agents` | agents.dfy | agents/src/lib.rs (`AgentConfig`, `process_message`) |
| `Api` | api.dfy | api/src/lib.rs (authentication filter, tier rule) |

Everything is a pure function over immutable datatypes. Agent behaviour,
JSON (serde_json) and file contents are parameters of the functions that use
them. The Rust panics (`unimplemented!` on gRPC, the mode panic of
`with_byte_payload`, the `unwrap` in `register_agent`) are preconditions.

## Model

| member | source | states |
|---|---|---|
| `Strings.TokensAreWords` | src/ual.rs:12 | every token `split_whitespace` yields is non-empty and holds no whitespace |
| `Strings.TokensKeepText` | src/ual.rs:12 | the tokens, concatenated, are exactly the line's non-whitespace characters in order: nothing is lost, nothing added |
| `Strings.TokensOfJoin` | src/ual.rs:12 | splitting words joined by single spaces gives back the same words, so `split_whitespace` inverts joining |
| `Strings.TokensIdempotent` | src/ual.rs:12 | re-joining a line's tokens and splitting again gives the same tokens |
| `Strings.TokensSkipSpace` | src/ual.rs:12 | whitespace in front of a line yields no token: the tokens of the line are those of the text after it |
| `Strings.TokensOfLayout` | src/ual.rs:12 | words laid out with leading whitespace, any non-empty runs of whitespace between them (tabs, several spaces, line breaks) and trailing whitespace split back into exactly those words, so token boundaries are exactly the whitespace runs |
| `Strings.SplitOnceSpec` | src/ual.rs:17 | `split_once('=')` fails exactly when there is no `=`; otherwise the key, `=` and value make up the token, and the key holds no `=`, so the split is at the first `=` and the value may hold more |
| `Strings.SplitOnceOfJoin` | src/ual.rs:17 | splitting `key=value` whose key has no `=` returns that key and that value |
| `Strings.StripPrefix` | api/src/lib.rs:50 | `strip_prefix` succeeds exactly when the prefix starts the text, and then the text is the prefix followed by the result |
| `UalParser.Parse` | src/ual.rs:11-26 | parsing fails, with the text "Invalid UAL: Too few parts", exactly when the line has fewer than three whitespace tokens |
| `UalParser.ParseShape` | src/ual.rs:12-25 | a parsed statement's type, target and destination are non-empty and whitespace-free; its parameters come only from tokens 3 and later, at most one per token, each token being `key=value` with no `=` in the key |
| `UalParser.ParseWords` | src/ual.rs:16-25 | for three or more words joined by single spaces, the statement holds words 0, 1 and 2 and the parameters of the later words only, so the first three never yield a parameter even if they contain `=` |
| `UalParser.ParseLayout` | src/ual.rs:12-25 | for three or more words in any layout (leading, trailing, and any non-empty whitespace runs between them), the statement holds words 0, 1 and 2 and the parameters of the later words only |
| `UalParser.ParseTooFewLayout` | src/ual.rs:12-15 | fewer than three words, in any layout, are refused with the "Too few parts" error |
| `UalParser.ParseTooFewWords` | src/ual.rs:13-15 | at most two words joined by single spaces are refused with the "Too few parts" error |
| `UalParser.ParamsFromTokens` | src/ual.rs:16-19 | there are no more parameters than tokens, and each parameter re-joined as `key=value` is one of the tokens, its key free of `=` |
| `UalParser.ParamsOfOne` | src/ual.rs:17-18 | a token without `=` yields no parameter; a token with one yields exactly one parameter that re-joins to the token |
| `UalParser.ParamsAppend` | src/ual.rs:16-19 | parameters keep token order: the parameters of two runs of tokens are those of the first run followed by those of the second |
| `UalParser.BareTokenDropped` | src/ual.rs:17 | a token without `=`, such as `WITH`, is dropped wherever it stands and changes no other parameter |
| `UalParser.ParseRender` | src/ual.rs:11-26 | every statement with word fields and `key=value` word parameters whose keys hold no `=`, rendered as a UAL line, parses back to itself, duplicate keys, empty keys and `=` inside values included |
| `UalParser.ParseThreeWords` | src/ual.rs:20-25 | a line of exactly three words parses to those three fields and no parameters |
| `UalParser.ParseWithClause` | src/ual.rs:16-25 | `<type> <target> <destination> WITH k=v` parses to those fields and the single parameter `(k, v)`; `WITH` leaves no trace |
| `UalParser.ParseExample` | src/main.rs:66-67 | `EXEC task1 agent1 WITH priority=5` parses to type `EXEC`, target `task1`, destination `agent1` and parameters `[("priority", "5")]` |
| `AgentRegistry.New` | agent/src/lib.rs:23-27 | a new registry holds no agent under any id; `ExecuteOnNew` shows that every statement is then not found |
| `AgentRegistry.Execute` | agent/src/lib.rs:35-41 | an unregistered destination gives `Agent '<destination>' not found`; a registered one gives the result of the agent registered under exactly that id; `ExecuteRegistered`, `ExecuteOtherUnchanged` and `ExecuteChoosesByDestination` relate it to `register` |
| `AgentRegistry.Register` | agent/src/lib.rs:30-32 | after `register(id, a)` the id maps to `a`, the set of ids gains exactly `id`, and every other id keeps its agent |
| `AgentRegistry.ExecuteOnNew` | agent/src/lib.rs:23-40 | on a fresh registry every statement fails with `Agent '<destination>' not found` |
| `AgentRegistry.ExecuteRegistered` | agent/src/lib.rs:30-37 | after `register(id, a)`, a statement for `id` gets exactly `a`'s result, whatever was registered before |
| `AgentRegistry.ExecuteOtherUnchanged` | agent/src/lib.rs:30-41 | registering under one id does not change the result of a statement for any other destination |
| `AgentRegistry.RegisterOverwrites` | agent/src/lib.rs:30-32 | registering twice under one id leaves the same registry as registering the second agent alone |
| `AgentRegistry.ExecuteUnregisteredRunsNothing` | agent/src/lib.rs:38-40 | for an unregistered destination the result is the not-found error whatever any agent would do, so no agent is consulted |
| `AgentRegistry.ExecuteChoosesByDestination` | agent/src/lib.rs:35-41 | two statements with the same destination are run by the same agent, whatever their other fields |
| `AgentRegistry.SimpleDispatchOkIffRegistered` | agent/src/lib.rs:35-53 | with `SimpleAgent`s, a statement succeeds exactly when its destination is registered |
| `AgentRegistry.RunSimple` | agent/src/lib.rs:49-52 | `SimpleAgent` succeeds on every statement, so with it dispatch fails only for lack of an agent (`SimpleDispatchOkIffRegistered`) |
| `Packages.NewManager` | maple-core/package/src/lib.rs:26-28 | a new manager holds no package; `GetOnNew` shows that `get` then finds nothing |
| `Packages.AddPackage` | maple-core/package/src/lib.rs:56-58 | `add_package` makes the list one longer, keeps every earlier package in place, and puts the new one last |
| `Packages.FirstNamed` | maple-core/package/src/lib.rs:52 | the search finds nothing exactly when no package has the name; otherwise it finds a package with that name and none before it has the name |
| `Packages.Get` | maple-core/package/src/lib.rs:51-53 | `get` returns `None` exactly when no package has the name; otherwise a listed package with that name |
| `Packages.GetFirst` | maple-core/package/src/lib.rs:51-53 | when index `i` holds the first package with the name, in insertion order, `get` returns exactly that package |
| `Packages.GetOnNew` | maple-core/package/src/lib.rs:26-28 | a new manager finds no package under any name |
| `Packages.GetAfterAdd` | maple-core/package/src/lib.rs:51-58 | adding a package never changes what `get` returns for a name already present, so a later duplicate is shadowed; a name absent before is found exactly when the new package carries it |
| `Packages.Import` | maple-core/package/src/lib.rs:31-36 | `import` succeeds exactly when both the read and the decode succeed; then the decoded package is appended; on failure the list is unchanged |
| `Packages.Export` | maple-core/package/src/lib.rs:39-48 | an encoder failure is returned as is; otherwise export succeeds exactly when the write succeeds, and the file then holds the package's JSON text; `ExportThenImport` shows that importing that text gives the package back |
| `Packages.ExportThenImport` | maple-core/package/src/lib.rs:31-48 | with a decoder that undoes the encoder, importing what `export` wrote appends exactly the exported package, which `get` finds when its name was new |
| `Packages.SoftwareFactory` | maple-core/package/src/lib.rs:62-75 | the built-in package is named `software_factory`, carries the description "Software Factory workflow for MAPLE" and has seven workflow lines; `SoftwareFactoryText` gives the lines and `SoftwareFactoryWorkflowParses` shows they all parse |
| `Packages.SoftwareFactoryText` | maple-core/package/src/lib.rs:66-74 | the workflow is exactly the seven command lines of the source, in order |
| `Packages.DefineProductText` | maple-core/package/src/lib.rs:67 | the first line is the text `EXEC define_product product_manager` |
| `Packages.RequirementsText` | maple-core/package/src/lib.rs:68 | the second line is the text `EXEC requirements architect WITH details=auth,tasks,realtime` |
| `Packages.PlanText` | maple-core/package/src/lib.rs:69 | the third line is the text `EXEC plan project_manager WITH arch=rest,react,postgres,websocket` |
| `Packages.SetupInfraText` | maple-core/package/src/lib.rs:70 | the fourth line is the text `EXEC setup_infra system_engineer` |
| `Packages.DevelopAppText` | maple-core/package/src/lib.rs:71 | the fifth line is the text `EXEC develop_app app_developer WITH features=auth,tasks,realtime` |
| `Packages.TestAppText` | maple-core/package/src/lib.rs:72 | the sixth line is the text `EXEC test_app qa_engineer` |
| `Packages.ReleaseText` | maple-core/package/src/lib.rs:73 | the seventh line is the text `EXEC release system_engineer WITH marketing=enabled` |
| `Packages.DefineProductStep` | maple-core/package/src/lib.rs:67 | the first workflow line parses to `EXEC define_product product_manager` with no parameters |
| `Packages.RequirementsStep` | maple-core/package/src/lib.rs:68 | the second line parses to `EXEC requirements architect` with `[("details", "auth,tasks,realtime")]` |
| `Packages.PlanStep` | maple-core/package/src/lib.rs:69 | the third line parses to `EXEC plan project_manager` with `[("arch", "rest,react,postgres,websocket")]` |
| `Packages.SetupInfraStep` | maple-core/package/src/lib.rs:70 | the fourth line parses to `EXEC setup_infra system_engineer` with no parameters |
| `Packages.DevelopAppStep` | maple-core/package/src/lib.rs:71 | the fifth line parses to `EXEC develop_app app_developer` with `[("features", "auth,tasks,realtime")]` |
| `Packages.TestAppStep` | maple-core/package/src/lib.rs:72 | the sixth line parses to `EXEC test_app qa_engineer` with no parameters |
| `Packages.ReleaseStep` | maple-core/package/src/lib.rs:73 | the seventh line parses to `EXEC release system_engineer` with `[("marketing", "enabled")]` |
| `Packages.SoftwareFactoryParses` | maple-core/package/src/lib.rs:66-74 | each of the seven workflow lines is accepted by the parser |
| `Packages.SoftwareFactoryWorkflowParses` | maple-core/package/src/lib.rs:62-75 | the built-in package is named `software_factory`, has seven workflow lines, and every line of its workflow parses |
| `Packages.SoftwareFactoryArchitectLine` | maple-core/package/src/lib.rs:68 | the package's second line is addressed to `architect` with the single parameter `("details", "auth,tasks,realtime")`, the `WITH` dropped |
| `Utf8.DecodeEncodeChar` | agents/src/lib.rs:60 | the UTF-8 encoding of any character, followed by anything, decodes to that character and takes its whole length |
| `Utf8.EncodeDecodeChar` | agents/src/lib.rs:60 | every byte sequence accepted as one character is that character's encoding: no overlong forms, no surrogates |
| `Utf8.DecodeEncode` | agents/src/lib.rs:60 | `String::from_utf8` accepts the bytes of any string and gives that string back |
| `Utf8.EncodeDecode` | agents/src/lib.rs:60 | whatever `String::from_utf8` accepts is exactly the encoding of the text it returns |
| `Utf8.DecodeIffEncode` | agents/src/lib.rs:60 | bytes decode to a text exactly when they are that text's UTF-8 encoding |
| `Ual.New` | ual/src/lib.rs:27-33 | a new message keeps the action and mode given and has an empty payload |
| `Ual.WithJsonPayload` | ual/src/lib.rs:36-42 | a message not in Json mode is refused with "Mode must be Json for JSON payload"; in Json mode the result is the message with the value's encoding as payload, or the encoder's error |
| `Ual.WithBytePayload` | ual/src/lib.rs:45-51 | in ByteLevel mode the payload becomes exactly the given bytes, with action and mode kept |
| `Ual.Decode` | ual/src/lib.rs:54-63 | ByteLevel decoding always fails with "Byte-level decoding requires custom logic"; Json decoding is the JSON decoder's verdict on the payload |
| `Ual.Encode` | ual/src/lib.rs:66-75 | in Json and ByteLevel modes the bytes sent are the stored payload, unchanged |
| `Ual.JsonRoundTrip` | ual/src/lib.rs:83-89 | with a decoder that undoes the encoder, a value put in a Json message is accepted, decodes back to itself, and is sent as its encoding |
| `Ual.JsonPayloadNeedsJsonMode` | ual/src/lib.rs:37-39 | a JSON payload is only ever attached to a Json message |
| `Ual.BytePayloadRoundTrip` | ual/src/lib.rs:45-75 | bytes placed in a new ByteLevel message are sent back unchanged, the action is kept, and `decode` refuses them |
| `Ual.BytePayloadOverwrites` | ual/src/lib.rs:45-51 | setting a byte payload twice keeps only the second |
| `Ual.NewEncodesEmpty` | ual/src/lib.rs:27-33 | a fresh Json or ByteLevel message sends no bytes |
| `Ual.ByteMessageExample` | ual/src/lib.rs:92-96 | the byte payload `[0x01, 0x0A, 0x14]` is stored as given |
| `Agents.JsonResponseMentions` | agents/src/lib.rs:53-56 | the Json response text contains the agent's name and the action |
| `Agents.ByteResponseMentions` | agents/src/lib.rs:61-64 | the byte-level response text contains the agent's name, the action and the decoded text |
| `Agents.ProcessMessage` | agents/src/lib.rs:49-68 | gRPC processing always fails; Json succeeds exactly when the payload decodes; ByteLevel succeeds exactly when the payload is UTF-8 and otherwise fails with the UTF-8 error; a response names the agent and the action, and a byte-level one carries the decoded text |
| `Agents.ProcessEncodedText` | agents/src/lib.rs:58-65 | a ByteLevel message whose payload is the encoding of a text is handled, and the response is built from that very text |
| `Agents.ProcessBytesOkIffEncoded` | agents/src/lib.rs:58-65 | a ByteLevel message is handled exactly when its payload is the UTF-8 encoding of some text |
| `Agents.ProcessJsonMessage` | agents/src/lib.rs:81-93 | a Json message built by `with_json_payload` from a value is handled, and the response shows that value |
| `Api.Authenticate` | api/src/lib.rs:46-58 | a header not starting with `Bearer ` is rejected as "Invalid token"; otherwise it passes exactly when the rest after one prefix is a known key, which is returned, and is rejected as "Unauthorized" otherwise |
| `Api.CheckTier` | api/src/lib.rs:84-93 | the tier rule refuses exactly a Free key asking for role `premium`; every other request yields a configuration with the requested name and role |
| `Api.Register` | api/src/lib.rs:61-93 | a registration goes through exactly when the header carries `Bearer ` and a known key that is not a Free key asking for `premium`; the configuration passed on copies name and role |
| `Api.BearerKey` | api/src/lib.rs:50-56 | `Bearer <key>` is accepted exactly when `<key>` is known: only one prefix is stripped |
| `Api.TierPasses` | api/src/lib.rs:86-93 | a Paid key, or any role other than `premium`, passes the tier rule with the requested configuration |
| `Api.RegisterWithKey` | api/src/lib.rs:61-93 | a known key presented as `Bearer <key>` registers the requested configuration unless it is a Free key asking for `premium` |
| `Api.RegisterWithoutBearer` | api/src/lib.rs:50 | without the `Bearer ` prefix a registration is refused as "Invalid token" before any key or tier is consulted |

## Left out

- File reads and writes in `PackageManager::import` and `export` are not modelled. `Packages.Import` receives the read's outcome as a parameter. `Packages.Export` receives the write's outcome as a parameter `write` and returns the text written.
- serde_json is not modelled. It is an encoder/decoder pair supplied by the caller. The round-trip property is a precondition (`Packages.CodecRoundTrips`, `Ual.RoundTrips`), not an axiom.
- The `MapleAgent` trait and its async `execute` are a function parameter `run` over an agent type. `SimpleAgent`'s `println!` is output and is not modelled.
- `Ual.Decode` and `Ual.Encode` exclude gRPC mode by precondition, because both paths are `unimplemented!` and panic.
- `Ual.WithBytePayload` requires ByteLevel mode, because the source panics in any other mode.
- `Agents.ProcessMessage` models the `unimplemented!` gRPC branch as the error `GrpcUnimplemented`, not as a panic.
- `Agents.ProcessMessage`: the `Display` text of a JSON value is a parameter `show`.
- `Agent::new`, `run` and `send` are not modelled. They are the tokio channel and the spawned loop, that is, concurrency and output.
- `Api.CheckTier` requires the key to be known, because the source `unwrap`s the lookup. `Api.Register` shows that authentication always establishes this.
- The warp server, its routing and replies, and the `Mrs::register_agent` call after the tier rule are not modelled. They are networking and a foreign service returning a fresh identifier.
- Rust strings are UTF-8 bytes, while the model's strings are sequences of Unicode scalar values. `split_whitespace`, `split_once` and `strip_prefix` act on whole characters, so the results are the same. Whitespace is the Unicode White_Space set, which `char::is_whitespace` uses.
- Mutation is modelled functionally: `Register`, `AddPackage` and `Import` return the new registry or manager. `execute`, `get`, `export` and `process_message` take `&self` and return nothing new, so they leave their receiver unchanged by construction.
- Details of the code that the model keeps as they are:
  - the registry's `register` only inserts into the map;
  - byte-level processing only checks that the payload is UTF-8;
  - the parse error is the text "Invalid UAL: Too few parts";
  - `execute` passes the agent's result through unchanged;
  - the statement's `type_` field is called `verb` here.
- The rest of the repository (the `map` protocol, the `mrs` resolution service, the SDK, the runtime, storage, the CLI and the node binaries) is not part of this model.
