# codeninja core, modelled in Dafny

This project models two parts of the codeninja tooling for n8n workflows.

1. **The workflow-to-JavaScript transpiler and its refactor pipeline** (`workflow-codegen.js`).
   - `sanitize` turns a node name into an identifier.
   - `generateCodeFromWorkflow` emits a fixed prologue, then one block per node in stored order, then a fixed epilogue. Each block is a header comment, a body chosen by node type and a blank line.
   - `refactorGeneratedCode` runs a lexical `let`/`var` → `const` rule, then an optional, fail-open AI step.
2. **The in-place workflow edits and rule handlers of the MCP server** (`codeninja-server.js`).
   - `add_node`, `update_node`, `delete_node`, `connect_nodes` and `disconnect_nodes` change the fetched document. The PUT that follows is the new state of a `Workflow` object.
   - `validate_workflow` computes the connected-node set and the issues, warnings and notes for each node.
   - `fix_common_node_errors` auto-detects an error type and applies per-type parameter defaults.
   - The keyword classifier of `diagnose_node_error` maps error messages to issues and recommendations.
   - `list_node_types` filters a fixed catalogue by category.

## Modules

- `Wrappers`: `Option` and `Result`.
- `Json`: JSON values, with the JavaScript semantics the code relies on:
  - a missing property is `undefined`;
  - truthiness, `a || b`, and `===` on primitives;
  - template-literal interpolation.
  - `String(v)` of a non-string and `JSON.stringify` are uninterpreted functions bundled in `Render`.
- `Seqs`: `Array.prototype.filter`, with its order and idempotence lemmas.
- `Text`: the string operations the code uses:
  - `\w` characters, `includes`, `split`/`join` on one character, ASCII `toLowerCase`, decimal printing.
- `Workflows`: the following entities.
  - The `Node` and `Conn` datatypes.
  - The nested connection map: source → output type → slots → connections.
  - The specification functions of the graph edits: `FindNode`, `WithoutNode`, `PruneNode`, `Disconnect` and `Connect`.
  - The connected set, and their lemmas.
- `Codegen`: `sanitize` and the emitters.
  - `GenerateCodeFromWorkflow` is a method with the source's node loop and inner Set-entry loop. It is proved against `ProgramLines`.
- `Refactor`: a `\bword\b` replacement, modelled on the maximal runs of word and non-word characters. Also the rule stage, the AI oracle and the `RefactorGeneratedCode` method.
- `Rules`: the following logic.
  - Error-type detection.
  - The per-type fixes: methods proved against `FixedParams`/`FixMessages`, assembled from one `ApplyDefault` step per defaulted key.
  - The diagnosis classifier and the node-type catalogue.
- `Validation`: the connected-set loops, the per-node check loop, and the meaning of the report.
- `Editor`: class `Workflow`, holding `name`, `active`, `nodes: seq<Node>` and `connections`. It has one method per handler.

## Model

| member | source | states |
|---|---|---|
| Codegen.Sanitize | workflow-codegen.js:13-15 | Same length as the name; every character is in `[A-Za-z0-9_]`; word characters are kept and all others become `_` |
| Codegen.SanitizeKeepsIdentifiers | workflow-codegen.js:13-15 | A name that is already an identifier is returned unchanged |
| Codegen.SanitizeIdempotent | workflow-codegen.js:13-15 | Sanitizing twice equals sanitizing once |
| Codegen.SetLines | workflow-codegen.js:35-37 | Exactly one `const` line per Set entry, in entry order, each built from the sanitized entry name and the serialised value |
| Codegen.EmitBody | workflow-codegen.js:26-53 | The per-type switch yields the node's body exactly when emitting it cannot throw |
| Codegen.GenerateCodeFromWorkflow | workflow-codegen.js:17-61 | Succeeds iff every node can be emitted; a failure names the first node that throws, as the loop stops there; success is the prologue, the per-node blocks and the epilogue, joined with newlines |
| Codegen.Bodies | workflow-codegen.js:24-55 | One body per node, in node order, each the lines that node's case pushes |
| Codegen.ProgramFrame | workflow-codegen.js:18-60 | For any per-node bodies, the output starts with the four prologue lines and ends with `}`, a blank line and `main().catch(console.error);`, both as lines and as text |
| Codegen.BlockLayout | workflow-codegen.js:24-55 | For any per-node bodies, node k's block sits at an increasing offset after the prologue and is exactly its `  // name (type)` header, its body and a blank line. The blocks fill the space up to the epilogue, in `workflow.nodes` order |
| Codegen.BlockBoundaries | workflow-codegen.js:24-55 | Line `Offset(k)` is node k's header and the line before `Offset(k+1)` is the blank separator |
| Codegen.HttpMethod | workflow-codegen.js:28 | The method is a truthy `httpMethod`, else a truthy `method`, else `'GET'` |
| Codegen.HttpUrl | workflow-codegen.js:29 | The URL is a truthy `url`, else the empty string |
| Codegen.HttpRequestExample | workflow-codegen.js:27-31 | A POST node with a URL emits the single binding `const <sanitized name> = await axios({ method: 'POST', url: ... })` |
| Codegen.HttpRequestDefaults | workflow-codegen.js:28-30 | Without method and URL the binding uses `GET` and an empty URL |
| Codegen.HttpMethodPrecedence | workflow-codegen.js:28 | `httpMethod` takes precedence over `method` in the emitted binding |
| Codegen.SetExample | workflow-codegen.js:33-39 | The entry `a!` becomes the binding `const a_ = <stringified value>;` |
| Codegen.SetWithoutArray | workflow-codegen.js:34 | A Set node whose `values` is not an array can be emitted, and its body is empty: only its header and blank line appear |
| Codegen.FunctionCodeIndented | workflow-codegen.js:41-50 | Truthy function code is emitted with every line prefixed by two spaces and the same line count; absent or falsy code emits nothing |
| Codegen.UnhandledTypeComment | workflow-codegen.js:51-52 | Any other node type emits exactly one `TODO` comment that names the type |
| Refactor.RunsMaximal | workflow-codegen.js:98 | The runs of a text are uniform, alternate between word and non-word characters, and concatenate back to the text |
| Refactor.RunsOfConcat | workflow-codegen.js:98 | Re-splitting concatenated maximal runs gives the same runs |
| Refactor.RunsOfReplaceWord | workflow-codegen.js:98 | Replacing a whole word by a word keeps the run structure and changes only the matching runs |
| Refactor.UseConstRuns | workflow-codegen.js:98 | After the rule the run count is kept: each `let`/`var` run becomes `const`, all other runs are unchanged, and no `let` or `var` run is left |
| Refactor.WholeWordIsRun | workflow-codegen.js:98 | Every `\bw\b` match of a word at position `i` is the maximal run that starts at `i` |
| Refactor.RunIsWholeWord | workflow-codegen.js:98 | Conversely, every maximal run equal to a word is a `\bw\b` match at the run's offset |
| Refactor.WholeWordIffRun | workflow-codegen.js:98 | A `\bw\b` match at `i` exists iff a maximal run of the text equal to `w` starts at `i`, so the run-level rule rewrites exactly the regular-expression matches |
| Refactor.UseConstLeavesNoLetOrVar | workflow-codegen.js:98 | After the rule, `\blet\b` and `\bvar\b` match at no position |
| Refactor.UseConstIdempotent | workflow-codegen.js:98 | Applying the rule twice equals applying it once |
| Refactor.UseConstKeepsOtherCode | workflow-codegen.js:98 | Code containing no whole-word `let` or `var` is unchanged |
| Refactor.RuleStage | workflow-codegen.js:97-99 | The code is rewritten iff the intent contains `use const`; otherwise it is returned as is |
| Refactor.AiRefactor | workflow-codegen.js:63-92 | Without a key the AI step fails before any request; otherwise it yields the oracle's completion or its failure |
| Refactor.RefactorGeneratedCode | workflow-codegen.js:94-108 | An empty intent returns the input. Without the AI step the result is the rule-stage output. With it, the result is the completion on success and the rule-stage output on failure, so no error escapes |
| Workflows.FindNode | codeninja-server.js:677-678 | The index found is the first node with the name; none is found iff no node has it |
| Workflows.WithoutNode | codeninja-server.js:704 | Exactly the nodes with other names remain |
| Workflows.DeletedNotFound | codeninja-server.js:704 | After deletion no node has the name, and the remaining nodes keep their relative order |
| Workflows.FindAppended | codeninja-server.js:658 | A name that was absent is found at the end after a node with that name is appended |
| Workflows.PruneOutputs | codeninja-server.js:710-718 | Every slot of every output type is filtered by target, with the shape kept; afterwards no connection targets it |
| Workflows.PruneNode | codeninja-server.js:707-720 | The deleted node's own entry is gone; every other source is pruned; the name is neither a source nor a target afterwards |
| Workflows.PruneNodeIdempotent | codeninja-server.js:707-720 | Pruning a node twice equals pruning it once |
| Workflows.Disconnect | codeninja-server.js:773-782 | Only the source's entry changes, with connections to the target removed from all its slots; a source without an entry leaves the map unchanged |
| Workflows.DisconnectIdempotent | codeninja-server.js:773-782 | Disconnecting twice equals disconnecting once |
| Workflows.Connect | codeninja-server.js:739-754 | Missing levels are created and the connection is appended to the chosen slot; every other source, output type and slot is unchanged |
| Workflows.ConnectThenDisconnect | codeninja-server.js:739-782 | Disconnecting the target right after connecting it to an existing slot gives the same map as disconnecting it alone |
| Workflows.ConnectConnects | codeninja-server.js:739-754 | After connecting, both the source and the target are in the connected set |
| Editor.PruneSlots | codeninja-server.js:713-717 | Each slot of the list is filtered, in place, index by index |
| Editor.PruneSource | codeninja-server.js:710-718 | The nested `for…in` loops over output types and slots compute `PruneOutputs` |
| Editor.OrMain | codeninja-server.js:742-752 | `x \|\| 'main'`: a given non-empty name is kept, and an absent or empty name becomes `main` |
| Editor.OrZero | codeninja-server.js:745-753 | `i \|\| 0`: a given index is kept, and an absent one becomes 0 |
| Editor.Workflow.AddNode | codeninja-server.js:649-658 | One node is appended with defaults: position `[250,250]`, parameters `{}`, `typeVersion` 1 and no `disabled`; nothing else changes |
| Editor.Workflow.UpdateNode | codeninja-server.js:677-685 | An unknown name fails with the source's message. Otherwise the first node of that name gets its parameters overridden by the given keys, and its position and disabled flag only when supplied; all other nodes and the connections are unchanged |
| Editor.Workflow.DeleteNode | codeninja-server.js:704-720 | The nodes become `WithoutNode` and the connections become `PruneNode` of the old ones |
| Editor.Workflow.ConnectNodes | codeninja-server.js:739-754 | The connections become `Connect` of the source, its output type, its output index and the new target entry. Absent or empty types default to `main` and absent indices to 0. The nodes, name and active flag are unchanged |
| Editor.Workflow.DisconnectNodes | codeninja-server.js:773-782 | The connections become `Disconnect` of the old ones; the nodes are unchanged |
| Editor.Workflow.FixCommonNodeErrors | codeninja-server.js:937-1028 | An unknown name fails. Otherwise the first node of that name gets the fixes for the detected error type, with the fix list reported; nothing else changes |
| Editor.Workflow.Validate | codeninja-server.js:1045-1108 | The report holds: the issues and warnings of every node against the connected set; `isValid` iff there are no issues; and the summary for that count |
| Rules.DetectErrorType | codeninja-server.js:946-961 | A given type other than `auto_detect` is kept. Otherwise the lower-cased latest error picks the first match among credentials, required, connection and invalid |
| Rules.CredentialsWinOverConnection | codeninja-server.js:956-958 | A message mentioning both credentials and connection is a credentials error |
| Rules.ConnectionRefusedExample | codeninja-server.js:946-961 | `Connection refused` is detected as `connection_error` |
| Rules.Default | codeninja-server.js:966-969 | `if (!p[k]) p[k] = v` gives a falsy key the default and leaves every other key unchanged |
| Rules.ApplyDefault | codeninja-server.js:966-969 | One `if (!p[k]) { p[k] = v; fixes.push(m); updated = true; }` step: the entry is defaulted, the message is recorded exactly when it was, and `updated` keeps meaning that some fix was recorded |
| Rules.FixHttpRequest | codeninja-server.js:965-981 | The HTTP Request fixes, in order: url, method, then the timeout only for a connection error |
| Rules.FixWebhook | codeninja-server.js:983-994 | The Webhook fixes, in order: path, then HTTP method |
| Rules.FixDatabase | codeninja-server.js:996-1008 | The database fixes, in order: operation, then the table only for a select |
| Rules.ApplyFixes | codeninja-server.js:964-1015 | The parameters and fix messages are those of the per-type rules, and `updated` holds iff a fix was recorded |
| Rules.FixesOnlyWhenUpdated | codeninja-server.js:1026 | When no fix is recorded the parameters are unchanged, so skipping the write-back loses nothing |
| Rules.HttpRequestFixes | codeninja-server.js:965-981 | For HTTP Request, `url` and `method` are defaulted only when falsy, and `timeout` is set only for `connection_error`. No other key changes, and the fix list is empty iff nothing was missing |
| Rules.DatabaseFixes | codeninja-server.js:996-1008 | A falsy operation becomes `select`; a select without a table gets the placeholder; no other key changes |
| Rules.FixesIdempotent | codeninja-server.js:964-1015 | Fixed parameters need no further fix: fixing them again changes nothing and records nothing |
| Rules.UnfixableUnchanged | codeninja-server.js:964-1015 | Node types without a rule are left alone, with no fix recorded |
| Rules.DiagnoseErrors | codeninja-server.js:899-923 | No errors give an empty diagnosis; otherwise the issues and recommendations follow the keyword categories of the lower-cased messages, in order |
| Rules.IssuesExactly | codeninja-server.js:903-921 | Each category is reported iff some message contains one of its keywords |
| Rules.IssuesDistinct | codeninja-server.js:903-921 | No issue is reported twice; there is one recommendation per issue plus one more for connection issues |
| Rules.UnauthorizedExample | codeninja-server.js:918-921 | A lone `401` message is reported only as an authorization failure |
| Rules.ListNodeTypes | codeninja-server.js:812-814 | A non-empty category gives exactly the catalogue entries of that category, in catalogue order; otherwise the whole catalogue |
| Validation.Summary | codeninja-server.js:1106 | The summary is `Workflow is valid` iff the issue count is zero; otherwise it is `Found N issues that need fixing` with the count's numeral |
| Text.Decimal | codeninja-server.js:1106 | The numeral interpolated for the count: decimal digits only, no leading zero, and denoting the number |
| Validation.ConnectedNodes | codeninja-server.js:1048-1056 | The loops compute the connected set: every source and every target |
| Validation.ConnectedAdd | codeninja-server.js:1049-1055 | Visiting one more source adds its name and exactly its targets |
| Validation.IssueTextNamesNode | codeninja-server.js:1068-1084 | Each issue message contains the name of the node it is about |
| Validation.WarningTextNamesSubject | codeninja-server.js:1061-1077 | The not-connected message contains the node name; the shared-path message contains the interpolated path |
| Validation.NoteTextNamesNode | codeninja-server.js:1091 | The disabled message contains the node name |
| Validation.CheckNode | codeninja-server.js:1058-1094 | One node's checks yield exactly its issues, its warnings and its disabled note |
| Validation.CheckNodes | codeninja-server.js:1058-1094 | The node pass collects, in node order, each node's issues, warnings (unconnected first, then shared path) and disabled note |
| Validation.IssuesCollected | codeninja-server.js:1058-1094 | An issue is reported iff some node produces it |
| Validation.ValidIffNoIssues | codeninja-server.js:1105 | The workflow is valid iff no node has a configuration issue |
| Validation.NotConnectedIff | codeninja-server.js:1060-1062 | A node gets the not-connected warning iff it is not a start node and neither a source nor a target of any connection |
| Validation.MissingUrlIff | codeninja-server.js:1066-1070 | The missing-URL issue is reported iff an HTTP Request node of that name has a falsy URL |
| Validation.MissingPathIff | codeninja-server.js:1072-1075 | The missing-path issue is reported iff a webhook node of that name has a falsy path |
| Validation.MissingOperationIff | codeninja-server.js:1081-1085 | The missing-operation issue is reported iff a Postgres or MySQL node of that name has a falsy operation |
| Validation.DisabledIff | codeninja-server.js:1090-1092 | A node is noted as disabled iff its `disabled` flag is true |
| Text.JoinSplit | workflow-codegen.js:44-46 | Splitting a text at a character and joining the pieces with that character gives the text back |
| Validation.SamePathCountBounds | codeninja-server.js:1076 | The filter counts the node itself, and counts more iff another webhook node's path is strictly equal |
| Validation.DuplicatePathIff | codeninja-server.js:1076-1078 | A webhook node draws the shared-path warning iff another webhook node has a strictly equal path |

## Left out

- HTTP calls to the n8n API are left out. The fetched workflow is the object's initial state, and the PUT is its state after the method. The MCP server setup, the tool schemas, dispatch and the stdio transport are also left out. None of these has logic of its own.
- The body of `aiRefactorGeneratedCode` is left out: `fetch`, the OpenAI response shape and trimming. It is the oracle `complete`; only whether a key is configured and whether the call succeeds are modelled. The `console.error` logging is dropped.
- The behaviour of `JSON.stringify` and of `String(v)` on non-strings is not modelled. They are uninterpreted `Render` functions. String interpolation of strings and of `undefined` is modelled exactly.
- `diagnose_node_error` is modelled only from the error messages on. Collecting the errors from the execution list and the `nodeExecutionStack` is left out, because it reads shapes of the remote API.
- Response texts of the edit handlers (`Node '…' added successfully` and similar) are left out, and so is the final text of `fix_common_node_errors`. The error messages of `update_node` and `fix_common_node_errors` are kept.
- Editor.Workflow.ConnectNodes: indices are naturals. A negative or fractional index, which JavaScript accepts, is not modelled. For `outputIndex` the source then stores the slot under a non-index property that serialisation drops. An `inputIndex` such as -1 or 0.5 is stored as the connection's `index` and serialised as written, but `Conn.index` is a natural and cannot hold it. The output index, when given, must name an existing slot or the next new one. A larger index would leave holes in a JavaScript array.
- Codegen.Sanitize: characters are Unicode scalar values. The source's regular expression has no `u` flag, so it works on UTF-16 code units and writes two `_` for a character above U+FFFF; the model writes one. The same holds for the `const` names of Set entries; the node headers use the raw name.
- Rules.DiagnoseErrors and Rules.DetectErrorType: error messages are strings or absent. A truthy non-string message makes the source's lower-casing throw a `TypeError`; that case is not modelled.
- Node parameters are always a map. The source crashes earlier when they are absent for the node types it fixes. For that reason the `!node.parameters` fix of `fix_common_node_errors` (codeninja-server.js:1020-1024) is not modelled.
- Codegen.GenerateCodeFromWorkflow: where the source throws a `TypeError`, the model returns a `Failure` naming the node. This happens for a Set entry that is not an object with a string `name`, or for a truthy non-string `functionCode`. The exception text is not modelled.
- Refactor.WholeWordIsRun: matches are stated for words of `[A-Za-z0-9_]` characters with the ASCII `\w` class. Other regular-expression features are not modelled.
- Text.ToLower: lower-cases ASCII letters only. JavaScript's full Unicode case mapping is not modelled.
- Object key order in `for…in` and on serialisation is not modelled. The connection map and the parameters are modelled as maps.
- Editor.PruneSource: rebuilds the pruned outputs of a source and stores them back once. The source assigns each filtered slot inside the nested object, and no other reference to those objects is observable.
