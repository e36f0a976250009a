# Ecore GLSP editor: the decisions behind its commands and handlers

This project models, in Dafny, the small but exact decisions of the Ecore
diagram editor's integration code, and proves what they promise:

- **The "New Ecore-File" command** (`EcoreCommand`, with URIs in `Uris`). It
  resolves the directory to create in, looking one level up from a
  non-directory. It then shows three prompts in turn (Name, Prefix, URI), each
  replacing the one before. A confirmation at the URI prompt calls
  `createEcore`: for a non-empty name, one call to the generation service, and
  an open of `<directory>/<name>.ecore` when the service succeeds. The prompt
  item never closes its prompt, so the URI prompt stays on screen, and every
  further confirmation there calls `createEcore` again. The prompt chain is an
  explicit state machine (`Phase`, `Step`, `Run`) driven by two user events:
  running the prompt's item in some mode, and dismissing it. Every call the
  command makes (file-stat query, prompt, generation, open) is recorded in a
  trace. The main theorem, `ExecuteMatchesReference`, proves that trace equal
  to a direct reference definition (`Expected`) built from the confirmed
  answers. The lemmas about cancelling, the empty name and the generator calls
  follow from it.
- **Server port selection** (`GlspServerContribution`). `getPort` takes the
  first `--ECORE_GLSP=` argument and reads its remainder with JavaScript's
  `Number.parseInt(…, 10)`. That means optional white space, an optional sign,
  the leading decimal digits, and NaN when there are none. `start` connects
  only for a truthy port, meaning neither undefined, NaN nor 0.
- **Shape features** (`Enotation`). The generated EMF `ShapeImpl` is a class
  with two nullable containment references, compared by identity. It has the
  basic setters with their notification chain, the setters, `eGet`, `eSet`,
  `eUnset`, `eIsSet` and `eInverseRemove`. A ghost log records inverse
  removes, inverse adds, dispatches and direct notifications.
- **Undo/redo dispatch** (`UndoRedoHandler`). The model state is an abstract
  command stack, counting the commands that can be undone and redone. A ghost
  log records the `undo()`/`redo()` calls.

Services the code calls are not executed. The file system is a map from
location text to stat. The workspace roots are a sequence. The selection is an
optional URI. The generation service's outcome is a function of its arguments.
The process arguments are a parameter. `eNotificationRequired()` is a constant
of the shape.

Behaviours of the code that are easy to miss:

- The directory resolver returns the parent's stat without checking that it
  is a directory (`MissingCandidateUnderFileResolvesToFile`). In a
  well-formed file system a candidate that names an existing entry still
  always resolves to a directory (`ExistingCandidateResolvesToDirectory`,
  with the example `WellFormedWorkspace`).
- The promise of `generateEcore` is not returned from `createEcore`, so a
  failing generation call does not reach the command. It only means that no
  open follows.
- The URI prompt stays open after its confirmation. A second confirmation
  generates the file again with the new namespace URI and opens it again
  (`FourthConfirmationGeneratesAgain`).
- Any truthy parse passes the port guard, including a negative number
  (`NegativePortIsTruthy`). `--ECORE_GLSP=0x1F` reads as 0 and is refused
  (`HexPortIsFalsy`).

## Model

| member | source | states |
|---|---|---|
| `EcoreCommand.GetDirectory` | client/theia-ecore/src/browser/EcoreCommandContribution.ts:131-141 | asks about the candidate and at most its parent; stops after one question exactly when the candidate is an existing directory; returns the unfiltered answer to the last question |
| `EcoreCommand.GetParent` | client/theia-ecore/src/browser/EcoreCommandContribution.ts:139-141 | the stat of the candidate's parent location, present exactly when that location exists |
| `EcoreCommand.WellFormedWorkspace` | client/theia-ecore/src/browser/EcoreCommandContribution.ts:131-141 | a well-formed file system exists (root, `/ws`, `/ws/a.txt`): the file resolves to `/ws`, the directory to itself |
| `EcoreCommand.ExistingCandidateResolvesToDirectory` | client/theia-ecore/src/browser/EcoreCommandContribution.ts:131-141 | in a well-formed file system a candidate naming an existing entry resolves to a directory: itself, or, for a file, the stat of its parent |
| `EcoreCommand.MissingCandidateUnderFileResolvesToFile` | client/theia-ecore/src/browser/EcoreCommandContribution.ts:136-141 | the parent's stat is returned raw: a missing candidate below a file resolves to that file |
| `EcoreCommand.GetUri` | client/theia-ecore/src/browser/EcoreCommandContribution.ts:171-182 | defined exactly when there is a selection URI or a workspace root; then it is the selection, or without one the first root |
| `EcoreCommand.IsEnabled` | client/theia-ecore/src/browser/EcoreCommandContribution.ts:163-165 | the definition: the inherited decision and at least one workspace root; `EnabledHasUri` states what it guarantees |
| `EcoreCommand.IsVisible` | client/theia-ecore/src/browser/EcoreCommandContribution.ts:167-169 | the definition: the inherited decision and at least one workspace root |
| `EcoreCommand.EnabledHasUri` | client/theia-ecore/src/browser/EcoreCommandContribution.ts:163-182 | whenever `isEnabled` holds (so at least one root exists) `getUri` yields a URI, the first root when nothing is selected |
| `EcoreCommand.RunItem` | client/theia-ecore/src/browser/EcoreCommandContribution.ts:200-206 | `run` executes exactly when `canRun(mode)`, and returns true exactly when it executed and `canClose(mode)` |
| `EcoreCommand.DefaultItemClosesOnOpen` | client/theia-ecore/src/browser/EcoreCommandContribution.ts:187-191 | with the constructor's defaults an item executes and closes in OPEN mode only |
| `EcoreCommand.OnType` | client/theia-ecore/src/browser/EcoreCommandContribution.ts:86-98 | typing offers exactly one item, labelled prefix, typed text and the fixed suffix, whose confirmation hands on exactly the typed text |
| `EcoreCommand.PromptItem` | client/theia-ecore/src/browser/EcoreCommandContribution.ts:90-95 | the item's label is prefix, typed text and suffix; it hands on the typed text; it runs exactly in OPEN mode and never closes |
| `EcoreCommand.PromptItemRunsOnlyOnOpen` | client/theia-ecore/src/browser/EcoreCommandContribution.ts:90-95 | a prompt's item executes only in OPEN mode and never returns true (never closes) |
| `EcoreCommand.ConfirmedOnlyOnOpen` | client/theia-ecore/src/browser/EcoreCommandContribution.ts:90-94 | a selection hands the typed text to `onEnter` in OPEN mode and hands nothing on in any other mode |
| `EcoreCommand.CreateEcore` | client/theia-ecore/src/browser/EcoreCommandContribution.ts:74-82 | the definition of the calls `createEcore` makes; `CreateEcoreCalls` states them |
| `EcoreCommand.CreateEcoreCalls` | client/theia-ecore/src/browser/EcoreCommandContribution.ts:74-81 | `createEcore` with an empty name calls nothing; otherwise one generator call with (name, prefix, URI, directory path), and one open of `<dir>/<name>.ecore` exactly when generation succeeds |
| `EcoreCommand.Begin` | client/theia-ecore/src/browser/EcoreCommandContribution.ts:70-72 | the first prompt is awaited exactly when a directory was resolved, for that directory; otherwise nothing is shown |
| `EcoreCommand.Step` | client/theia-ecore/src/browser/EcoreCommandContribution.ts:84-109 | one event never takes back a call already made; once the chain has ended (dismissed, or no directory) events change nothing |
| `EcoreCommand.Run` | client/theia-ecore/src/browser/EcoreCommandContribution.ts:84-109 | a run of events only appends to the trace |
| `EcoreCommand.Execute` | client/theia-ecore/src/browser/EcoreCommandContribution.ts:70-109 | the trace of a whole invocation starts with the directory queries |
| `EcoreCommand.ExecuteMatchesReference` | client/theia-ecore/src/browser/EcoreCommandContribution.ts:70-109 | the whole command's trace is its stat queries then, when a directory was found, the reference calls for the answers confirmed before the first dismissal: one prompt more per answer up to three, then one `createEcore` per answer at the URI prompt with the first two answers |
| `EcoreCommand.NoDirectoryNoPrompt` | client/theia-ecore/src/browser/EcoreCommandContribution.ts:70-71 | without a resolved directory no prompt is ever shown and neither generator nor opener is called |
| `EcoreCommand.PromptsInOrder` | client/theia-ecore/src/browser/EcoreCommandContribution.ts:103-109 | the prompts shown are Name, then Prefix, then URI, one more per confirmation and never more than three |
| `EcoreCommand.NoServiceBeforeThirdAnswer` | client/theia-ecore/src/browser/EcoreCommandContribution.ts:103-109 | before the third confirmation the generator and the opener are never called |
| `EcoreCommand.CancelBeforeUriCreatesNothing` | client/theia-ecore/src/browser/EcoreCommandContribution.ts:103-109 | a dismissal at any of the three prompts means zero generator calls and zero opens, whatever follows |
| `EcoreCommand.EmptyNameCreatesNothing` | client/theia-ecore/src/browser/EcoreCommandContribution.ts:75 | an empty name means zero generator calls and zero opens, whatever prefix and URI follow |
| `EcoreCommand.CreatesOncePerUriConfirmation` | client/theia-ecore/src/browser/EcoreCommandContribution.ts:74-109 | with a non-empty name, one generator call per confirmation at the URI prompt, in order, with the name, the prefix and that confirmation's text; one open of `<dir>/<name>.ecore` per call that succeeds |
| `EcoreCommand.CreatesOnceAndOpensOnce` | client/theia-ecore/src/browser/EcoreCommandContribution.ts:74-81 | exactly three confirmations with a non-empty name: exactly one generator call with the three answers in order and the directory's path, and exactly one open of `<dir>/<name>.ecore` if and only if generation succeeds |
| `EcoreCommand.NewTestEcoreInModel` | client/theia-ecore/src/browser/EcoreCommandContribution.ts:76-79 | "Test", "test", "http://test.org" in `/ws/model` generate once with those arguments and `/ws/model`, and open `file:///ws/model/Test.ecore` once |
| `EcoreCommand.FourthConfirmationGeneratesAgain` | client/theia-ecore/src/browser/EcoreCommandContribution.ts:94-106 | a fourth confirmation on the URI prompt, which stays open, generates a second time with the new namespace URI and opens the file again |
| `GlspServerContribution.FlagArguments` | client/theia-ecore/src/node/ecore-glsp-server-contribution.ts:25 | the filter keeps only arguments that start with `--ECORE_GLSP=` |
| `GlspServerContribution.GetPort` | client/theia-ecore/src/node/ecore-glsp-server-contribution.ts:24-31 | `getPort` is undefined exactly when no argument starts with `--ECORE_GLSP=` |
| `GlspServerContribution.FirstFlagWins` | client/theia-ecore/src/node/ecore-glsp-server-contribution.ts:25-29 | when several arguments match, the result is the parse of the first one's remainder after the prefix |
| `GlspServerContribution.ParseInt` | client/theia-ecore/src/node/ecore-glsp-server-contribution.ts:29 | parseInt with radix 10 is never undefined; its value is stated by `ParsesSignedDigits` and `NoDigitsIsNaN` |
| `GlspServerContribution.Truthy` | client/theia-ecore/src/node/ecore-glsp-server-contribution.ts:50 | the definition of the guard: undefined, NaN and 0 are falsy, every other number truthy |
| `GlspServerContribution.TrimStartSkipsWhiteSpace` | client/theia-ecore/src/node/ecore-glsp-server-contribution.ts:29 | parseInt skips exactly the leading ECMAScript white space: what is dropped is white space and what remains does not start with it |
| `GlspServerContribution.LeadingDigits` | client/theia-ecore/src/node/ecore-glsp-server-contribution.ts:29 | parseInt reads the longest run of decimal digits at the start |
| `GlspServerContribution.ParsesLeadingDecimal` | client/theia-ecore/src/node/ecore-glsp-server-contribution.ts:29 | a decimal number followed by anything that is not a digit parses to that number |
| `GlspServerContribution.ParsesSignedDigits` | client/theia-ecore/src/node/ecore-glsp-server-contribution.ts:29 | leading white space, an optional sign and a run of digits (leading zeros included) followed by a non-digit parse to the signed value of the digits |
| `GlspServerContribution.LeadingZeroPort` | client/theia-ecore/src/node/ecore-glsp-server-contribution.ts:24-31 | `--ECORE_GLSP=05007` gives port 5007 |
| `GlspServerContribution.NoDigitsIsNaN` | client/theia-ecore/src/node/ecore-glsp-server-contribution.ts:29 | without a digit after the optional sign the parse is NaN |
| `GlspServerContribution.FlagRoundTrip` | client/theia-ecore/src/node/ecore-glsp-server-contribution.ts:24-31 | the first `--ECORE_GLSP=<n>` argument, with any non-digit tail, gives port n |
| `GlspServerContribution.HexPortIsFalsy` | client/theia-ecore/src/node/ecore-glsp-server-contribution.ts:29-50 | with radix 10, `--ECORE_GLSP=0x1F` gives 0, which the guard treats as falsy |
| `GlspServerContribution.NegativePortIsTruthy` | client/theia-ecore/src/node/ecore-glsp-server-contribution.ts:29-50 | `--ECORE_GLSP=-5007` gives -5007, which passes the guard |
| `GlspServerContribution.EcoreGLServerContribution.Start` | client/theia-ecore/src/node/ecore-glsp-server-contribution.ts:48-60 | with a truthy port: socket, connection, forwarding, then connect to that port, in that order; otherwise exactly one error log and no socket |
| `GlspServerContribution.StartWithoutFlag` | client/theia-ecore/src/node/ecore-glsp-server-contribution.ts:48-60 | with no flag argument, starting opens no socket and logs exactly one error |
| `GlspServerContribution.StartWithPort` | client/theia-ecore/src/node/ecore-glsp-server-contribution.ts:48-60 | with `--ECORE_GLSP=<n>` first and n positive, forwarding is registered before connecting to n |
| `Enotation.Add` | server/ecore-glsp/src/main/java-gen/com/eclipsesource/glsp/ecore/enotation/impl/ShapeImpl.java:106 | a null chain becomes the notification itself; otherwise the notification is appended at the end of the chain |
| `Enotation.SetEvents` | server/ecore-glsp/src/main/java-gen/com/eclipsesource/glsp/ecore/enotation/impl/ShapeImpl.java:116-128 | the reference definition of what a setter does outside the shape; `SetSameValueOnlyTouches` and `SetDifferentValueOrder` state its properties |
| `Enotation.SetSameValueOnlyTouches` | server/ecore-glsp/src/main/java-gen/com/eclipsesource/glsp/ecore/enotation/impl/ShapeImpl.java:126-127 | setting the same reference emits one touch notification with old == new, and only if notifications are required |
| `Enotation.SetDifferentValueOrder` | server/ecore-glsp/src/main/java-gen/com/eclipsesource/glsp/ecore/enotation/impl/ShapeImpl.java:117-125 | setting a different value: inverse remove of the old value first, inverse add of the new one next, then one dispatch of the (old, new) SET notification exactly when required, and no direct notification |
| `Enotation.Shape.BasicSetPosition` | server/ecore-glsp/src/main/java-gen/com/eclipsesource/glsp/ecore/enotation/impl/ShapeImpl.java:101-109 | stores the new position, leaves the size alone, and adds one SET (old, new) notification to the chain exactly when notifications are required |
| `Enotation.Shape.BasicSetSize` | server/ecore-glsp/src/main/java-gen/com/eclipsesource/glsp/ecore/enotation/impl/ShapeImpl.java:144-152 | the same for the size |
| `Enotation.Shape.SetPosition` | server/ecore-glsp/src/main/java-gen/com/eclipsesource/glsp/ecore/enotation/impl/ShapeImpl.java:116-128 | the position becomes the new value, the size is unchanged, and the outside world sees exactly the setter's events |
| `Enotation.Shape.SetSize` | server/ecore-glsp/src/main/java-gen/com/eclipsesource/glsp/ecore/enotation/impl/ShapeImpl.java:159-171 | the size becomes the new value, the position is unchanged, and the outside world sees exactly the setter's events |
| `Enotation.Shape.EInverseRemove` | server/ecore-glsp/src/main/java-gen/com/eclipsesource/glsp/ecore/enotation/impl/ShapeImpl.java:179-187 | clears exactly the named feature, which is then not set, and chains its (old, null) notification when required |
| `Enotation.Shape.EGet` | server/ecore-glsp/src/main/java-gen/com/eclipsesource/glsp/ecore/enotation/impl/ShapeImpl.java:195-203 | the definition: the value of the named feature; `ESet` and `EIsSet` are stated in its terms |
| `Enotation.Shape.ESet` | server/ecore-glsp/src/main/java-gen/com/eclipsesource/glsp/ecore/enotation/impl/ShapeImpl.java:211-221 | for a value of the feature's class (or null), `eGet` afterwards returns that value and the other feature is unchanged; a value of another class fails the cast and changes nothing |
| `Enotation.Shape.EUnset` | server/ecore-glsp/src/main/java-gen/com/eclipsesource/glsp/ecore/enotation/impl/ShapeImpl.java:229-239 | afterwards the feature is not set and the other feature is unchanged |
| `Enotation.Shape.EIsSet` | server/ecore-glsp/src/main/java-gen/com/eclipsesource/glsp/ecore/enotation/impl/ShapeImpl.java:247-255 | a feature is set exactly when `eGet` returns a non-null value for it |
| `UndoRedoHandler.Decide` | server/ecore-glsp/src/main/java/com/eclipsesource/glsp/ecore/handler/EcoreUndoRedoActionHandler.java:53-61 | undo exactly for an Undo action when `canUndo`, redo exactly for a Redo action when `canRedo`, otherwise nothing |
| `UndoRedoHandler.OnlyHandledActionsOperate` | server/ecore-glsp/src/main/java/com/eclipsesource/glsp/ecore/handler/EcoreUndoRedoActionHandler.java:37-61 | an action that `handles` refuses never leads to an undo or a redo |
| `UndoRedoHandler.Handles` | server/ecore-glsp/src/main/java/com/eclipsesource/glsp/ecore/handler/EcoreUndoRedoActionHandler.java:37-39 | the definition: Undo and Redo actions only |
| `UndoRedoHandler.ModelState.Undo` | server/ecore-glsp/src/main/java/com/eclipsesource/glsp/ecore/handler/EcoreUndoRedoActionHandler.java:55 | the call `executeOperation` makes: one command moves from the undo to the redo side, and one `undo()` is logged |
| `UndoRedoHandler.ModelState.Redo` | server/ecore-glsp/src/main/java/com/eclipsesource/glsp/ecore/handler/EcoreUndoRedoActionHandler.java:58 | one command moves back from the redo to the undo side, and one `redo()` is logged |
| `UndoRedoHandler.ExecuteOperation` | server/ecore-glsp/src/main/java/com/eclipsesource/glsp/ecore/handler/EcoreUndoRedoActionHandler.java:53-62 | success exactly when the matching capability holds; then exactly one `undo()` (or one `redo()`) and nothing else; on failure the model state is unchanged |
| `UndoRedoHandler.Execute` | server/ecore-glsp/src/main/java/com/eclipsesource/glsp/ecore/handler/EcoreUndoRedoActionHandler.java:42-51 | a RequestBoundsAction for the new model root exactly when the operation succeeded, and then the action was handled and exactly one `undo()` (or `redo()`) was made with the new counts; otherwise no action and no change |

## Left out

- URI parsing and printing. `new URI(text)` is not modelled. A file stat carries its location as a URI value, and `toString`, `path` and `parent` are written out for hierarchical URIs.
- `getFileStat`, `generateEcore` and `open`. They are services: their answers are parameters, and their calls are recorded in a trace.
- Asynchrony. Every `await` or `.then` happens in sequence. A failing generation call just means no open.
- The superclass part of `isEnabled`, `isVisible` and `getUri`, which lives in the framework's URI-aware handler. `isEnabled`/`isVisible` take its answer as a parameter, and `getUri` takes its URI as a parameter. How the framework turns an undefined URI into "do not execute" is also not modelled.
- The QuickOpen widget. What it renders, and how one prompt replaces the previous one, are not modelled. `getOptions`, `withProgress`, menu and command registration, and the `new…UriAwareCommandHandler` helpers are not modelled either: they are framework wiring.
- `createSocketConnection`, `forward` and JSON-RPC framing. They are network I/O in an external library: `start` records that it calls them, in order. Message forwarding order and the teardown of the socket on close are not modelled.
- The contribution's static `id`, `name` and `description`. They are configuration.
- `GlspServerContribution.ParseInt`: does not model floating-point rounding of very long digit runs, or infinity. These change neither the value of realistic ports nor truthiness. -0 is represented by 0, with the same truthiness.
- `Enotation.Shape.SetPosition`: what the contained point does on its side of `eInverseRemove`/`eInverseAdd` is not modelled. That includes its container field and any notifications it would add to the chain. The call is recorded and the chain passes through unchanged.
- `Enotation.Shape.SetSize`: what the contained dimension does on its side of the inverse calls is likewise recorded only.
- Features other than position and size, which the generated code hands to the superclass. `eNotificationRequired()` is a constant of the shape, because the adapter list is framework state.
- The real command stack behind the model state. The model keeps only the counts of undoable and redoable commands. `undo()`/`redo()` are called only when `canUndo`/`canRedo` holds, so their behaviour otherwise is left unspecified.
- `GlspServerContribution.EcoreGLServerContribution.Start`: the port checks of Node's `socket.connect` are not modelled. A port outside 0..65535, such as -5007, makes `socket.connect` throw after the forwarding was registered, while the model records `Connect(-5007)` as an ordinary effect.
- The GModel factory. The root it builds is a parameter of `Execute`. The "Cannot undo or redo" warning log is not modelled.
- The diagram configuration module and the save-model handler. They are dependency wiring and a single delegation to an unseen resource manager.
