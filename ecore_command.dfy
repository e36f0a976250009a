/**
 * The "New Ecore-File" command: resolve the directory to create in, ask for a
 * name, a namespace prefix and a namespace URI one prompt after the other, then
 * have the generation service write `<directory>/<name>.ecore` and open it.
 *
 * The services the command talks to (file stats, the quick-open prompt, the
 * generation service, the editor opener) are not executed: every call the
 * command makes to them is recorded in a trace, and the answers they give are
 * parameters (the file system as a map, the generator's outcome as a function).
 */
module EcoreCommand {
  import opened Wrappers
  import opened Uris

  // ---------------------------------------------------------------------------
  // File stats and the directory resolver
  // ---------------------------------------------------------------------------

  /** What the file-stat service reports for one location. */
  datatype FileStat = FileStat(uri: Uri, isDirectory: bool)

  /** The file system as the file-stat service sees it: location text to stat. */
  type FileSystem = map<string, FileStat>

  /** `fileSystem.getFileStat(location)`: undefined for a location that does not exist. */
  function GetFileStat(fs: FileSystem, location: string): Option<FileStat>
  {
    if location in fs then Some(fs[location]) else None
  }

  predicate IsDirectoryAt(fs: FileSystem, location: string)
  {
    location in fs && fs[location].isDirectory
  }

  /** What `getDirectory` resolves to, and the locations it asked about, in order. */
  datatype Resolution = Resolution(stat: Option<FileStat>, queries: seq<string>)

  /** `getParent`: the raw stat of the candidate's parent. */
  function GetParent(fs: FileSystem, candidate: Uri): (r: Option<FileStat>)
    ensures r.Some? <==> ToString(Parent(candidate)) in fs
    ensures r.Some? ==> r.value == fs[ToString(Parent(candidate))]
  {
    GetFileStat(fs, ToString(Parent(candidate)))
  }

  /**
   * `getDirectory`: the candidate itself when it is an existing directory,
   * otherwise whatever the file-stat service says about its parent.
   */
  function GetDirectory(fs: FileSystem, candidate: Uri): (r: Resolution)
    // it asks about the candidate, and at most one level above it
    ensures r.queries == [ToString(candidate)]
         || r.queries == [ToString(candidate), ToString(Parent(candidate))]
    // it stops after the first question exactly when the candidate is a directory
    ensures |r.queries| == 1 <==> IsDirectoryAt(fs, ToString(candidate))
    // the result is the unfiltered answer to the last question asked
    ensures r.stat == GetFileStat(fs, r.queries[|r.queries| - 1])
  {
    var stat := GetFileStat(fs, ToString(candidate));
    if stat.Some? && stat.value.isDirectory then
      Resolution(stat, [ToString(candidate)])
    else
      Resolution(GetParent(fs, candidate), [ToString(candidate), ToString(Parent(candidate))])
  }

  /**
   * A file system in which every entry's stat names its own location, a root
   * is a directory, and the parent of every other entry is an existing directory.
   */
  predicate WellFormed(fs: FileSystem)
  {
    forall location | location in fs ::
      && ToString(fs[location].uri) == location
      && (fs[location].uri.segments == [] ==> fs[location].isDirectory)
      && (fs[location].uri.segments != [] ==> IsDirectoryAt(fs, ToString(Parent(fs[location].uri))))
  }

  /** The URIs the file system reports for its entries. */
  function Entries(fs: FileSystem): set<Uri>
  {
    set location | location in fs :: fs[location].uri
  }

  /**
   * In a well-formed file system a candidate naming an existing entry always
   * resolves to a directory: itself, or the directory the file is in.
   */
  lemma ExistingCandidateResolvesToDirectory(fs: FileSystem, candidate: Uri)
    requires WellFormed(fs)
    requires candidate in Entries(fs)
    ensures GetDirectory(fs, candidate).stat.Some?
    ensures GetDirectory(fs, candidate).stat.value.isDirectory
    ensures !fs[ToString(candidate)].isDirectory ==>
              GetDirectory(fs, candidate).stat == Some(fs[ToString(Parent(candidate))])
  {
    var location :| location in fs && fs[location].uri == candidate;
    assert ToString(candidate) == location;
  }

  /**
   * A well-formed file system with a root, a directory and a file in it: the
   * file resolves to its directory, and the directory to itself.
   */
  lemma WellFormedWorkspace()
    ensures var root, ws, file := Uri("file", []), Uri("file", ["ws"]), Uri("file", ["ws", "a.txt"]);
            var fs := map["file:///" := FileStat(root, true), "file:///ws" := FileStat(ws, true),
                          "file:///ws/a.txt" := FileStat(file, false)];
            && WellFormed(fs)
            && file in Entries(fs)
            && GetDirectory(fs, file).stat == Some(FileStat(ws, true))
            && GetDirectory(fs, ws).stat == Some(FileStat(ws, true))
  {
    var root, ws, file := Uri("file", []), Uri("file", ["ws"]), Uri("file", ["ws", "a.txt"]);
    var fs := map["file:///" := FileStat(root, true), "file:///ws" := FileStat(ws, true),
                  "file:///ws/a.txt" := FileStat(file, false)];
    WorkspaceUris();
    assert WellFormed(fs);
    assert fs["file:///ws/a.txt"].uri == file;
    ExistingCandidateResolvesToDirectory(fs, file);
    ExistingCandidateResolvesToDirectory(fs, ws);
  }

  /** How the three locations of that workspace are written, and their parents. */
  lemma WorkspaceUris()
    ensures var root, ws, file := Uri("file", []), Uri("file", ["ws"]), Uri("file", ["ws", "a.txt"]);
            && ToString(root) == "file:///"
            && ToString(ws) == "file:///ws"
            && ToString(file) == "file:///ws/a.txt"
            && Parent(ws) == root && Parent(file) == ws
  {
    assert PathText(["ws"]) == "/ws";
  }

  /**
   * The parent's stat is not checked: a candidate that does not exist, below an
   * existing file, resolves to that file.
   */
  lemma MissingCandidateUnderFileResolvesToFile()
    ensures var fs := map[ToString(Uri("file", ["ws", "notes.txt"])) := FileStat(Uri("file", ["ws", "notes.txt"]), false)];
            var r := GetDirectory(fs, Uri("file", ["ws", "notes.txt", "missing"]));
            r.stat == Some(FileStat(Uri("file", ["ws", "notes.txt"]), false))
  {
    var file := Uri("file", ["ws", "notes.txt"]);
    var missing := Uri("file", ["ws", "notes.txt", "missing"]);
    assert Parent(missing) == file;
    assert ToString(missing) != ToString(file) by {
      assert |ToString(missing)| > |ToString(file)|;
    }
  }

  // ---------------------------------------------------------------------------
  // WorkspaceRootUriAwareCommandHandler
  // ---------------------------------------------------------------------------

  /**
   * `getUri`: the URI the inherited handler finds in the arguments or the
   * selection; failing that the first workspace root; failing that undefined.
   */
  function GetUri(selected: Option<Uri>, roots: seq<FileStat>): (r: Option<Uri>)
    ensures r.Some? <==> selected.Some? || |roots| > 0
    ensures r.Some? ==> r == selected || (selected.None? && r.value == roots[0].uri)
  {
    if selected.Some? then selected
    else if |roots| > 0 then Some(roots[0].uri)
    else None
  }

  /** `isEnabled`: the inherited decision, and at least one workspace root. */
  predicate IsEnabled(inheritedEnabled: bool, roots: seq<FileStat>)
  {
    inheritedEnabled && |roots| > 0
  }

  /** `isVisible`: the inherited decision, and at least one workspace root. */
  predicate IsVisible(inheritedVisible: bool, roots: seq<FileStat>)
  {
    inheritedVisible && |roots| > 0
  }

  /** Whenever the command is enabled, `getUri` has a URI to hand to the command. */
  lemma EnabledHasUri(inheritedEnabled: bool, selected: Option<Uri>, roots: seq<FileStat>)
    requires IsEnabled(inheritedEnabled, roots)
    ensures GetUri(selected, roots).Some?
    ensures selected.None? ==> GetUri(selected, roots) == Some(roots[0].uri)
  {
  }

  // ---------------------------------------------------------------------------
  // SingleStringInputOpenItem and the prompt's model
  // ---------------------------------------------------------------------------

  datatype QuickOpenMode = Preview | Open | OpenInBackground

  /**
   * A `SingleStringInputOpenItem`: its label, the text its `execute` callback
   * hands on (None for the default callback, which does nothing), and its
   * `canRun` and `canClose` decisions.
   */
  datatype InputItem = InputItem(
    itemLabel: string,
    onEnter: Option<string>,
    canRun: QuickOpenMode -> bool,
    canClose: QuickOpenMode -> bool)

  /** An item built with the constructor's default callbacks. */
  function DefaultItem(itemLabel: string): InputItem
  {
    InputItem(itemLabel, None, m => m == Open, m => true)
  }

  /** What `run(mode)` returns, and whether it called `execute`. */
  datatype RunResult = RunResult(returned: bool, executed: bool)

  /** `run(mode)`: refuse unless `canRun`; otherwise execute once and answer `canClose`. */
  function RunItem(item: InputItem, mode: QuickOpenMode): (r: RunResult)
    ensures r.executed <==> item.canRun(mode)
    ensures r.returned <==> item.canRun(mode) && item.canClose(mode)
  {
    if !item.canRun(mode) then RunResult(false, false)
    else RunResult(item.canClose(mode), true)
  }

  const Suffix := "Press 'Enter' to confirm or 'Escape' to cancel."

  /** The one item each prompt offers for the text typed so far. */
  function PromptItem(prefix: string, lookFor: string): (item: InputItem)
    ensures item.itemLabel == prefix + ": " + lookFor + ". " + Suffix
    ensures item.onEnter == Some(lookFor)
    ensures forall m :: item.canRun(m) <==> m == Open
    ensures forall m :: !item.canClose(m)
  {
    InputItem(prefix + ": " + lookFor + ". " + Suffix, Some(lookFor), m => m == Open, m => false)
  }

  /** `onType`: the items the prompt hands to its acceptor for the typed text. */
  function OnType(prefix: string, lookFor: string): (items: seq<InputItem>)
    ensures |items| == 1 && items[0].onEnter == Some(lookFor)
    ensures items[0].itemLabel == prefix + ": " + lookFor + ". " + Suffix
  {
    [PromptItem(prefix, lookFor)]
  }

  /**
   * A prompt's item executes in OPEN mode only, and never asks the prompt to
   * close, whatever the mode.
   */
  lemma PromptItemRunsOnlyOnOpen(prefix: string, lookFor: string, mode: QuickOpenMode)
    ensures RunItem(OnType(prefix, lookFor)[0], mode) == RunResult(false, mode == Open)
  {
  }

  /** The default item executes in OPEN mode only, and then closes. */
  lemma DefaultItemClosesOnOpen(itemLabel: string, mode: QuickOpenMode)
    ensures RunItem(DefaultItem(itemLabel), mode) == RunResult(mode == Open, mode == Open)
  {
  }

  // ---------------------------------------------------------------------------
  // The command's calls to its services
  // ---------------------------------------------------------------------------

  /** The arguments of one `generateEcore` call. */
  datatype GenerateRequest = GenerateRequest(name: string, nsPrefix: string, nsUri: string, parentPath: string)

  datatype Call =
    | StatQuery(location: string)            // fileSystem.getFileStat
    | ShowInput(hint: string, prefix: string) // quickOpenService.open of one prompt
    | Generate(request: GenerateRequest)     // fileGenServer.generateEcore
    | OpenEditor(location: string)           // open(openerService, uri)

  const NamePrompt := ShowInput("Name", "Name of Ecore ")
  const PrefixPrompt := ShowInput("Prefix", "Prefix")
  const UriPrompt := ShowInput("URI", "URI:")

  /** The location of the file the generator writes for `name` in `dir`. */
  function EcorePath(dir: Uri, name: string): string
  {
    ToString(dir) + "/" + name + ".ecore"
  }

  /**
   * `createEcore`: nothing for an empty name; otherwise one generator call and,
   * when the generator succeeds (`generated`), one open of the new file.
   */
  function CreateEcore(dir: Uri, name: string, nsPrefix: string, nsUri: string,
                       generated: GenerateRequest -> bool): seq<Call>
  {
    if name == "" then []
    else
      var request := GenerateRequest(name, nsPrefix, nsUri, Path(dir));
      [Generate(request)] + if generated(request) then [OpenEditor(EcorePath(dir, name))] else []
  }

  // ---------------------------------------------------------------------------
  // The prompt chain as a state machine
  // ---------------------------------------------------------------------------

  datatype Phase =
    | NoDirectory                                         // no directory resolved: nothing shown
    | AwaitingName(dir: Uri)
    | AwaitingPrefix(dir: Uri, name: string)
    | AwaitingUri(dir: Uri, name: string, nsPrefix: string) // stays on screen after a confirmation
    | Cancelled                                           // the prompt on screen was dismissed

  datatype Session = Session(phase: Phase, trace: seq<Call>)

  /** What the user does to the prompt on screen: run its item for the typed text, or dismiss it. */
  datatype Event = Select(mode: QuickOpenMode, typed: string) | Escape

  /** The text a selection hands to the prompt's `onEnter`, if the item executes. */
  function Confirmed(prefix: string, mode: QuickOpenMode, typed: string): Option<string>
  {
    var item := OnType(prefix, typed)[0];
    if RunItem(item, mode).executed then item.onEnter else None
  }

  /** The command invoked on `candidate`: resolve the directory, then show the first prompt. */
  function Begin(fs: FileSystem, candidate: Uri): (s: Session)
    ensures s.phase.AwaitingName? <==> GetDirectory(fs, candidate).stat.Some?
    ensures s.phase.AwaitingName? ==> s.phase.dir == GetDirectory(fs, candidate).stat.value.uri
    ensures s.phase.NoDirectory? <==> GetDirectory(fs, candidate).stat.None?
  {
    var r := GetDirectory(fs, candidate);
    match r.stat
    case None => Session(NoDirectory, Queries(r.queries))
    case Some(parent) => Session(AwaitingName(parent.uri), Queries(r.queries) + [NamePrompt])
  }

  /** Stat queries, as calls. */
  function Queries(locations: seq<string>): seq<Call>
  {
    if locations == [] then [] else [StatQuery(locations[0])] + Queries(locations[1..])
  }

  /**
   * One user event. A confirmation at the Name or the Prefix prompt opens the
   * next prompt, which takes its place; a confirmation at the URI prompt calls
   * `createEcore`, and since the item never closes the prompt, the URI prompt
   * stays on screen for further selections. A dismissal ends the chain.
   */
  function Step(s: Session, e: Event, generated: GenerateRequest -> bool): (r: Session)
    ensures s.trace <= r.trace
    ensures !Waiting(s.phase) ==> r == s
  {
    match s.phase
    case AwaitingName(dir) =>
      (match e
       case Escape => Session(Cancelled, s.trace)
       case Select(mode, typed) =>
         match Confirmed("Name of Ecore ", mode, typed)
         case None => s
         case Some(name) => Session(AwaitingPrefix(dir, name), s.trace + [PrefixPrompt]))
    case AwaitingPrefix(dir, name) =>
      (match e
       case Escape => Session(Cancelled, s.trace)
       case Select(mode, typed) =>
         match Confirmed("Prefix", mode, typed)
         case None => s
         case Some(nsPrefix) => Session(AwaitingUri(dir, name, nsPrefix), s.trace + [UriPrompt]))
    case AwaitingUri(dir, name, nsPrefix) =>
      (match e
       case Escape => Session(Cancelled, s.trace)
       case Select(mode, typed) =>
         match Confirmed("URI:", mode, typed)
         case None => s
         case Some(nsUri) => Session(s.phase, s.trace + CreateEcore(dir, name, nsPrefix, nsUri, generated)))
    case _ => s
  }

  /** The events one after the other; the calls already made are never taken back. */
  function Run(s: Session, events: seq<Event>, generated: GenerateRequest -> bool): (r: Session)
    ensures s.trace <= r.trace
    decreases |events|
  {
    if events == [] then s else Run(Step(s, events[0], generated), events[1..], generated)
  }

  /** A whole invocation of the command on `candidate`, driven by `events`. */
  function Execute(fs: FileSystem, candidate: Uri, events: seq<Event>,
                   generated: GenerateRequest -> bool): (r: Session)
    ensures Queries(GetDirectory(fs, candidate).queries) <= r.trace
  {
    Run(Begin(fs, candidate), events, generated)
  }

  // ---------------------------------------------------------------------------
  // Reference definition of the command's calls
  // ---------------------------------------------------------------------------

  /** The texts the user confirms (OPEN mode) before the first dismissal. */
  function Answers(events: seq<Event>): seq<string>
  {
    if events == [] then []
    else match events[0]
      case Escape => []
      case Select(mode, typed) => (if mode == Open then [typed] else []) + Answers(events[1..])
  }

  /** The prompts shown after `n` confirmations: one more per answer, three at most. */
  function PromptsFor(n: nat): seq<Call>
  {
    if n == 0 then [NamePrompt]
    else if n == 1 then [NamePrompt, PrefixPrompt]
    else [NamePrompt, PrefixPrompt, UriPrompt]
  }

  /** One `createEcore` per namespace URI confirmed, in order, with the same name and prefix. */
  function Creations(dir: Uri, name: string, nsPrefix: string, nsUris: seq<string>,
                     generated: GenerateRequest -> bool): seq<Call>
    decreases |nsUris|
  {
    if nsUris == [] then []
    else Creations(dir, name, nsPrefix, nsUris[..|nsUris| - 1], generated)
         + CreateEcore(dir, name, nsPrefix, nsUris[|nsUris| - 1], generated)
  }

  /**
   * The prompts and service calls that the answers lead to: one more prompt per
   * answer up to the third, and from the third answer on, one `createEcore`
   * per answer, with the first two answers as name and prefix.
   */
  function Expected(dir: Uri, answers: seq<string>, generated: GenerateRequest -> bool): seq<Call>
  {
    PromptsFor(|answers|)
    + if |answers| >= 2 then Creations(dir, answers[0], answers[1], answers[2..], generated) else []
  }

  predicate Waiting(p: Phase)
  {
    p.AwaitingName? || p.AwaitingPrefix? || p.AwaitingUri?
  }

  /** A waiting phase agrees with the answers confirmed so far. */
  predicate Holds(p: Phase, answers: seq<string>)
  {
    match p
    case AwaitingName(_) => answers == []
    case AwaitingPrefix(_, name) => answers == [name]
    case AwaitingUri(_, name, nsPrefix) => |answers| >= 2 && answers[0] == name && answers[1] == nsPrefix
    case _ => false
  }

  lemma ConfirmedOnlyOnOpen(prefix: string, mode: QuickOpenMode, typed: string)
    ensures Confirmed(prefix, mode, typed) == if mode == Open then Some(typed) else None
  {
  }

  /** Once the chain has ended, no event changes anything. */
  lemma {:induction false} RunWhenEnded(s: Session, events: seq<Event>, generated: GenerateRequest -> bool)
    requires !Waiting(s.phase)
    ensures Run(s, events, generated) == s
    decreases |events|
  {
    if events != [] {
      assert Step(s, events[0], generated) == s;
      RunWhenEnded(s, events[1..], generated);
    }
  }

  /** One more answer adds one prompt, or from the third answer on one `createEcore`. */
  lemma {:induction false} ExpectedExtend(dir: Uri, answers: seq<string>, typed: string,
                                          generated: GenerateRequest -> bool)
    ensures Expected(dir, answers + [typed], generated)
         == Expected(dir, answers, generated)
            + if |answers| == 0 then [PrefixPrompt]
              else if |answers| == 1 then [UriPrompt]
              else CreateEcore(dir, answers[0], answers[1], typed, generated)
  {
    var a := answers + [typed];
    if |answers| >= 2 {
      assert a[0] == answers[0] && a[1] == answers[1];
      assert a[2..] == answers[2..] + [typed];
      assert a[2..][..|a[2..]| - 1] == answers[2..];
      assert Creations(dir, a[0], a[1], a[2..], generated)
          == Creations(dir, answers[0], answers[1], answers[2..], generated)
             + CreateEcore(dir, answers[0], answers[1], typed, generated);
    } else if |answers| == 1 {
      assert a[2..] == [];
    }
  }

  /** From any waiting phase, the trace grows exactly as the reference definition says. */
  lemma {:induction false} RunFromWaiting(s: Session, prior: seq<Call>, given: seq<string>, events: seq<Event>,
                                          generated: GenerateRequest -> bool)
    requires Waiting(s.phase) && Holds(s.phase, given)
    requires s.trace == prior + Expected(s.phase.dir, given, generated)
    ensures Run(s, events, generated).trace == prior + Expected(s.phase.dir, given + Answers(events), generated)
    decreases |events|
  {
    var dir := s.phase.dir;
    if events == [] {
      assert given + [] == given;
    } else {
      var e, rest := events[0], events[1..];
      var s' := Step(s, e, generated);
      match e {
        case Escape =>
          assert s' == Session(Cancelled, s.trace);
          RunWhenEnded(s', rest, generated);
          assert Answers(events) == [];
          assert given + [] == given;
        case Select(mode, typed) =>
          if mode != Open {
            ConfirmedOnlyOnOpen("Name of Ecore ", mode, typed);
            ConfirmedOnlyOnOpen("Prefix", mode, typed);
            ConfirmedOnlyOnOpen("URI:", mode, typed);
            assert s' == s;
            assert Answers(events) == Answers(rest);
            RunFromWaiting(s, prior, given, rest, generated);
          } else {
            assert Answers(events) == [typed] + Answers(rest);
            var given' := given + [typed];
            assert given + Answers(events) == given' + Answers(rest);
            StepOnConfirmation(s, prior, given, typed, generated);
            RunFromWaiting(s', prior, given', rest, generated);
          }
      }
    }
  }

  /** A confirmation in a waiting phase adds exactly the reference definition's next calls. */
  lemma StepOnConfirmation(s: Session, prior: seq<Call>, given: seq<string>, typed: string,
                           generated: GenerateRequest -> bool)
    requires Waiting(s.phase) && Holds(s.phase, given)
    requires s.trace == prior + Expected(s.phase.dir, given, generated)
    ensures var s' := Step(s, Select(Open, typed), generated);
            && Waiting(s'.phase) && s'.phase.dir == s.phase.dir && Holds(s'.phase, given + [typed])
            && s'.trace == prior + Expected(s.phase.dir, given + [typed], generated)
  {
    ConfirmedOnlyOnOpen("Name of Ecore ", Open, typed);
    ConfirmedOnlyOnOpen("Prefix", Open, typed);
    ConfirmedOnlyOnOpen("URI:", Open, typed);
    ExpectedExtend(s.phase.dir, given, typed, generated);
  }

  /**
   * The whole invocation: the directory queries, then, if a directory was
   * found, the prompts and service calls the answers lead to.
   */
  lemma ExecuteMatchesReference(fs: FileSystem, candidate: Uri, events: seq<Event>,
                                generated: GenerateRequest -> bool)
    ensures var r := GetDirectory(fs, candidate);
            Execute(fs, candidate, events, generated).trace
            == Queries(r.queries) + match r.stat
                            case None => []
                            case Some(parent) => Expected(parent.uri, Answers(events), generated)
  {
    var r := GetDirectory(fs, candidate);
    var s := Begin(fs, candidate);
    match r.stat {
      case None =>
        RunWhenEnded(s, events, generated);
      case Some(parent) =>
        assert s.trace == Queries(r.queries) + Expected(parent.uri, [], generated);
        RunFromWaiting(s, Queries(r.queries), [], events, generated);
        assert [] + Answers(events) == Answers(events);
    }
  }

  // ---------------------------------------------------------------------------
  // What the calls add up to
  // ---------------------------------------------------------------------------

  function Prompts(trace: seq<Call>): (r: seq<Call>)
    ensures forall i :: 0 <= i < |r| ==> r[i].ShowInput?
  {
    if trace == [] then []
    else (if trace[0].ShowInput? then [trace[0]] else []) + Prompts(trace[1..])
  }

  function Generations(trace: seq<Call>): seq<GenerateRequest>
  {
    if trace == [] then []
    else (if trace[0].Generate? then [trace[0].request] else []) + Generations(trace[1..])
  }

  function Opens(trace: seq<Call>): seq<string>
  {
    if trace == [] then []
    else (if trace[0].OpenEditor? then [trace[0].location] else []) + Opens(trace[1..])
  }

  lemma {:induction false} FiltersDistribute(a: seq<Call>, b: seq<Call>)
    ensures Prompts(a + b) == Prompts(a) + Prompts(b)
    ensures Generations(a + b) == Generations(a) + Generations(b)
    ensures Opens(a + b) == Opens(a) + Opens(b)
  {
    if a == [] {
      assert a + b == b;
    } else {
      assert (a + b)[1..] == a[1..] + b;
      FiltersDistribute(a[1..], b);
    }
  }

  lemma FiltersOfOne(c: Call)
    ensures Prompts([c]) == if c.ShowInput? then [c] else []
    ensures Generations([c]) == if c.Generate? then [c.request] else []
    ensures Opens([c]) == if c.OpenEditor? then [c.location] else []
  {
    assert [c][1..] == [];
  }

  lemma {:induction false} QueriesCallNoService(locations: seq<string>)
    ensures Prompts(Queries(locations)) == [] && Generations(Queries(locations)) == [] && Opens(Queries(locations)) == []
  {
    if locations != [] {
      FiltersDistribute([StatQuery(locations[0])], Queries(locations[1..]));
      FiltersOfOne(StatQuery(locations[0]));
      QueriesCallNoService(locations[1..]);
    }
  }

  lemma {:induction false} CreateEcoreCalls(dir: Uri, name: string, nsPrefix: string, nsUri: string,
                                            generated: GenerateRequest -> bool)
    ensures var calls := CreateEcore(dir, name, nsPrefix, nsUri, generated);
            var request := GenerateRequest(name, nsPrefix, nsUri, Path(dir));
            && Prompts(calls) == []
            && Generations(calls) == (if name == "" then [] else [request])
            && Opens(calls) == (if name != "" && generated(request) then [EcorePath(dir, name)] else [])
  {
    var request := GenerateRequest(name, nsPrefix, nsUri, Path(dir));
    if name != "" {
      var rest: seq<Call> := if generated(request) then [OpenEditor(EcorePath(dir, name))] else [];
      FiltersDistribute([Generate(request)], rest);
      FiltersOfOne(Generate(request));
      if generated(request) {
        FiltersOfOne(OpenEditor(EcorePath(dir, name)));
      }
    }
  }

  /** How many of the generator calls succeed. */
  function Successes(requests: seq<GenerateRequest>, generated: GenerateRequest -> bool): nat
  {
    if requests == [] then 0
    else (if generated(requests[0]) then 1 else 0) + Successes(requests[1..], generated)
  }

  lemma {:induction false} SuccessesAppend(a: seq<GenerateRequest>, b: seq<GenerateRequest>,
                                           generated: GenerateRequest -> bool)
    ensures Successes(a + b, generated) == Successes(a, generated) + Successes(b, generated)
  {
    if a == [] {
      assert a + b == b;
    } else {
      assert (a + b)[1..] == a[1..] + b;
      SuccessesAppend(a[1..], b, generated);
    }
  }

  /**
   * The `createEcore` calls for the namespace URIs `nsUris`: no prompt; for a
   * non-empty name one generator call per URI, in order, and one open of
   * `<dir>/<name>.ecore` per generator call that succeeds.
   */
  lemma CreationsCalls(dir: Uri, name: string, nsPrefix: string, nsUris: seq<string>,
                       generated: GenerateRequest -> bool)
    ensures var calls := Creations(dir, name, nsPrefix, nsUris, generated);
            var gens := Generations(calls);
            && Prompts(calls) == []
            && |gens| == (if name == "" then 0 else |nsUris|)
            && (forall i :: 0 <= i < |gens| ==> gens[i] == GenerateRequest(name, nsPrefix, nsUris[i], Path(dir)))
            && (forall i :: 0 <= i < |Opens(calls)| ==> Opens(calls)[i] == EcorePath(dir, name))
            && |Opens(calls)| == Successes(gens, generated)
  {
    CreationsGenerations(dir, name, nsPrefix, nsUris, generated);
    CreationsOpens(dir, name, nsPrefix, nsUris, generated);
  }

  lemma CreationsGenerations(dir: Uri, name: string, nsPrefix: string, nsUris: seq<string>,
                             generated: GenerateRequest -> bool)
    ensures var calls := Creations(dir, name, nsPrefix, nsUris, generated);
            var gens := Generations(calls);
            && Prompts(calls) == []
            && |gens| == (if name == "" then 0 else |nsUris|)
            && (forall i :: 0 <= i < |gens| ==> gens[i] == GenerateRequest(name, nsPrefix, nsUris[i], Path(dir)))
  {
    CreationsRequests(dir, name, nsPrefix, nsUris, generated);
    RequestsIndex(name, nsPrefix, nsUris, Path(dir));
  }

  /** The generator requests for the namespace URIs `nsUris`, in order. */
  function Requests(name: string, nsPrefix: string, nsUris: seq<string>, path: string): seq<GenerateRequest>
    decreases |nsUris|
  {
    if nsUris == [] then []
    else Requests(name, nsPrefix, nsUris[..|nsUris| - 1], path)
         + [GenerateRequest(name, nsPrefix, nsUris[|nsUris| - 1], path)]
  }

  lemma {:induction false} RequestsIndex(name: string, nsPrefix: string, nsUris: seq<string>, path: string)
    ensures var r := Requests(name, nsPrefix, nsUris, path);
            |r| == |nsUris| && forall i :: 0 <= i < |r| ==> r[i] == GenerateRequest(name, nsPrefix, nsUris[i], path)
    decreases |nsUris|
  {
    if nsUris != [] {
      var init := nsUris[..|nsUris| - 1];
      RequestsIndex(name, nsPrefix, init, path);
      assert forall i :: 0 <= i < |init| ==> nsUris[i] == init[i];
    }
  }

  lemma {:induction false} CreationsRequests(dir: Uri, name: string, nsPrefix: string, nsUris: seq<string>,
                                             generated: GenerateRequest -> bool)
    ensures var calls := Creations(dir, name, nsPrefix, nsUris, generated);
            && Prompts(calls) == []
            && Generations(calls) == if name == "" then [] else Requests(name, nsPrefix, nsUris, Path(dir))
    decreases |nsUris|
  {
    if nsUris != [] {
      var init, last := nsUris[..|nsUris| - 1], nsUris[|nsUris| - 1];
      var c0 := Creations(dir, name, nsPrefix, init, generated);
      var c1 := CreateEcore(dir, name, nsPrefix, last, generated);
      assert c0 + c1 == Creations(dir, name, nsPrefix, nsUris, generated);
      CreationsRequests(dir, name, nsPrefix, init, generated);
      CreateEcoreCalls(dir, name, nsPrefix, last, generated);
      FiltersDistribute(c0, c1);
    }
  }

  lemma {:induction false} CreationsOpens(dir: Uri, name: string, nsPrefix: string, nsUris: seq<string>,
                                          generated: GenerateRequest -> bool)
    ensures var calls := Creations(dir, name, nsPrefix, nsUris, generated);
            && (forall i :: 0 <= i < |Opens(calls)| ==> Opens(calls)[i] == EcorePath(dir, name))
            && |Opens(calls)| == Successes(Generations(calls), generated)
    decreases |nsUris|
  {
    if nsUris != [] {
      var init, last := nsUris[..|nsUris| - 1], nsUris[|nsUris| - 1];
      var c0 := Creations(dir, name, nsPrefix, init, generated);
      var c1 := CreateEcore(dir, name, nsPrefix, last, generated);
      assert c0 + c1 == Creations(dir, name, nsPrefix, nsUris, generated);
      CreationsOpens(dir, name, nsPrefix, init, generated);
      CreateEcoreCalls(dir, name, nsPrefix, last, generated);
      FiltersDistribute(c0, c1);
      var g1, o0, o1 := Generations(c1), Opens(c0), Opens(c1);
      SuccessesAppend(Generations(c0), g1, generated);
      if name != "" {
        var request := GenerateRequest(name, nsPrefix, last, Path(dir));
        assert g1 == [request];
        assert [request][1..] == [];
        assert Successes(g1, generated) == |o1|;
      }
      assert forall i :: 0 <= i < |o0 + o1| ==> (o0 + o1)[i] == EcorePath(dir, name);
    }
  }

  lemma {:induction false} ExpectedCalls(dir: Uri, answers: seq<string>, generated: GenerateRequest -> bool)
    ensures var calls := Expected(dir, answers, generated);
            && Prompts(calls) == PromptsFor(|answers|)
            && (|answers| < 3 ==> Generations(calls) == [] && Opens(calls) == [])
            && (|answers| >= 2 ==>
                  var c := Creations(dir, answers[0], answers[1], answers[2..], generated);
                  Generations(calls) == Generations(c) && Opens(calls) == Opens(c))
  {
    var prompts := PromptsFor(|answers|);
    var c: seq<Call> := if |answers| >= 2 then Creations(dir, answers[0], answers[1], answers[2..], generated) else [];
    assert Expected(dir, answers, generated) == prompts + c;
    FiltersDistribute(prompts, c);
    PromptsForFilters(|answers|);
    if |answers| >= 2 {
      CreationsCalls(dir, answers[0], answers[1], answers[2..], generated);
      if |answers| == 2 {
        assert answers[2..] == [];
      }
    }
  }

  lemma PromptsForFilters(n: nat)
    ensures Prompts(PromptsFor(n)) == PromptsFor(n)
    ensures Generations(PromptsFor(n)) == [] && Opens(PromptsFor(n)) == []
  {
    FiltersOfOne(NamePrompt);
    FiltersOfOne(PrefixPrompt);
    FiltersOfOne(UriPrompt);
    FiltersDistribute([NamePrompt], [PrefixPrompt]);
    FiltersDistribute([NamePrompt, PrefixPrompt], [UriPrompt]);
    assert [NamePrompt] + [PrefixPrompt] == [NamePrompt, PrefixPrompt];
    assert [NamePrompt, PrefixPrompt] + [UriPrompt] == [NamePrompt, PrefixPrompt, UriPrompt];
  }

  /** The filters of a whole invocation that found a directory are those of the reference calls. */
  lemma ExecuteCalls(fs: FileSystem, candidate: Uri, events: seq<Event>, generated: GenerateRequest -> bool)
    requires GetDirectory(fs, candidate).stat.Some?
    ensures var calls := Expected(GetDirectory(fs, candidate).stat.value.uri, Answers(events), generated);
            var trace := Execute(fs, candidate, events, generated).trace;
            && Prompts(trace) == Prompts(calls)
            && Generations(trace) == Generations(calls)
            && Opens(trace) == Opens(calls)
  {
    var r := GetDirectory(fs, candidate);
    ExecuteMatchesReference(fs, candidate, events, generated);
    QueriesCallNoService(r.queries);
    FiltersDistribute(Queries(r.queries), Expected(r.stat.value.uri, Answers(events), generated));
  }

  /** Without a resolved directory no prompt is shown and no service is called. */
  lemma NoDirectoryNoPrompt(fs: FileSystem, candidate: Uri, events: seq<Event>,
                            generated: GenerateRequest -> bool)
    requires GetDirectory(fs, candidate).stat.None?
    ensures var trace := Execute(fs, candidate, events, generated).trace;
            Prompts(trace) == [] && Generations(trace) == [] && Opens(trace) == []
  {
    ExecuteMatchesReference(fs, candidate, events, generated);
    QueriesCallNoService(GetDirectory(fs, candidate).queries);
    assert Queries(GetDirectory(fs, candidate).queries) + [] == Queries(GetDirectory(fs, candidate).queries);
  }

  /**
   * The prompts come in the order Name, Prefix, URI, each one only after the
   * one before it was confirmed.
   */
  lemma PromptsInOrder(fs: FileSystem, candidate: Uri, events: seq<Event>,
                       generated: GenerateRequest -> bool)
    requires GetDirectory(fs, candidate).stat.Some?
    ensures var n := |Answers(events)|;
            Prompts(Execute(fs, candidate, events, generated).trace) == PromptsFor(n)
  {
    ExecuteCalls(fs, candidate, events, generated);
    ExpectedCalls(GetDirectory(fs, candidate).stat.value.uri, Answers(events), generated);
  }

  /** Answers before the first dismissal are all that count. */
  lemma {:induction false} AnswersStopAtEscape(before: seq<Event>, after: seq<Event>)
    ensures Answers(before + [Escape] + after) == Answers(before)
    decreases |before|
  {
    if before == [] {
      assert before + [Escape] + after == [Escape] + after;
    } else {
      assert (before + [Escape] + after)[1..] == before[1..] + [Escape] + after;
      AnswersStopAtEscape(before[1..], after);
    }
  }

  /** A dismissal before the third confirmation: the generator and the opener are never called. */
  lemma CancelBeforeUriCreatesNothing(fs: FileSystem, candidate: Uri, before: seq<Event>, after: seq<Event>,
                                      generated: GenerateRequest -> bool)
    requires |Answers(before)| < 3
    ensures var trace := Execute(fs, candidate, before + [Escape] + after, generated).trace;
            Generations(trace) == [] && Opens(trace) == []
  {
    var events := before + [Escape] + after;
    AnswersStopAtEscape(before, after);
    NoServiceBeforeThirdAnswer(fs, candidate, events, generated);
  }

  /** Fewer than three confirmations: no generator call and no open. */
  lemma NoServiceBeforeThirdAnswer(fs: FileSystem, candidate: Uri, events: seq<Event>,
                                   generated: GenerateRequest -> bool)
    requires |Answers(events)| < 3
    ensures var trace := Execute(fs, candidate, events, generated).trace;
            Generations(trace) == [] && Opens(trace) == []
  {
    var r := GetDirectory(fs, candidate);
    if r.stat.None? {
      NoDirectoryNoPrompt(fs, candidate, events, generated);
    } else {
      ExecuteCalls(fs, candidate, events, generated);
      ExpectedCalls(r.stat.value.uri, Answers(events), generated);
    }
  }

  /** An empty name: no generator call and no open, whatever the other answers are. */
  lemma EmptyNameCreatesNothing(fs: FileSystem, candidate: Uri, events: seq<Event>,
                                generated: GenerateRequest -> bool)
    requires |Answers(events)| >= 1 && Answers(events)[0] == ""
    ensures var trace := Execute(fs, candidate, events, generated).trace;
            Generations(trace) == [] && Opens(trace) == []
  {
    var r := GetDirectory(fs, candidate);
    if r.stat.None? {
      NoDirectoryNoPrompt(fs, candidate, events, generated);
    } else {
      var a := Answers(events);
      ExecuteCalls(fs, candidate, events, generated);
      ExpectedCalls(r.stat.value.uri, a, generated);
      if |a| >= 2 {
        CreationsCalls(r.stat.value.uri, a[0], a[1], a[2..], generated);
      }
    }
  }

  /**
   * With a non-empty name, every confirmation at the URI prompt is one
   * generator call, with the name, the prefix, that confirmation's text and the
   * directory's path, in the order of the confirmations; and every call that
   * succeeds is one open of `<directory>/<name>.ecore`.
   */
  lemma CreatesOncePerUriConfirmation(fs: FileSystem, candidate: Uri, events: seq<Event>,
                                      generated: GenerateRequest -> bool)
    requires GetDirectory(fs, candidate).stat.Some?
    requires |Answers(events)| >= 2 && Answers(events)[0] != ""
    ensures var dir := GetDirectory(fs, candidate).stat.value.uri;
            var a := Answers(events);
            var trace := Execute(fs, candidate, events, generated).trace;
            var gens := Generations(trace);
            && |gens| == |a| - 2
            && (forall i :: 0 <= i < |gens| ==> gens[i] == GenerateRequest(a[0], a[1], a[2 + i], Path(dir)))
            && (forall i :: 0 <= i < |Opens(trace)| ==> Opens(trace)[i] == EcorePath(dir, a[0]))
            && |Opens(trace)| == Successes(gens, generated)
  {
    var dir := GetDirectory(fs, candidate).stat.value.uri;
    var a := Answers(events);
    ExecuteCalls(fs, candidate, events, generated);
    ExpectedCalls(dir, a, generated);
    CreationsCalls(dir, a[0], a[1], a[2..], generated);
  }

  /**
   * Exactly three confirmations with a non-empty name: exactly one generator
   * call, with the three answers in order and the directory's path; and exactly
   * one open, of `<directory>/<name>.ecore`, if and only if the generator succeeds.
   */
  lemma CreatesOnceAndOpensOnce(fs: FileSystem, candidate: Uri, events: seq<Event>,
                                generated: GenerateRequest -> bool)
    requires GetDirectory(fs, candidate).stat.Some?
    requires |Answers(events)| == 3 && Answers(events)[0] != ""
    ensures var dir := GetDirectory(fs, candidate).stat.value.uri;
            var a := Answers(events);
            var request := GenerateRequest(a[0], a[1], a[2], Path(dir));
            var trace := Execute(fs, candidate, events, generated).trace;
            && Generations(trace) == [request]
            && Opens(trace) == (if generated(request) then [EcorePath(dir, a[0])] else [])
  {
    var dir := GetDirectory(fs, candidate).stat.value.uri;
    var a := Answers(events);
    var request := GenerateRequest(a[0], a[1], a[2], Path(dir));
    var trace := Execute(fs, candidate, events, generated).trace;
    CreatesOncePerUriConfirmation(fs, candidate, events, generated);
    assert Generations(trace) == [request];
    assert [request][1..] == [];
    assert Successes([request], generated) == if generated(request) then 1 else 0;
  }

  /**
   * The walk-through: the command on the directory `/ws/model`, answered
   * "Test", "test" and "http://test.org", with a generator that succeeds.
   */
  lemma NewTestEcoreInModel()
    ensures var dir := Uri("file", ["ws", "model"]);
            var fs := map[ToString(dir) := FileStat(dir, true)];
            var events := [Select(Open, "Test"), Select(Open, "test"), Select(Open, "http://test.org")];
            var trace := Execute(fs, dir, events, _ => true).trace;
            && Generations(trace) == [GenerateRequest("Test", "test", "http://test.org", "/ws/model")]
            && Opens(trace) == ["file:///ws/model/Test.ecore"]
  {
    var dir := Uri("file", ["ws", "model"]);
    var events := [Select(Open, "Test"), Select(Open, "test"), Select(Open, "http://test.org")];
    ModelDirectory();
    assert Answers(events) == ["Test", "test", "http://test.org"] by {
      assert events[1..] == [Select(Open, "test"), Select(Open, "http://test.org")];
      assert events[1..][1..] == [Select(Open, "http://test.org")];
    }
    CreatesOnceAndOpensOnce(map[ToString(dir) := FileStat(dir, true)], dir, events, _ => true);
  }

  /** The directory of the walk-through, `/ws/model`, alone in its file system. */
  lemma ModelDirectory()
    ensures var dir := Uri("file", ["ws", "model"]);
            && Path(dir) == "/ws/model"
            && ToString(dir) == "file:///ws/model"
            && EcorePath(dir, "Test") == "file:///ws/model/Test.ecore"
            && GetDirectory(map[ToString(dir) := FileStat(dir, true)], dir).stat == Some(FileStat(dir, true))
  {
    var dir := Uri("file", ["ws", "model"]);
    assert PathText(["ws"]) == "/ws";
  }

  lemma FourAnswers()
    ensures Answers([Select(Open, "Test"), Select(Open, "test"), Select(Open, "http://test.org"),
                     Select(Open, "http://other.org")])
         == ["Test", "test", "http://test.org", "http://other.org"]
  {
    var events := [Select(Open, "Test"), Select(Open, "test"), Select(Open, "http://test.org"),
                   Select(Open, "http://other.org")];
    assert events[1..] == [Select(Open, "test"), Select(Open, "http://test.org"), Select(Open, "http://other.org")];
    assert events[1..][1..] == [Select(Open, "http://test.org"), Select(Open, "http://other.org")];
    assert events[1..][1..][1..] == [Select(Open, "http://other.org")];
  }

  /**
   * The URI prompt is still on screen after the walk-through: a fourth
   * confirmation, "http://other.org", generates the file a second time with
   * that namespace URI and opens it again.
   */
  lemma FourthConfirmationGeneratesAgain()
    ensures var dir := Uri("file", ["ws", "model"]);
            var fs := map[ToString(dir) := FileStat(dir, true)];
            var events := [Select(Open, "Test"), Select(Open, "test"), Select(Open, "http://test.org"),
                           Select(Open, "http://other.org")];
            var trace := Execute(fs, dir, events, _ => true).trace;
            && Generations(trace) == [GenerateRequest("Test", "test", "http://test.org", "/ws/model"),
                                      GenerateRequest("Test", "test", "http://other.org", "/ws/model")]
            && Opens(trace) == ["file:///ws/model/Test.ecore", "file:///ws/model/Test.ecore"]
  {
    var dir := Uri("file", ["ws", "model"]);
    var events := [Select(Open, "Test"), Select(Open, "test"), Select(Open, "http://test.org"),
                   Select(Open, "http://other.org")];
    ModelDirectory();
    FourAnswers();
    TwoUriConfirmations(map[ToString(dir) := FileStat(dir, true)], dir, events, _ => true,
                        dir, "Test", "test", "http://test.org", "http://other.org");
  }

  /** Two confirmations at the URI prompt with a generator that always succeeds. */
  lemma TwoUriConfirmations(fs: FileSystem, candidate: Uri, events: seq<Event>, generated: GenerateRequest -> bool,
                            dir: Uri, name: string, nsPrefix: string, first: string, second: string)
    requires GetDirectory(fs, candidate).stat == Some(FileStat(dir, true))
    requires Answers(events) == [name, nsPrefix, first, second] && name != ""
    requires forall r :: generated(r)
    ensures var trace := Execute(fs, candidate, events, generated).trace;
            && Generations(trace) == [GenerateRequest(name, nsPrefix, first, Path(dir)),
                                      GenerateRequest(name, nsPrefix, second, Path(dir))]
            && Opens(trace) == [EcorePath(dir, name), EcorePath(dir, name)]
  {
    var trace := Execute(fs, candidate, events, generated).trace;
    CreatesOncePerUriConfirmation(fs, candidate, events, generated);
    var gens := Generations(trace);
    var r1 := GenerateRequest(name, nsPrefix, first, Path(dir));
    var r2 := GenerateRequest(name, nsPrefix, second, Path(dir));
    assert |gens| == 2 && gens[0] == r1 && gens[1] == r2;
    assert gens == [r1, r2];
    assert Successes([r1, r2], generated) == 2 by {
      assert generated(r1) && generated(r2);
      assert [r1, r2][1..] == [r2];
      assert [r2][1..] == [];
      assert Successes([r2], generated) == 1;
    }
    var opens := Opens(trace);
    assert |opens| == 2 && opens[0] == EcorePath(dir, name) && opens[1] == EcorePath(dir, name);
    assert opens == [EcorePath(dir, name), EcorePath(dir, name)];
  }
}
