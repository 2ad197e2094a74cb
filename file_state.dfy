/** The record the file manager keeps for each opened file, and the pure
    transitions the notification handlers, the edit path and the wait for
    diagnostics apply to it. */
module FileState {
  import opened Wrappers
  import opened Protocol
  import opened Uri
  import opened OrderedKeys

  /** One entry of `opened_files`. `diagnosticsVersion` is the document
      version of the diagnostics held; `complete` says the diagnostics (or an
      error) for the current version are in; `closePending`/`closeReady`
      live only while a blocking close waits for the server's final, empty
      diagnostics push. */
  datatype State = State(
    content: string,
    version: int,
    uri: string,
    diagnostics: seq<Diagnostic>,
    diagnosticsVersion: int,
    processing: bool,
    error: Option<Diagnostic>,
    fatalError: bool,
    complete: bool,
    closePending: bool,
    closeReady: bool)

  /** The message `get_diagnostics` reports when the server signalled a fatal
      error and no diagnostics came with it. */
  const FATAL_MESSAGE: string := "leanclient: Received LeanFileProgressKind.fatalError."

  /** The errors the file manager raises. */
  datatype FileError =
    | TooManyFiles(max: int)
    | FileNotFound(paths: seq<string>)
    | KeyError(key: string)

  /** The reply a `get_diagnostics` call gives for a state. */
  function Answer(s: State): (r: seq<Diagnostic>)
    ensures s.error.Some? ==> r == [s.error.value]
    ensures s.error.None? && s.fatalError && s.diagnostics == [] ==> r == [Diagnostic(FATAL_MESSAGE, None)]
    ensures s.error.None? && !(s.fatalError && s.diagnostics == []) ==> r == s.diagnostics
  {
    if s.error.Some? then [s.error.value]
    else if s.fatalError && s.diagnostics == [] then [Diagnostic(FATAL_MESSAGE, None)]
    else s.diagnostics
  }

  /** A failure is never reported as silence: once an error or a fatal
      progress report is recorded, the answer holds at least one message,
      and the first one says what went wrong. */
  lemma FailureIsReported(s: State)
    requires s.error.Some? || s.fatalError
    ensures |Answer(s)| >= 1
    ensures s.error.Some? ==> Answer(s)[0] == s.error.value
    ensures s.error.None? && s.diagnostics == [] ==> Answer(s)[0].message == FATAL_MESSAGE
  {
  }

  /** The state of a file just opened: version 0, no diagnostics yet
      (diagnostics version -1), processing, nothing failed, not complete. */
  function Opened(content: string, uri: string): (s: State)
    ensures s.content == content && s.uri == uri && s.version == 0
    ensures Answer(s) == [] && !s.complete && s.processing
    ensures s.diagnosticsVersion < s.version
    ensures !s.closePending && !s.closeReady
  {
    State(content, 0, uri, [], -1, true, None, false, false, false, false)
  }

  /** Whether a publishDiagnostics push with this version is taken: it must
      be at least as new as what is held (a push without a version counts as
      -2) and no error may be recorded. */
  predicate Accepts(s: State, version: Option<int>) {
    version.GetOr(-2) >= s.diagnosticsVersion && s.error.None?
  }

  /** `handle_publish_diagnostics` on one file. */
  function OnPublishDiagnostics(s: State, diagnostics: seq<Diagnostic>, version: Option<int>): (r: State)
    ensures Accepts(s, version) ==> r.diagnostics == diagnostics && r.diagnosticsVersion == version.GetOr(-2)
    ensures !Accepts(s, version) ==> r == s
    ensures r.diagnosticsVersion >= s.diagnosticsVersion
    ensures r.closeReady <==> s.closeReady || (Accepts(s, version) && s.closePending && diagnostics == [])
    ensures r.content == s.content && r.version == s.version && r.uri == s.uri
    ensures r.processing == s.processing && r.error == s.error && r.fatalError == s.fatalError
    ensures r.complete == s.complete && r.closePending == s.closePending
  {
    if Accepts(s, version) then
      s.(diagnostics := diagnostics,
         diagnosticsVersion := version.GetOr(-2),
         closeReady := if s.closePending && diagnostics == [] then true else s.closeReady)
    else s
  }

  /** A fileProgress report whose last entry has the fatal-error kind. */
  predicate IsFatal(processing: seq<ProgressEntry>) {
    processing != [] && processing[|processing| - 1].kind == Some(FATAL_ERROR_KIND)
  }

  /** `handle_file_progress` on one file. The version is never consulted. */
  function OnFileProgress(s: State, processing: seq<ProgressEntry>): (r: State)
    ensures IsFatal(processing) ==> r.fatalError && !r.processing && r.complete
    ensures processing == [] ==> r == s.(processing := false)
    ensures processing != [] && !IsFatal(processing) ==> r == s
    ensures r.diagnostics == s.diagnostics && r.diagnosticsVersion == s.diagnosticsVersion && r.error == s.error
    ensures r.content == s.content && r.version == s.version && r.uri == s.uri
    ensures s.complete ==> r.complete
    ensures r.closePending == s.closePending && r.closeReady == s.closeReady
  {
    if IsFatal(processing) then s.(fatalError := true, processing := false, complete := true)
    else if processing == [] then s.(processing := false)
    else s
  }

  /** A fatal progress report with no diagnostics recorded makes the next
      answer the synthetic fatal-error message. */
  lemma FatalProgressAnswer(s: State, processing: seq<ProgressEntry>)
    requires IsFatal(processing) && s.error.None? && s.diagnostics == []
    ensures Answer(OnFileProgress(s, processing)) == [Diagnostic(FATAL_MESSAGE, None)]
  {
  }

  /** The state after `update_file` applied an edit that produced
      `content`: the version goes up by one, the diagnostics held are
      dropped and marked as belonging to the previous version, and every
      flag starts over. */
  function AfterChange(s: State, content: string): (r: State)
    ensures r.content == content && r.uri == s.uri
    ensures r.version == s.version + 1 && r.diagnosticsVersion == r.version - 1
    ensures Answer(r) == [] && r.processing && !r.complete
    ensures !r.closePending && !r.closeReady
  {
    s.(content := content, version := s.version + 1, diagnostics := [],
       diagnosticsVersion := s.version, processing := true, error := None,
       fatalError := false, complete := false, closePending := false, closeReady := false)
  }

  /** The version gate after an edit: a push tagged with a version older
      than the one before the edit (or with none) is dropped. */
  lemma {:induction false} StalePushAfterChange(s: State, content: string, diagnostics: seq<Diagnostic>, version: Option<int>)
    requires version.GetOr(-2) < s.version
    ensures OnPublishDiagnostics(AfterChange(s, content), diagnostics, version) == AfterChange(s, content)
  {
    assert !Accepts(AfterChange(s, content), version);
  }

  /** Whether a file has caught up with version `target` without an answer
      from waitForDiagnostics: not complete yet, no longer processing, and
      diagnostics at least that new. */
  predicate CaughtUp(s: State, target: int) {
    !s.complete && !s.processing && s.diagnosticsVersion >= target
  }

  /** The completion rule of `_wait_for_diagnostics`. */
  function MarkCaughtUp(s: State, target: int): (r: State)
    ensures r.complete <==> s.complete || CaughtUp(s, target)
    ensures r == s.(complete := r.complete)
  {
    if CaughtUp(s, target) then s.(complete := true) else s
  }

  /** How a waitForDiagnostics request ended. */
  datatype WaitOutcome = Resolved | Failed(message: string)

  /** A finished waitForDiagnostics request: a failure is recorded as the
      file's error; either way the file is complete. */
  function OnWaitDone(s: State, outcome: WaitOutcome): (r: State)
    ensures r.complete
    ensures outcome.Failed? ==> r.error == Some(Diagnostic(outcome.message, None)) && !r.processing
    ensures outcome.Resolved? ==> r == s.(complete := true)
    ensures r.content == s.content && r.version == s.version && r.uri == s.uri
    ensures r.diagnostics == s.diagnostics && r.diagnosticsVersion == s.diagnosticsVersion
    ensures r.closePending == s.closePending && r.closeReady == s.closeReady
  {
    match outcome
    case Resolved => s.(complete := true)
    case Failed(msg) => s.(error := Some(Diagnostic(msg, None)), processing := false, complete := true)
  }

  /** A failed wait is what the next answer reports. */
  lemma FailedWaitAnswer(s: State, message: string)
    ensures Answer(OnWaitDone(s, Failed(message))) == [Diagnostic(message, None)]
  {
  }

  /** How a state may change while the file stays open and nobody edits it:
      the document is the same, diagnostics only get newer, completion and a
      ready close are never withdrawn, a close is not started or ended, and
      only a pending close can become ready. */
  predicate Later(a: State, b: State) {
    && a.content == b.content && a.version == b.version && a.uri == b.uri
    && a.diagnosticsVersion <= b.diagnosticsVersion
    && (a.complete ==> b.complete)
    && (a.closeReady ==> b.closeReady)
    && (b.closeReady ==> a.closeReady || a.closePending)
    && a.closePending == b.closePending
  }

  /** `Later` for every file of two maps with the same keys. */
  predicate Evolved(a: map<string, State>, b: map<string, State>) {
    a.Keys == b.Keys && forall p :: p in a ==> Later(a[p], b[p])
  }

  lemma EvolvedTrans(a: map<string, State>, b: map<string, State>, c: map<string, State>)
    requires Evolved(a, b) && Evolved(b, c)
    ensures Evolved(a, c)
  {
  }

  /** Whether a close is neither under way nor left over for any file. */
  predicate NoCloseFlags(files: map<string, State>) {
    forall p :: p in files ==> !files[p].closePending && !files[p].closeReady
  }

  // ---------------------------------------------------------------------
  // The two handlers, on the whole map

  /** The file a notification is about, and whether it is open. */
  function PathOf(projectPath: string, uri: string): string {
    UriToLocal(projectPath, uri)
  }

  /** `handle_publish_diagnostics`: only an open file is touched. */
  function PublishTo(files: map<string, State>, path: string, diagnostics: seq<Diagnostic>, version: Option<int>): (r: map<string, State>)
    ensures path !in files ==> r == files
    ensures path in files ==> r == files[path := OnPublishDiagnostics(files[path], diagnostics, version)]
    ensures Evolved(files, r)
    ensures NoCloseFlags(files) ==> NoCloseFlags(r)
  {
    if path in files then files[path := OnPublishDiagnostics(files[path], diagnostics, version)] else files
  }

  /** `handle_file_progress`: only an open file is touched. */
  function ProgressTo(files: map<string, State>, path: string, processing: seq<ProgressEntry>): (r: map<string, State>)
    ensures path !in files ==> r == files
    ensures path in files ==> r == files[path := OnFileProgress(files[path], processing)]
    ensures Evolved(files, r)
    ensures NoCloseFlags(files) ==> NoCloseFlags(r)
  {
    if path in files then files[path := OnFileProgress(files[path], processing)] else files
  }

  /** The effect of one server message on the opened files: the two
      registered handlers, and nothing for any other message. */
  function DeliverTo(projectPath: string, files: map<string, State>, m: Message): (r: map<string, State>)
    ensures Evolved(files, r)
    ensures NoCloseFlags(files) ==> NoCloseFlags(r)
    ensures !m.PublishDiagnostics? && !m.FileProgress? ==> r == files
  {
    match m
    case PublishDiagnostics(uri, diagnostics, version) => PublishTo(files, PathOf(projectPath, uri), diagnostics, version)
    case FileProgress(uri, processing, _) => ProgressTo(files, PathOf(projectPath, uri), processing)
    case _ => files
  }

  /** A notification about a file that is not open changes nothing. */
  lemma {:induction false} UnknownFileIgnored(projectPath: string, files: map<string, State>, m: Message)
    requires m.PublishDiagnostics? || m.FileProgress?
    requires PathOf(projectPath, m.uri) !in files
    ensures DeliverTo(projectPath, files, m) == files
  {
    match m
    case PublishDiagnostics(uri, d, v) =>
      assert PublishTo(files, PathOf(projectPath, uri), d, v) == files;
    case FileProgress(uri, p, _) =>
      assert ProgressTo(files, PathOf(projectPath, uri), p) == files;
  }

  /** The server's final empty push for a file being closed readies it. */
  lemma {:induction false} EmptyPushReadiesClose(projectPath: string, files: map<string, State>, uri: string, version: Option<int>)
    requires PathOf(projectPath, uri) in files
    requires files[PathOf(projectPath, uri)].closePending
    requires Accepts(files[PathOf(projectPath, uri)], version)
    ensures DeliverTo(projectPath, files, PublishDiagnostics(uri, [], version))[PathOf(projectPath, uri)].closeReady
  {
    var p := PathOf(projectPath, uri);
    assert PublishTo(files, p, [], version)[p] == OnPublishDiagnostics(files[p], [], version);
  }

  // ---------------------------------------------------------------------
  // The precondition check of close_files

  predicate HasNonEmpty(s: seq<string>) {
    exists i :: 0 <= i < |s| && s[i] != ""
  }

  /** What `close_files` raises before it changes anything. The missing
      paths are tested with `any`, which treats the empty string as false:
      when "" is the only missing path the check passes and the lookup of
      its URI that follows raises a KeyError instead. */
  function CloseCheck(paths: seq<string>, open: set<string>): (r: Option<FileError>)
    ensures r.None? <==> forall p :: p in paths ==> p in open
    ensures r.Some? && r.value.FileNotFound? ==> exists p :: p in paths && p !in open && p != ""
    ensures r.Some? && r.value.FileNotFound? ==> r.value.paths == Without(paths, open)
    ensures r.Some? && !r.value.FileNotFound? ==> r.value == KeyError("") && "" in paths && "" !in open
    ensures r.Some? && !r.value.FileNotFound? ==> forall p :: p in paths && p !in open ==> p == ""
  {
    var missing := Without(paths, open);
    if HasNonEmpty(missing) then
      var i :| 0 <= i < |missing| && missing[i] != "";
      assert missing[i] in missing;
      Some(FileNotFound(missing))
    else if missing != [] then
      assert missing[0] in missing && missing[0] == "";
      Some(KeyError(""))
    else None
  }
}
