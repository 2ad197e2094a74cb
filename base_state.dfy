/** The tables of the asynchronous client `BaseLeanLSPClient` as a value,
    and the effect of each of its operations on them as a function. The
    class in `BaseClient` is proved to compute these functions; the lemmas
    here say what the operations promise.

    Unlike the synchronous file manager, this client keeps four separate
    dictionaries keyed by path (`files_finished`, `files_diagnostics`,
    `files_last_update`, `files_content`), and the message pump writes the
    first three for any path the server names, open or not. */
module BaseState {
  import opened Wrappers
  import opened Json
  import opened Protocol
  import opened Framing
  import opened Uri
  import opened OrderedKeys
  import opened Utils
  import opened Retry

  /** The ids `secrets.randbits(64)` draws. */
  type u64 = x: int | 0 <= x < 0x1_0000_0000_0000_0000

  /** `files_finished` values: -2 done, -1 not started, n >= 0 the last
      line processed. */
  const DONE: int := -2
  const NOT_STARTED: int := -1

  const FATAL_TEXT: string := "leanclient: Received LeanFileProgressKind.fatalError from language server."

  /** The diagnostic the pump stores in place of a file's diagnostics when
      the server reports a fatal error. */
  const FATAL_DIAGNOSTIC: Diagnostic := Diagnostic(FATAL_TEXT, None)

  datatype ClientError =
    | TooManyFiles(max: int)      // the RuntimeError of open_files
    | FileNotFound(path: string)
    | KeyError(key: string)

  /** The client's state. `updated` is the key set of `files_last_update`
      (the times themselves are not modelled), `resolved` the responses
      handed to waiting futures in order, `pumping` whether the reader coroutine running
      `_run_stdout` is still alive, and `stdin` every byte written to the
      server. */
  datatype Tables = Tables(
    order: seq<string>,
    finished: map<string, int>,
    diagnostics: map<string, Option<seq<Diagnostic>>>,
    updated: set<string>,
    content: map<string, string>,
    pending: set<int>,
    resolved: seq<Message>,
    pumping: bool,
    stdin: seq<byte>)

  /** The key order of `files_finished` lists its keys once each. */
  ghost predicate Ordered(t: Tables) {
    NoDup(t.order) && Elems(t.order) == t.finished.Keys
  }

  /** Every path in `files_finished` also has an entry in the other three
      dictionaries, as `open_files` creates them. */
  ghost predicate Consistent(t: Tables) {
    && Ordered(t)
    && t.finished.Keys <= t.diagnostics.Keys
    && t.finished.Keys <= t.content.Keys
    && t.finished.Keys <= t.updated
  }

  // ---------------------------------------------------------------------
  // Writing to the server

  /** The bytes `send_request_rpc` writes for one message. */
  function Frame(encode: Json -> seq<byte>, name: string, params: Json, id: Option<int>): seq<byte> {
    EncodeFrame(encode(RequestObject(name, params, id)))
  }

  /** `send_notification`: one frame without an id. */
  function Notify(encode: Json -> seq<byte>, t: Tables, name: string, params: Json): Tables {
    t.(stdin := t.stdin + Frame(encode, name, params, None))
  }

  /** The id the drawing loop settles on: the first draw that is not a
      pending id. `None` when every draw is taken (the source would keep
      drawing). */
  function FirstFresh(draws: seq<u64>, pending: set<int>): (r: Option<u64>)
    ensures r.Some? ==> r.value !in pending
    ensures r.Some? ==> exists i :: 0 <= i < |draws| && draws[i] == r.value && forall j :: 0 <= j < i ==> draws[j] in pending
    ensures r.None? <==> forall i :: 0 <= i < |draws| ==> draws[i] in pending
  {
    if draws == [] then None
    else if draws[0] !in pending then Some(draws[0])
    else
      var r := FirstFresh(draws[1..], pending);
      assert forall i :: 1 <= i < |draws| ==> draws[i] == draws[1..][i - 1];
      if r.Some? then
        var i :| 0 <= i < |draws[1..]| && draws[1..][i] == r.value && forall j :: 0 <= j < i ==> draws[1..][j] in pending;
        assert draws[i + 1] == r.value;
        r
      else r
  }

  /** A request (`is_notification=False`): a fresh id joins `pending` and
      the frame carries it. */
  function Request(encode: Json -> seq<byte>, t: Tables, name: string, params: Json, draws: seq<u64>): (Tables, Option<int>) {
    match FirstFresh(draws, t.pending)
    case None => (t, None)
    case Some(id) =>
      (t.(pending := t.pending + {id as int}, stdin := t.stdin + Frame(encode, name, params, Some(id as int))), Some(id as int))
  }

  // ---------------------------------------------------------------------
  // The message pump

  /** `files_finished[path] = v`: a new key goes to the end. */
  function SetFinished(t: Tables, path: string, v: int): Tables {
    t.(order := Insert(t.order, path), finished := t.finished[path := v])
  }

  /** The fileProgress branch of `_run_stdout`. A last entry without a kind
      raises KeyError inside the pump task, which ends it. */
  function OnProgress(t: Tables, path: string, processing: seq<ProgressEntry>): Tables {
    var t1 := t.(updated := t.updated + {path});
    if processing == [] then SetFinished(t1, path, DONE)
    else
      var last := processing[|processing| - 1];
      if last.kind.None? then t1.(pumping := false)
      else if last.kind.value == FATAL_ERROR_KIND then
        SetFinished(t1.(diagnostics := t1.diagnostics[path := Some([FATAL_DIAGNOSTIC])]), path, DONE)
      else SetFinished(t1, path, last.startLine - 1)
  }

  /** One turn of `_run_stdout` on a decoded message. */
  function Dispatch(pp: string, t: Tables, m: Message): (r: Tables)
    ensures !t.pumping || MethodOf(m) in IGNORED_METHODS ==> r == t
    ensures r.content == t.content && r.stdin == t.stdin
    ensures t.finished.Keys <= r.finished.Keys
    ensures r.pending != t.pending ==> IdOf(m).Some? && r.pending == t.pending - {IdOf(m).value} && IdOf(m).value in t.pending
  {
    if !t.pumping || MethodOf(m) in IGNORED_METHODS then t
    else match m
      case PublishDiagnostics(uri, diagnostics, _) =>
        var path := UriToLocal(pp, uri);
        t.(diagnostics := t.diagnostics[path := Some(diagnostics)], updated := t.updated + {path})
      case FileProgress(uri, processing, _) =>
        OnProgress(t, UriToLocal(pp, uri), processing)
      case _ =>
        var id := IdOf(m);
        if id.Some? && id.value in t.pending then
          t.(pending := t.pending - {id.value}, resolved := t.resolved + [m])
        else t
  }

  function DispatchAll(pp: string, t: Tables, ms: seq<Message>): (r: Tables)
    ensures t.finished.Keys <= r.finished.Keys
    decreases |ms|
  {
    if ms == [] then t else DispatchAll(pp, Dispatch(pp, t, ms[0]), ms[1..])
  }

  /** `_run_stdout` over everything the server writes: frames are read and
      decoded one at a time until the stream ends or a read fails. Each
      body is read whole as `ReadFrame` does, so only a stream that ends
      inside a body cuts one short, and that stops the pump; the dropped
      message of a `read(n)` that returns early mid-stream is
      `ReadFrameChunked`'s. */
  function Pump(pp: string, decode: seq<byte> -> Option<Message>, t: Tables, s: seq<byte>): Tables
    decreases |s|
  {
    if !t.pumping then t
    else match ReadFrame(s)
      case Body(body, rest) =>
        (match decode(body)
         case Some(m) => Pump(pp, decode, Dispatch(pp, t, m), rest)
         case None => t.(pumping := false))
      case _ => t.(pumping := false)
  }

  // ---------------------------------------------------------------------
  // Opening, updating and closing files

  function DidOpenParams(uri: string, text: string): Json {
    JObj([("textDocument", JObj([("uri", JStr(uri)), ("text", JStr(text)),
                                 ("languageId", JStr("lean")), ("version", JInt(1))])),
          ("dependencyBuildMode", JStr("always"))])
  }

  function DidChangeParams(uri: string, changes: seq<DocumentContentChange>): Json {
    JObj([("textDocument", JObj([("uri", JStr(uri)), ("version", JInt(1)), ("languageId", JStr("lean"))])),
          ("contentChanges", JArr(seq(|changes|, i requires 0 <= i < |changes| => GetDict(changes[i]))))])
  }

  function DidCloseParams(uri: string): Json {
    JObj([("textDocument", TextDocument(uri))])
  }

  /** `d[p] = f(p)` for each listed path in turn. */
  function Assign<V>(d: map<string, V>, paths: seq<string>, f: string -> V): (r: map<string, V>)
    ensures r.Keys == d.Keys + Elems(paths)
    ensures forall p :: p in r ==> r[p] == if p in Elems(paths) then f(p) else d[p]
    decreases |paths|
  {
    if paths == [] then d
    else
      var last := paths[|paths| - 1];
      assert Elems(paths) == Elems(paths[..|paths| - 1]) + {last} by {
        assert paths == paths[..|paths| - 1] + [last];
      }
      Assign(d, paths[..|paths| - 1], f)[last := f(last)]
  }

  /** The first loop of `open_files`: each new path is marked not started,
      with a last-update time and no diagnostics. */
  function Register(t: Tables, paths: seq<string>): Tables {
    t.(order := InsertAll(t.order, paths),
       finished := Assign(t.finished, paths, NotStarted),
       updated := t.updated + Elems(paths),
       diagnostics := Assign(t.diagnostics, paths, NoDiagnostics))
  }

  function NotStarted(path: string): int { NOT_STARTED }

  function NoDiagnostics(path: string): Option<seq<Diagnostic>> { None }

  /** One didOpen frame per path, carrying the text read from disk. */
  function DidOpens(pp: string, readFile: string -> string, encode: Json -> seq<byte>, paths: seq<string>): seq<byte>
    decreases |paths|
  {
    if paths == [] then []
    else
      var path := paths[|paths| - 1];
      DidOpens(pp, readFile, encode, paths[..|paths| - 1])
      + Frame(encode, DID_OPEN, DidOpenParams(LocalToUri(pp, path), readFile(path)), None)
  }

  /** `_open_new_files`: each path's text is read and stored, and a didOpen
      sent. */
  function OpenNew(pp: string, readFile: string -> string, encode: Json -> seq<byte>, t: Tables, paths: seq<string>): Tables {
    t.(content := Assign(t.content, paths, readFile),
       stdin := t.stdin + DidOpens(pp, readFile, encode, paths))
  }

  /** One didClose frame per path. */
  function DidCloses(pp: string, encode: Json -> seq<byte>, paths: seq<string>): seq<byte>
    decreases |paths|
  {
    if paths == [] then []
    else DidCloses(pp, encode, paths[..|paths| - 1])
         + Frame(encode, DID_CLOSE, DidCloseParams(LocalToUri(pp, paths[|paths| - 1])), None)
  }

  /** The four `del` statements for one path, in the source's order; the
      first missing key raises KeyError. */
  function DeleteOne(t: Tables, path: string): (Tables, Result<(), ClientError>) {
    if path !in t.finished then (t, Err(KeyError(path)))
    else
      var t1 := t.(order := Remove(t.order, path), finished := t.finished - {path});
      if path !in t1.diagnostics then (t1, Err(KeyError(path)))
      else
        var t2 := t1.(diagnostics := t1.diagnostics - {path});
        if path !in t2.content then (t2, Err(KeyError(path)))
        else
          var t3 := t2.(content := t2.content - {path});
          if path !in t3.updated then (t3, Err(KeyError(path)))
          else (t3.(updated := t3.updated - {path}), Ok(()))
  }

  /** The deletion loop of `close_files`, stopping at the first error. */
  function DeleteEach(t: Tables, paths: seq<string>): (Tables, Result<(), ClientError>)
    decreases |paths|
  {
    if paths == [] then (t, Ok(()))
    else
      var (u, res) := DeleteEach(t, paths[..|paths| - 1]);
      if res.Err? then (u, res) else DeleteOne(u, paths[|paths| - 1])
  }

  /** `close_files`: paths not open are skipped; a didClose goes out for
      each remaining one (repetitions included) before any deletion. */
  function AfterClose(pp: string, encode: Json -> seq<byte>, t: Tables, paths: seq<string>): (Tables, Result<(), ClientError>) {
    var open := Only(paths, t.finished.Keys);
    DeleteEach(t.(stdin := t.stdin + DidCloses(pp, encode, open)), open)
  }

  /** The tables once the paths of a request not yet open are registered
      and opened. */
  function Grown(pp: string, readFile: string -> string, encode: Json -> seq<byte>, t: Tables, paths: seq<string>): Tables {
    var newFiles := Without(paths, t.finished.Keys);
    OpenNew(pp, readFile, encode, Register(t, newFiles), newFiles)
  }

  /** The closing phase of `open_files`: the oldest paths not requested
      are closed until at most `max` remain. */
  function Evict(pp: string, encode: Json -> seq<byte>, max: int, t: Tables, paths: seq<string>): (Tables, Result<(), ClientError>) {
    var removeCount := |t.order| - max;
    if removeCount > 0 then AfterClose(pp, encode, t, EvictionList(t.order, Elems(paths), removeCount))
    else (t, Ok(()))
  }

  /** `open_files`: at most `max` paths at once; new paths are registered
      and opened, then the oldest others are closed. */
  function AfterOpen(pp: string, readFile: string -> string, encode: Json -> seq<byte>, max: int,
                     t: Tables, paths: seq<string>): (Tables, Result<(), ClientError>)
  {
    if |paths| > max then (t, Err(TooManyFiles(max)))
    else Evict(pp, encode, max, Grown(pp, readFile, encode, t, paths), paths)
  }

  /** `update_file`: the stored text is edited locally and the changes sent. */
  function AfterUpdate(pp: string, encode: Json -> seq<byte>, applyChanges: (string, seq<DocumentContentChange>) -> string,
                       t: Tables, path: string, changes: seq<DocumentContentChange>): (Tables, Result<(), ClientError>)
  {
    if path !in t.finished then (t, Err(FileNotFound(path)))
    else if path !in t.content then (t, Err(KeyError(path)))
    else
      var text := applyChanges(t.content[path], changes);
      (Notify(encode, t.(content := t.content[path := text]), DID_CHANGE, DidChangeParams(LocalToUri(pp, path), changes)), Ok(()))
  }

  /** `get_file_content`. */
  function FileContent(t: Tables, path: string): (r: Result<string, ClientError>)
    ensures r.Ok? <==> path in t.content
    ensures r.Err? ==> r.error == FileNotFound(path)
  {
    if path in t.content then Ok(t.content[path]) else Err(FileNotFound(path))
  }

  // ---------------------------------------------------------------------
  // Waiting for a line

  /** `wait_for_line`'s exit test. */
  predicate LineReached(t: Tables, path: string, line: int)
    requires path in t.finished
  {
    t.finished[path] == DONE || t.finished[path] >= line
  }

  /** The polling loop of `wait_for_line`. `ticks` holds, for each sleep
      that ends before the deadline, the messages the pump handles
      meanwhile, and `last` those of the sleep after which the deadline has
      passed: the loop then answers false without looking again. */
  function PollLine(pp: string, t: Tables, path: string, line: int, ticks: seq<seq<Message>>, last: seq<Message>): (Tables, bool)
    requires path in t.finished
    decreases |ticks|
  {
    if LineReached(t, path, line) then (t, true)
    else if ticks == [] then (DispatchAll(pp, t, last), false)
    else PollLine(pp, DispatchAll(pp, t, ticks[0]), path, line, ticks[1..], last)
  }

  /** `wait_for_line`: open the file, then poll. */
  function WaitForLine(pp: string, readFile: string -> string, encode: Json -> seq<byte>, max: int,
                       t: Tables, path: string, line: int, ticks: seq<seq<Message>>, last: seq<Message>)
    : (Tables, Result<bool, ClientError>)
  {
    var (t1, opened_) := AfterOpen(pp, readFile, encode, max, t, [path]);
    if opened_.Err? then (t1, Err(opened_.error))
    else
      assert path in t1.finished by {
        OpenedStaysFinished(pp, readFile, encode, max, t, [path]);
      }
      var (t2, reached) := PollLine(pp, t1, path, line, ticks, last);
      (t2, Ok(reached))
  }

  // ---------------------------------------------------------------------
  // Retrying a request

  /** `send_request_retry`: open the file, then ask until the answer has
      repeated `retries` times. `responses` are the answers in order. */
  function SendRequestRetry(pp: string, readFile: string -> string, encode: Json -> seq<byte>, max: int,
                            t: Tables, path: string, responses: seq<Json>, retries: int)
    : (Tables, Result<Option<Json>, ClientError>, nat)
  {
    var (t1, opened_) := AfterOpen(pp, readFile, encode, max, t, [path]);
    if opened_.Err? then (t1, Err(opened_.error), 0)
    else
      var (r, sent) := Settle(SENTINEL, responses, retries);
      (t1, Ok(r), sent)
  }

  // ---------------------------------------------------------------------
  // Properties

  /** The tables without the given paths in any of the four dictionaries. */
  function Removed(t: Tables, gone: set<string>): Tables {
    t.(order := Without(t.order, gone), finished := t.finished - gone, diagnostics := t.diagnostics - gone,
       content := t.content - gone, updated := t.updated - gone)
  }

  lemma RemovedNothing(t: Tables)
    ensures Removed(t, {}) == t
  {
    WithoutNothing(t.order);
    MinusNothing(t.finished);
    MinusNothing(t.content);
    MinusNothing(t.diagnostics);
  }

  lemma RemovedRemoved(t: Tables, gone: set<string>, x: string)
    ensures Removed(Removed(t, gone), {x}) == Removed(t, gone + {x})
  {
    WithoutWithout(t.order, gone, {x});
    MinusUnion(t.finished, gone, {x});
    MinusUnion(t.content, gone, {x});
    MinusUnion(t.diagnostics, gone, {x});
    assert t.updated - gone - {x} == t.updated - (gone + {x});
  }

  lemma RemovedOrdered(t: Tables, gone: set<string>)
    requires Ordered(t)
    ensures Ordered(Removed(t, gone))
  {
    WithoutNoDup(t.order, gone);
  }

  lemma RemovedConsistent(t: Tables, gone: set<string>)
    requires Consistent(t)
    ensures Consistent(Removed(t, gone))
  {
    WithoutNoDup(t.order, gone);
  }

  /** One path's deletion gets through exactly when the path is in all
      four dictionaries, and then removes it from each. */
  lemma DeleteOneOk(t: Tables, path: string)
    ensures DeleteOne(t, path).1.Ok? <==>
      path in t.finished && path in t.diagnostics && path in t.content && path in t.updated
    ensures DeleteOne(t, path).1.Ok? ==> DeleteOne(t, path).0 == Removed(t, {path})
  {
  }

  /** A deletion loop that gets through removes every listed path from all
      four dictionaries and from the key order, whatever the tables held. */
  lemma {:induction false} DeleteEachOk(t: Tables, paths: seq<string>)
    ensures DeleteEach(t, paths).1.Ok? ==> DeleteEach(t, paths).0 == Removed(t, Elems(paths))
    decreases |paths|
  {
    if paths == [] {
      RemovedNothing(t);
      assert Elems(paths) == {};
    } else {
      var init := paths[..|paths| - 1];
      var x := paths[|paths| - 1];
      DeleteEachOk(t, init);
      var u := DeleteEach(t, init).0;
      if DeleteEach(t, init).1.Ok? && DeleteOne(u, x).1.Ok? {
        DeleteOneOk(u, x);
        RemovedRemoved(t, Elems(init), x);
        assert Elems(paths) == Elems(init) + {x} by {
          assert paths == init + [x];
        }
      }
    }
  }

  /** The loop's step after a prefix without repetitions: a repeated path
      raises KeyError, a fresh one is removed. */
  lemma DeleteEachNext(t: Tables, init: seq<string>, x: string)
    requires Consistent(t) && x in t.finished
    requires DeleteEach(t, init) == (Removed(t, Elems(init)), Ok(()))
    ensures x in init ==> DeleteEach(t, init + [x]) == (Removed(t, Elems(init)), Err(KeyError(x)))
    ensures x !in init ==> DeleteEach(t, init + [x]) == (Removed(t, Elems(init + [x])), Ok(()))
  {
    assert (init + [x])[..|init|] == init;
    var u := Removed(t, Elems(init));
    RemovedConsistent(t, Elems(init));
    DeleteOneOk(u, x);
    if x !in init {
      RemovedRemoved(t, Elems(init), x);
      ElemsSnoc(init, x);
    }
  }

  /** On consistent tables with every listed path open, the deletion loop
      removes the longest prefix of the list without repetitions and stops
      with a KeyError at the first repeated path. */
  lemma {:induction false} DeleteEachEffect(t: Tables, paths: seq<string>)
    requires Consistent(t) && forall p :: p in paths ==> p in t.finished
    ensures var n := DistinctPrefix(paths);
      DeleteEach(t, paths) == (Removed(t, Elems(paths[..n])), if n == |paths| then Ok(()) else Err(KeyError(paths[n])))
    decreases |paths|
  {
    if paths == [] {
      RemovedNothing(t);
      assert Elems(paths[..0]) == {};
    } else {
      var init := paths[..|paths| - 1];
      var x := paths[|paths| - 1];
      assert paths == init + [x];
      DeleteEachEffect(t, init);
      DistinctPrefixSnoc(init, x);
      var m := DistinctPrefix(init);
      assert init[..m] == paths[..m];
      if m < |init| {
        assert paths[m] == init[m];
      } else {
        assert init[..m] == init && paths[..|paths|] == paths;
        DeleteEachNext(t, init, x);
      }
    }
  }

  /** `close_files` on consistent tables: paths that are not open are
      skipped; it gets through exactly when the open paths it was given are
      all different, and then every one of them is gone from all four
      dictionaries. Consistency survives even the KeyError. */
  lemma AfterCloseEffect(pp: string, encode: Json -> seq<byte>, t: Tables, paths: seq<string>)
    requires Consistent(t)
    ensures var (r, res) := AfterClose(pp, encode, t, paths);
      var open := Only(paths, t.finished.Keys);
      && (res.Ok? <==> NoDup(open))
      && (res.Ok? ==> r == Removed(t, Elems(paths) * t.finished.Keys).(stdin := t.stdin + DidCloses(pp, encode, open)))
      && (res.Err? ==> res.error.KeyError? && res.error.key in paths)
      && Consistent(r)
  {
    var open := Only(paths, t.finished.Keys);
    var t1 := t.(stdin := t.stdin + DidCloses(pp, encode, open));
    DeleteEachEffect(t1, open);
    DistinctPrefixFull(open);
    var n := DistinctPrefix(open);
    RemovedConsistent(t1, Elems(open[..n]));
    if n == |open| {
      assert open[..n] == open;
      assert Elems(open) == Elems(paths) * t.finished.Keys;
    } else {
      assert open[n] in open;
    }
  }

  /** The open phase of `open_files` adds the new paths to every
      dictionary and to the end of the key order. */
  lemma GrownKeys(pp: string, readFile: string -> string, encode: Json -> seq<byte>, t: Tables, paths: seq<string>)
    ensures var nf := Without(paths, t.finished.Keys);
      var t1 := Grown(pp, readFile, encode, t, paths);
      && t1.order == InsertAll(t.order, nf)
      && t1.finished.Keys == t.finished.Keys + Elems(nf)
      && t1.diagnostics.Keys == t.diagnostics.Keys + Elems(nf)
      && t1.content.Keys == t.content.Keys + Elems(nf)
      && t1.updated == t.updated + Elems(nf)
  {
  }

  lemma GrownConsistent(pp: string, readFile: string -> string, encode: Json -> seq<byte>, t: Tables, paths: seq<string>)
    requires Consistent(t)
    ensures Consistent(Grown(pp, readFile, encode, t, paths))
  {
    var nf := Without(paths, t.finished.Keys);
    GrownKeys(pp, readFile, encode, t, paths);
    InsertAllNoDup(t.order, nf);
    InsertAllElems(t.order, nf);
  }

  lemma GrownOrdered(pp: string, readFile: string -> string, encode: Json -> seq<byte>, t: Tables, paths: seq<string>)
    requires Ordered(t)
    ensures Ordered(Grown(pp, readFile, encode, t, paths))
  {
    InsertAllNoDup(t.order, Without(paths, t.finished.Keys));
  }

  /** The open phase of `open_files`: the new paths are registered and
      read, already-open ones keep their entries. */
  lemma GrownEntries(pp: string, readFile: string -> string, encode: Json -> seq<byte>, t: Tables, paths: seq<string>)
    ensures var t1 := Grown(pp, readFile, encode, t, paths);
      && (forall p :: p in paths ==> p in t1.finished)
      && (forall p :: p in paths && p !in t.finished ==>
            t1.finished[p] == NOT_STARTED && t1.diagnostics[p] == None && t1.content[p] == readFile(p))
  {
    GrownKeys(pp, readFile, encode, t, paths);
  }

  lemma GrownKeeps(pp: string, readFile: string -> string, encode: Json -> seq<byte>, t: Tables, paths: seq<string>)
    requires Consistent(t)
    ensures var t1 := Grown(pp, readFile, encode, t, paths);
      forall p :: p in t.finished ==>
        t1.finished[p] == t.finished[p] && t1.diagnostics[p] == t.diagnostics[p] && t1.content[p] == t.content[p]
  {
  }

  /** The paths the closing phase of `open_files` closes. */
  function Evicted(max: int, t: Tables, paths: seq<string>): seq<string> {
    EvictionList(t.order, Elems(paths), |t.order| - max)
  }

  /** Whatever the tables held, a closing phase that gets through has
      sent a didClose per evicted open path and removed exactly those paths,
      none of them requested. */
  lemma EvictOk(pp: string, encode: Json -> seq<byte>, max: int, t: Tables, paths: seq<string>)
    ensures var (r, res) := Evict(pp, encode, max, t, paths);
      var e := Evicted(max, t, paths);
      var gone := Elems(e) * t.finished.Keys;
      && gone !! Elems(paths)
      && (res.Ok? ==> r == Removed(t, gone).(stdin := t.stdin + DidCloses(pp, encode, Only(e, t.finished.Keys))))
  {
    var e := Evicted(max, t, paths);
    var open := Only(e, t.finished.Keys);
    assert Elems(open) == Elems(e) * t.finished.Keys;
    if |t.order| - max > 0 {
      var t1 := t.(stdin := t.stdin + DidCloses(pp, encode, open));
      assert Evict(pp, encode, max, t, paths) == DeleteEach(t1, open);
      DeleteEachOk(t1, open);
    } else {
      assert e == [] && open == [];
      assert Elems(e) * t.finished.Keys == {};
      RemovedNothing(t);
      assert t.stdin + [] == t.stdin;
    }
  }

  /** Closing distinct open paths of consistent tables removes exactly
      them, after one didClose each. */
  lemma AfterCloseDistinct(pp: string, encode: Json -> seq<byte>, t: Tables, paths: seq<string>)
    requires Consistent(t) && NoDup(paths) && forall p :: p in paths ==> p in t.finished
    ensures AfterClose(pp, encode, t, paths) == (Removed(t, Elems(paths)).(stdin := t.stdin + DidCloses(pp, encode, paths)), Ok(()))
  {
    OnlyAll(paths, t.finished.Keys);
    var t1 := t.(stdin := t.stdin + DidCloses(pp, encode, paths));
    DeleteEachEffect(t1, paths);
    DistinctPrefixNoDup(paths);
    assert paths[..|paths|] == paths;
  }

  /** On consistent tables with a request that fits, the closing phase
      gets through after one didClose per evicted path, and removes exactly
      those. */
  lemma EvictEffect(pp: string, encode: Json -> seq<byte>, max: int, t: Tables, paths: seq<string>)
    requires Consistent(t)
    ensures var e := Evicted(max, t, paths);
      Evict(pp, encode, max, t, paths) == (Removed(t, Elems(e)).(stdin := t.stdin + DidCloses(pp, encode, e)), Ok(()))
  {
    var e := Evicted(max, t, paths);
    if |t.order| - max > 0 {
      EvictionListNoDup(t.order, Elems(paths), |t.order| - max);
      AfterCloseDistinct(pp, encode, t, e);
    } else {
      assert e == [];
      RemovedNothing(t);
      assert Elems(e) == {};
      assert t.stdin + DidCloses(pp, encode, e) == t.stdin;
    }
  }

  /** ... and leaves the tables consistent with at most `max` files open. */
  lemma EvictKeeps(pp: string, encode: Json -> seq<byte>, max: int, t: Tables, paths: seq<string>)
    requires Consistent(t) && |paths| <= max
    ensures var r := Evict(pp, encode, max, t, paths).0;
      Consistent(r) && |r.order| <= max && r.order == Without(t.order, Elems(Evicted(max, t, paths)))
  {
    var e := Evicted(max, t, paths);
    EvictEffect(pp, encode, max, t, paths);
    EvictionRestoresBound(t.order, paths, max);
    RemovedConsistent(t, Elems(e));
  }

  /** The request fits: `open_files` is its open phase then its closing
      phase. */
  lemma AfterOpenFits(pp: string, readFile: string -> string, encode: Json -> seq<byte>, max: int,
                      t: Tables, paths: seq<string>)
    requires |paths| <= max
    ensures AfterOpen(pp, readFile, encode, max, t, paths) == Evict(pp, encode, max, Grown(pp, readFile, encode, t, paths), paths)
  {
  }

  /** `open_files` on consistent tables with a request that fits: it gets
      through, keeps the tables consistent, leaves at most `max` files
      open, and the ones it closes are the oldest not requested. */
  lemma AfterOpenEffect(pp: string, readFile: string -> string, encode: Json -> seq<byte>, max: int,
                        t: Tables, paths: seq<string>)
    requires Consistent(t) && |paths| <= max
    ensures var (r, res) := AfterOpen(pp, readFile, encode, max, t, paths);
      var grown := InsertAll(t.order, Without(paths, t.finished.Keys));
      && res.Ok?
      && Consistent(r)
      && |r.order| <= max
      && r.order == Without(grown, Elems(EvictionList(grown, Elems(paths), |grown| - max)))
  {
    var t1 := Grown(pp, readFile, encode, t, paths);
    GrownConsistent(pp, readFile, encode, t, paths);
    GrownKeys(pp, readFile, encode, t, paths);
    AfterOpenFits(pp, readFile, encode, max, t, paths);
    EvictEffect(pp, encode, max, t1, paths);
    EvictKeeps(pp, encode, max, t1, paths);
  }

  /** After `open_files` on consistent tables with a request that fits,
      every requested path is open; new paths are not started, have no
      diagnostics and hold the text read from disk; already-open paths keep
      their entries. */
  lemma AfterOpenEntries(pp: string, readFile: string -> string, encode: Json -> seq<byte>, max: int,
                         t: Tables, paths: seq<string>)
    requires Consistent(t) && |paths| <= max
    ensures var r := AfterOpen(pp, readFile, encode, max, t, paths).0;
      forall p :: p in paths ==>
        && p in r.finished && p in r.diagnostics && p in r.content
        && (p !in t.finished ==> r.finished[p] == NOT_STARTED && r.diagnostics[p] == None && r.content[p] == readFile(p))
        && (p in t.finished ==>
              r.finished[p] == t.finished[p] && r.diagnostics[p] == t.diagnostics[p] && r.content[p] == t.content[p])
  {
    var t1 := Grown(pp, readFile, encode, t, paths);
    GrownConsistent(pp, readFile, encode, t, paths);
    GrownEntries(pp, readFile, encode, t, paths);
    GrownKeeps(pp, readFile, encode, t, paths);
    EvictEffect(pp, encode, max, t1, paths);
    var gone := Elems(Evicted(max, t1, paths));
    assert forall p :: p in paths ==> p !in gone;
  }

  /** After a successful `open_files`, whatever the tables held before,
      every requested path is in `files_finished`. */
  lemma OpenedStaysFinished(pp: string, readFile: string -> string, encode: Json -> seq<byte>, max: int,
                            t: Tables, paths: seq<string>)
    ensures var (r, res) := AfterOpen(pp, readFile, encode, max, t, paths);
      res.Ok? ==> forall p :: p in paths ==> p in r.finished
  {
    if |paths| <= max {
      GrownEntries(pp, readFile, encode, t, paths);
      EvictOk(pp, encode, max, Grown(pp, readFile, encode, t, paths), paths);
    }
  }

  /** A closing phase that gets through on ordered tables leaves them
      ordered, with at most `max` files open. */
  lemma EvictOrdered(pp: string, encode: Json -> seq<byte>, max: int, t: Tables, paths: seq<string>)
    requires Ordered(t) && |paths| <= max
    ensures var (r, res) := Evict(pp, encode, max, t, paths);
      res.Ok? ==> Ordered(r) && |r.order| <= max
  {
    var e := Evicted(max, t, paths);
    var (r, res) := Evict(pp, encode, max, t, paths);
    EvictOk(pp, encode, max, t, paths);
    if res.Ok? {
      EvictedOrdered(t, paths, max, e, r);
    }
  }

  /** The tables left once the evicted paths are removed are ordered and
      hold at most `max` files. */
  lemma EvictedOrdered(t: Tables, paths: seq<string>, max: int, e: seq<string>, r: Tables)
    requires Ordered(t) && |paths| <= max
    requires e == EvictionList(t.order, Elems(paths), |t.order| - max)
    requires r.order == Without(t.order, Elems(e) * t.finished.Keys)
    requires r.finished == t.finished - Elems(e) * t.finished.Keys
    ensures Ordered(r) && |r.order| <= max
  {
    var gone := Elems(e) * t.finished.Keys;
    assert gone == Elems(e);
    EvictionRestoresBound(t.order, paths, max);
    RemovedOrdered(t, gone);
  }

  /** A successful `open_files` leaves at most `max` files open, with the
      key order intact. */
  lemma OpenedBounded(pp: string, readFile: string -> string, encode: Json -> seq<byte>, max: int,
                      t: Tables, paths: seq<string>)
    requires Ordered(t)
    ensures var (r, res) := AfterOpen(pp, readFile, encode, max, t, paths);
      res.Ok? ==> Ordered(r) && |r.order| <= max
  {
    if |paths| <= max {
      GrownOrdered(pp, readFile, encode, t, paths);
      AfterOpenFits(pp, readFile, encode, max, t, paths);
      EvictOrdered(pp, encode, max, Grown(pp, readFile, encode, t, paths), paths);
    }
  }

  /** The open phase does nothing when every requested path is open. */
  lemma GrownNothing(pp: string, readFile: string -> string, encode: Json -> seq<byte>, t: Tables, paths: seq<string>)
    requires forall p :: p in paths ==> p in t.finished
    ensures Grown(pp, readFile, encode, t, paths) == t
  {
    var nf := Without(paths, t.finished.Keys);
    WithoutAll(paths, t.finished.Keys);
    assert t.stdin + [] == t.stdin;
  }

  /** Opening a path again right after a successful open changes nothing.
      This is why the re-open before each attempt of `send_request_retry`
      is not repeated in the model. */
  lemma ReopenChangesNothing(pp: string, readFile: string -> string, encode: Json -> seq<byte>, max: int,
                             t: Tables, path: string)
    requires Ordered(t)
    requires AfterOpen(pp, readFile, encode, max, t, [path]).1.Ok?
    ensures var r := AfterOpen(pp, readFile, encode, max, t, [path]).0;
      AfterOpen(pp, readFile, encode, max, r, [path]) == (r, Ok(()))
  {
    OpenedStaysFinished(pp, readFile, encode, max, t, [path]);
    OpenedBounded(pp, readFile, encode, max, t, [path]);
    var r := AfterOpen(pp, readFile, encode, max, t, [path]).0;
    GrownNothing(pp, readFile, encode, r, [path]);
    AfterOpenFits(pp, readFile, encode, max, r, [path]);
  }

  // ---------------------------------------------------------------------
  // Requests, responses and the byte streams

  /** A request takes an id that was not pending, adds exactly it to
      `pending` and writes one frame carrying it; when every draw is taken
      nothing happens. */
  lemma RequestFresh(encode: Json -> seq<byte>, t: Tables, name: string, params: Json, draws: seq<u64>)
    ensures var (r, id) := Request(encode, t, name, params, draws);
      && (id.None? <==> forall i :: 0 <= i < |draws| ==> draws[i] in t.pending)
      && (id.None? ==> r == t)
      && (id.Some? ==>
            && id.value !in t.pending
            && r == t.(pending := t.pending + {id.value}, stdin := t.stdin + Frame(encode, name, params, id)))
  {
  }

  /** The response to a request resolves it: `pending` is back to what it
      was, the response is handed over, and a second response with the
      same id is dropped. */
  lemma RequestThenResponse(pp: string, encode: Json -> seq<byte>, t: Tables, name: string, params: Json,
                            draws: seq<u64>, result: Json)
    requires t.pumping
    requires Request(encode, t, name, params, draws).1.Some?
    ensures var (t1, id) := Request(encode, t, name, params, draws);
      var m := Response(id.value, result);
      var r := Dispatch(pp, t1, m);
      && r.pending == t.pending
      && r.resolved == t.resolved + [m]
      && Dispatch(pp, r, m) == r
  {
    var (t1, id) := Request(encode, t, name, params, draws);
    assert id.value !in t.pending;
    assert t1.pending - {id.value} == t.pending;
  }

  /** A response with an id nobody waits for, and any message with an
      ignored method, changes nothing. */
  lemma UnmatchedChangesNothing(pp: string, t: Tables, m: Message)
    requires MethodOf(m) in IGNORED_METHODS || ((m.Response? || m.ErrorResponse?) && m.id !in t.pending)
    ensures Dispatch(pp, t, m) == t
  {
  }

  /** The bytes written to the server read back as the message bodies, in
      order: a frame appended to a stream of frames is read after them. */
  lemma FrameReadBack(encode: Json -> seq<byte>, bodies: seq<seq<byte>>, name: string, params: Json, id: Option<int>)
    ensures ReadAll(EncodeAll(bodies) + Frame(encode, name, params, id)) == bodies + [encode(RequestObject(name, params, id))]
  {
    var body := encode(RequestObject(name, params, id));
    EncodeAllAppend(bodies, body);
    ReadAllEncodeAll(bodies + [body]);
  }

  /** Once the pump has stopped, later messages change nothing. */
  lemma {:induction false} DispatchAllStopped(pp: string, t: Tables, ms: seq<Message>)
    requires !t.pumping
    ensures DispatchAll(pp, t, ms) == t
    decreases |ms|
  {
    if ms != [] {
      DispatchAllStopped(pp, t, ms[1..]);
    }
  }

  /** The pump over a stream of frames whose bodies decode to `ms`, each
      body read whole, dispatches exactly `ms` in order, then stops at the
      end of the stream. */
  lemma {:induction false} PumpFrames(pp: string, decode: seq<byte> -> Option<Message>, t: Tables,
                                      bodies: seq<seq<byte>>, ms: seq<Message>)
    requires |bodies| == |ms| && forall i :: 0 <= i < |bodies| ==> decode(bodies[i]) == Some(ms[i])
    ensures Pump(pp, decode, t, EncodeAll(bodies)) == DispatchAll(pp, t, ms).(pumping := false)
    decreases |bodies|
  {
    if !t.pumping {
      DispatchAllStopped(pp, t, ms);
    } else if bodies == [] {
      assert ReadFrame([]) == Eof;
    } else {
      ReadEncodedFrame(bodies[0], EncodeAll(bodies[1..]));
      assert decode(bodies[0]) == Some(ms[0]);
      PumpFrames(pp, decode, Dispatch(pp, t, ms[0]), bodies[1..], ms[1..]);
    }
  }

  // ---------------------------------------------------------------------
  // What the pump writes

  /** The fileProgress encoding of `files_finished`: an empty list means
      done, a fatal last entry means done with the synthetic diagnostic,
      any other kind the line before the entry's start; a last entry
      without a kind stops the pump. The path is marked updated in every
      case. */
  lemma ProgressEncoding(pp: string, t: Tables, uri: string, processing: seq<ProgressEntry>, version: Option<int>)
    requires t.pumping
    ensures var path := UriToLocal(pp, uri);
      var r := Dispatch(pp, t, FileProgress(uri, processing, version));
      && path in r.updated
      && r.pending == t.pending && r.resolved == t.resolved
      && (processing == [] ==> r.finished == t.finished[path := DONE] && r.pumping)
      && (processing != [] ==>
            var last := processing[|processing| - 1];
            && (last.kind.None? ==> r.finished == t.finished && !r.pumping)
            && (last.kind == Some(FATAL_ERROR_KIND) ==>
                  r.finished == t.finished[path := DONE] && r.diagnostics == t.diagnostics[path := Some([FATAL_DIAGNOSTIC])])
            && (last.kind.Some? && last.kind.value != FATAL_ERROR_KIND ==>
                  r.finished == t.finished[path := last.startLine - 1] && r.diagnostics == t.diagnostics))
  {
  }

  /** Writing one key of `files_finished` keeps the key order exact. */
  lemma SetFinishedOrdered(t: Tables, path: string, v: int)
    requires Ordered(t)
    ensures Ordered(SetFinished(t, path, v))
  {
    if path !in t.order {
      var o := t.order + [path];
      forall i, j | 0 <= i < j < |o| ensures o[i] != o[j] {
        if j == |t.order| {
          assert o[i] == t.order[i];
        }
      }
    }
  }

  lemma DispatchOrdered(pp: string, t: Tables, m: Message)
    requires Ordered(t)
    ensures Ordered(Dispatch(pp, t, m))
  {
    if t.pumping && MethodOf(m) !in IGNORED_METHODS && m.FileProgress? {
      OnProgressOrdered(t, UriToLocal(pp, m.uri), m.processing);
    }
  }

  lemma OnProgressOrdered(t: Tables, path: string, processing: seq<ProgressEntry>)
    requires Ordered(t)
    ensures Ordered(OnProgress(t, path, processing))
  {
    var t1 := t.(updated := t.updated + {path});
    if processing == [] {
      SetFinishedOrdered(t1, path, DONE);
    } else {
      var last := processing[|processing| - 1];
      if last.kind.Some? && last.kind.value == FATAL_ERROR_KIND {
        SetFinishedOrdered(t1.(diagnostics := t1.diagnostics[path := Some([FATAL_DIAGNOSTIC])]), path, DONE);
      } else if last.kind.Some? {
        SetFinishedOrdered(t1, path, last.startLine - 1);
      }
    }
  }

  /** Whatever the server sends, the key order of `files_finished` stays
      exact. */
  lemma {:induction false} DispatchAllOrdered(pp: string, t: Tables, ms: seq<Message>)
    requires Ordered(t)
    ensures Ordered(DispatchAll(pp, t, ms))
    decreases |ms|
  {
    if ms != [] {
      DispatchOrdered(pp, t, ms[0]);
      DispatchAllOrdered(pp, Dispatch(pp, t, ms[0]), ms[1..]);
    }
  }

  /** A fileProgress for a path that was closed (or never opened) makes
      the path look open, with no text: reading it fails, `update_file`
      and `close_files` raise KeyError, and `open_files` sends no didOpen
      for it. */
  lemma LateProgressStrandsPath(pp: string, readFile: string -> string, encode: Json -> seq<byte>,
                                applyChanges: (string, seq<DocumentContentChange>) -> string,
                                t: Tables, path: string, changes: seq<DocumentContentChange>, version: Option<int>)
    requires t.pumping && path !in t.finished && path !in t.content
    ensures var r := Dispatch(pp, t, FileProgress(LocalToUri(pp, path), [], version));
      && path in r.finished && r.finished[path] == DONE
      && FileContent(r, path) == Err(FileNotFound(path))
      && AfterUpdate(pp, encode, applyChanges, r, path, changes) == (r, Err(KeyError(path)))
      && AfterClose(pp, encode, r, [path]).1 == Err(KeyError(path))
      && Grown(pp, readFile, encode, r, [path]) == r
  {
    UriToLocalOfLocalToUri(pp, path);
    var r := Dispatch(pp, t, FileProgress(LocalToUri(pp, path), [], version));
    OnlyAll([path], r.finished.Keys);
    GrownNothing(pp, readFile, encode, r, [path]);
    var r1 := r.(stdin := r.stdin + DidCloses(pp, encode, [path]));
    assert DeleteEach(r1, [path]) == DeleteOne(DeleteEach(r1, []).0, path) by {
      assert [path][..0] == [];
    }
  }

  // ---------------------------------------------------------------------
  // Updating a file

  /** `update_file` fails with FileNotFoundError on a path that is not
      open, changing nothing; on consistent tables it gets through exactly
      for the open paths, replaces only that path's text with the edited
      one, sends one didChange, and keeps the tables consistent. */
  lemma AfterUpdateEffect(pp: string, encode: Json -> seq<byte>, applyChanges: (string, seq<DocumentContentChange>) -> string,
                          t: Tables, path: string, changes: seq<DocumentContentChange>)
    ensures var (r, res) := AfterUpdate(pp, encode, applyChanges, t, path, changes);
      && (path !in t.finished ==> r == t && res == Err(FileNotFound(path)))
      && (res.Ok? ==>
            && path in t.content
            && r.content == t.content[path := applyChanges(t.content[path], changes)]
            && r.stdin == t.stdin + Frame(encode, DID_CHANGE, DidChangeParams(LocalToUri(pp, path), changes), None)
            && r.(content := t.content, stdin := t.stdin) == t)
      && (Consistent(t) ==> (res.Ok? <==> path in t.finished) && Consistent(r))
  {
  }

  // ---------------------------------------------------------------------
  // Waiting for a line

  /** The tables after the pump has handled the messages of the first `k`
      ticks. */
  function AfterTicks(pp: string, t: Tables, ticks: seq<seq<Message>>, k: nat): (r: Tables)
    requires k <= |ticks|
    ensures t.finished.Keys <= r.finished.Keys
    decreases k
  {
    if k == 0 then t else AfterTicks(pp, DispatchAll(pp, t, ticks[0]), ticks[1..], k - 1)
  }

  /** How many ticks `wait_for_line` sleeps through before it answers
      true, or `|ticks|` when it times out. */
  function Waited(pp: string, t: Tables, path: string, line: int, ticks: seq<seq<Message>>): (k: nat)
    requires path in t.finished
    ensures k <= |ticks|
    decreases |ticks|
  {
    if LineReached(t, path, line) || ticks == [] then 0
    else Waited(pp, DispatchAll(pp, t, ticks[0]), path, line, ticks[1..]) + 1
  }

  /** `wait_for_line` answers true at the first tick where the line is
      reached; it answers false only when no tick before the deadline
      reached it, after handling the messages of the last sleep. */
  lemma {:induction false} PollLineFirst(pp: string, t: Tables, path: string, line: int, ticks: seq<seq<Message>>, last: seq<Message>)
    requires path in t.finished
    ensures var (r, ok) := PollLine(pp, t, path, line, ticks, last);
      var k := Waited(pp, t, path, line, ticks);
      var t_k := AfterTicks(pp, t, ticks, k);
      && path in t_k.finished
      && (ok ==> r == t_k && LineReached(t_k, path, line))
      && (!ok ==> k == |ticks| && !LineReached(t_k, path, line) && r == DispatchAll(pp, t_k, last))
      && forall j :: 0 <= j < k ==> path in AfterTicks(pp, t, ticks, j).finished && !LineReached(AfterTicks(pp, t, ticks, j), path, line)
    decreases |ticks|
  {
    if !LineReached(t, path, line) && ticks != [] {
      var t1 := DispatchAll(pp, t, ticks[0]);
      PollLineFirst(pp, t1, path, line, ticks[1..], last);
      forall j | 0 < j <= Waited(pp, t, path, line, ticks)
        ensures AfterTicks(pp, t, ticks, j) == AfterTicks(pp, t1, ticks[1..], j - 1)
      {
      }
    }
  }

  // ---------------------------------------------------------------------
  // One more path: the steps of the loops over paths

  lemma RegisterStep(t: Tables, paths: seq<string>, i: nat)
    requires i < |paths|
    ensures var p := paths[i];
      var r := Register(t, paths[..i]);
      Register(t, paths[..i + 1]) ==
        r.(order := Insert(r.order, p), finished := r.finished[p := NOT_STARTED],
           updated := r.updated + {p}, diagnostics := r.diagnostics[p := None])
  {
    var q := paths[..i + 1];
    assert q[..i] == paths[..i] && q[i] == paths[i];
    assert Elems(q) == Elems(paths[..i]) + {paths[i]};
    assert InsertAll(t.order, q) == Insert(InsertAll(t.order, paths[..i]), paths[i]);
    assert Assign(t.finished, q, NotStarted) == Assign(t.finished, paths[..i], NotStarted)[paths[i] := NOT_STARTED];
    assert Assign(t.diagnostics, q, NoDiagnostics) == Assign(t.diagnostics, paths[..i], NoDiagnostics)[paths[i] := None];
    assert t.updated + Elems(q) == (t.updated + Elems(paths[..i])) + {paths[i]};
  }

  lemma OpenNewStep(pp: string, readFile: string -> string, encode: Json -> seq<byte>, t: Tables, paths: seq<string>, i: nat)
    requires i < |paths|
    ensures var p := paths[i];
      var r := OpenNew(pp, readFile, encode, t, paths[..i]);
      OpenNew(pp, readFile, encode, t, paths[..i + 1]) ==
        r.(content := r.content[p := readFile(p)],
           stdin := r.stdin + Frame(encode, DID_OPEN, DidOpenParams(LocalToUri(pp, p), readFile(p)), None))
  {
    assert paths[..i + 1][..i] == paths[..i];
    var f := Frame(encode, DID_OPEN, DidOpenParams(LocalToUri(pp, paths[i]), readFile(paths[i])), None);
    var d := DidOpens(pp, readFile, encode, paths[..i]);
    AppendAssoc(t.stdin, d, f);
  }

  lemma DidClosesStep(pp: string, encode: Json -> seq<byte>, out: seq<byte>, paths: seq<string>, i: nat)
    requires i < |paths|
    ensures out + DidCloses(pp, encode, paths[..i + 1]) ==
      out + DidCloses(pp, encode, paths[..i]) + Frame(encode, DID_CLOSE, DidCloseParams(LocalToUri(pp, paths[i])), None)
  {
    assert paths[..i + 1][..i] == paths[..i];
    var f := Frame(encode, DID_CLOSE, DidCloseParams(LocalToUri(pp, paths[i])), None);
    var d := DidCloses(pp, encode, paths[..i]);
    AppendAssoc(out, d, f);
  }

  lemma DeleteEachStep(t: Tables, paths: seq<string>, i: nat)
    requires i < |paths|
    ensures var (u, res) := DeleteEach(t, paths[..i]);
      DeleteEach(t, paths[..i + 1]) == if res.Err? then (u, res) else DeleteOne(u, paths[i])
  {
    assert paths[..i + 1][..i] == paths[..i];
  }

  // ---------------------------------------------------------------------
  // The key order under every operation

  lemma DeleteOneOrdered(t: Tables, path: string)
    requires Ordered(t)
    ensures Ordered(DeleteOne(t, path).0)
  {
    WithoutNoDup(t.order, {path});
  }

  lemma {:induction false} DeleteEachOrdered(t: Tables, paths: seq<string>)
    requires Ordered(t)
    ensures Ordered(DeleteEach(t, paths).0)
    decreases |paths|
  {
    if paths != [] {
      DeleteEachOrdered(t, paths[..|paths| - 1]);
      DeleteOneOrdered(DeleteEach(t, paths[..|paths| - 1]).0, paths[|paths| - 1]);
    }
  }

  /** Once a deletion has failed, the loop is over: later paths change
      nothing. */
  lemma {:induction false} DeleteEachStops(t: Tables, paths: seq<string>, i: nat)
    requires i <= |paths| && DeleteEach(t, paths[..i]).1.Err?
    ensures DeleteEach(t, paths) == DeleteEach(t, paths[..i])
    decreases |paths|
  {
    if i < |paths| {
      assert paths[..|paths| - 1][..i] == paths[..i];
      DeleteEachStops(t, paths[..|paths| - 1], i);
    } else {
      assert paths[..i] == paths;
    }
  }

  /** `close_files` and `open_files` keep the key order exact whatever
      they raise. */
  lemma AfterCloseOrdered(pp: string, encode: Json -> seq<byte>, t: Tables, paths: seq<string>)
    requires Ordered(t)
    ensures Ordered(AfterClose(pp, encode, t, paths).0)
  {
    var open := Only(paths, t.finished.Keys);
    DeleteEachOrdered(t.(stdin := t.stdin + DidCloses(pp, encode, open)), open);
  }

  lemma AfterOpenOrdered(pp: string, readFile: string -> string, encode: Json -> seq<byte>, max: int,
                         t: Tables, paths: seq<string>)
    requires Ordered(t)
    ensures Ordered(AfterOpen(pp, readFile, encode, max, t, paths).0)
  {
    if |paths| <= max {
      var t1 := Grown(pp, readFile, encode, t, paths);
      GrownOrdered(pp, readFile, encode, t, paths);
      AfterOpenFits(pp, readFile, encode, max, t, paths);
      if |t1.order| - max > 0 {
        AfterCloseOrdered(pp, encode, t1, Evicted(max, t1, paths));
      }
    }
  }
}
