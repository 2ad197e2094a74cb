/** The class `LSPFileManager`: the opened-file cache of the synchronous
    client as an object whose fields its methods update in place. Each
    method is proved to compute the function of `FileCache` that specifies
    it, so everything proved there about the functions holds of the object.
    The two notification handlers are ordinary methods here; a method that
    waits receives the notifications delivered meanwhile as an input and
    calls the handlers itself. */
module FileManager {
  import opened Wrappers
  import opened Json
  import opened Protocol
  import opened OrderedKeys
  import opened Utils
  import opened FileState
  import opened FileCache
  import opened Retry

  class LSPFileManager {
    const projectPath: string
    const maxOpenedFiles: int
    /** The text of a file as read from disk, newlines normalised. */
    const readText: string -> string
    /** The local edit `apply_changes_to_text`. */
    const applyChanges: (string, seq<DocumentContentChange>) -> string

    /** The keys of `opened_files` in insertion order, and the map itself. */
    var order: seq<string>
    var files: map<string, State>
    var recentlyClosed: set<string>
    /** Every notification and request handed to the transport so far. */
    var outbox: seq<Outgoing>

    function Snapshot(): Cache
      reads this
    {
      Cache(order, files, recentlyClosed, outbox)
    }

    /** The invariant every public operation keeps. */
    ghost predicate Valid()
      reads this
    {
      Sound(projectPath, Snapshot()) && Bounded(maxOpenedFiles, Snapshot())
    }

    constructor(projectPath: string, maxOpenedFiles: int, readText: string -> string,
                applyChanges: (string, seq<DocumentContentChange>) -> string)
      ensures this.projectPath == projectPath && this.maxOpenedFiles == maxOpenedFiles
      ensures this.readText == readText && this.applyChanges == applyChanges
      ensures Snapshot() == Cache([], map[], {}, [])
      ensures Valid()
    {
      this.projectPath := projectPath;
      this.maxOpenedFiles := maxOpenedFiles;
      this.readText := readText;
      this.applyChanges := applyChanges;
      order := [];
      files := map[];
      recentlyClosed := {};
      outbox := [];
    }

    // -------------------------------------------------------------------
    // The notification handlers

    /** `handle_publish_diagnostics`. */
    method HandlePublishDiagnostics(uri: string, diagnostics: seq<Diagnostic>, version: Option<int>)
      modifies this
      ensures Snapshot() == old(Snapshot()).(files := PublishTo(old(files), PathOf(projectPath, uri), diagnostics, version))
      ensures old(Valid()) ==> Valid()
    {
      var diagVersion := version.GetOr(-2);
      var path := PathOf(projectPath, uri);
      if path !in files {
        return;
      }
      var state := files[path];
      if diagVersion >= state.diagnosticsVersion {
        var hasError := state.error.Some?;
        if !hasError {
          state := state.(diagnostics := diagnostics);
          state := state.(diagnosticsVersion := diagVersion);
          if state.closePending && diagnostics == [] {
            state := state.(closeReady := true);
          }
          assert state == OnPublishDiagnostics(files[path], diagnostics, version);
          files := files[path := state];
        }
      }
    }

    /** `handle_file_progress`. */
    method HandleFileProgress(uri: string, processing: seq<ProgressEntry>)
      modifies this
      ensures Snapshot() == old(Snapshot()).(files := ProgressTo(old(files), PathOf(projectPath, uri), processing))
      ensures old(Valid()) ==> Valid()
    {
      var path := PathOf(projectPath, uri);
      if path !in files {
        return;
      }
      var state := files[path];
      if processing != [] && processing[|processing| - 1].kind == Some(FATAL_ERROR_KIND) {
        state := state.(fatalError := true);
        state := state.(processing := false);
        state := state.(complete := true);
      }
      if processing == [] {
        state := state.(processing := false);
      }
      files := files[path := state];
    }

    /** A server message reaching the registered handlers. */
    method Deliver(m: Message)
      modifies this
      ensures Snapshot() == old(Snapshot()).(files := DeliverTo(projectPath, old(files), m))
      ensures old(Valid()) ==> Valid()
    {
      match m
      case PublishDiagnostics(uri, diagnostics, version) =>
        HandlePublishDiagnostics(uri, diagnostics, version);
      case FileProgress(uri, processing, _) =>
        HandleFileProgress(uri, processing);
      case _ =>
    }

    /** The notifications handled while a method sleeps, in order. */
    method DeliverEach(ms: seq<Message>)
      modifies this
      ensures Snapshot() == old(Snapshot()).(files := DeliverAll(projectPath, old(files), ms))
      ensures old(Valid()) ==> Valid()
    {
      ghost var c := Snapshot();
      for i := 0 to |ms|
        invariant Snapshot() == old(Snapshot()).(files := files)
        invariant DeliverAll(projectPath, old(files), ms) == DeliverAll(projectPath, files, ms[i..])
      {
        assert ms[i..][1..] == ms[i + 1..];
        Deliver(ms[i]);
      }
      DeliverAllEffect(projectPath, c.files, ms);
      if Sound(projectPath, c) {
        EvolvedSound(projectPath, c, files);
      }
    }

    // -------------------------------------------------------------------
    // Opening

    /** `_open_new_files`. */
    method OpenNewFiles(paths: seq<string>, buildMode: string)
      modifies this
      ensures Snapshot() == AfterOpenNew(projectPath, readText, old(Snapshot()), paths, buildMode)
    {
      var uris := UrisFor(projectPath, paths);
      for i := 0 to |paths|
        invariant Snapshot() == AfterOpenNew(projectPath, readText, old(Snapshot()), paths[..i], buildMode)
      {
        var path, uri := paths[i], uris[i];
        var txt := readText(path);
        recentlyClosed := recentlyClosed - {path};
        order := Insert(order, path);
        files := files[path := Opened(txt, uri)];
        outbox := outbox + [Notification(DID_OPEN, DidOpenParams(uri, txt, buildMode))];
        assert paths[..i + 1][..i] == paths[..i];
      }
      assert paths[..|paths|] == paths;
    }

    /** `open_files` (paths are taken as already unquoted). `ms` are the
        notifications handled while an eviction waits. */
    method OpenFiles(paths: seq<string>, ms: seq<Message>) returns (res: Result<(), FileError>)
      requires Valid()
      modifies this
      ensures Valid()
      ensures (Snapshot(), res) == AfterOpen(projectPath, readText, maxOpenedFiles, old(Snapshot()), paths, ms)
    {
      AfterOpenSound(projectPath, readText, maxOpenedFiles, Snapshot(), paths, ms);
      if |paths| > maxOpenedFiles {
        return Err(TooManyFiles(maxOpenedFiles));
      }
      var newFiles := Without(paths, files.Keys);
      if newFiles != [] {
        OpenNewFiles(newFiles, DEFAULT_BUILD_MODE);
      }
      var removeCount := if |order| - maxOpenedFiles > 0 then |order| - maxOpenedFiles else 0;
      if removeCount > 0 {
        var removable := EvictionList(order, Elems(paths), removeCount);
        res := CloseFiles(removable, true, ms);
      } else {
        res := Ok(());
      }
    }

    // -------------------------------------------------------------------
    // Closing

    /** The first loop of a blocking close: every listed file (all open)
        waits for its final diagnostics push. */
    method MarkClosePending(paths: seq<string>)
      requires forall p :: p in paths ==> p in files
      modifies this
      ensures Snapshot() == old(Snapshot()).(files := Flagged(old(files), Elems(paths), true))
    {
      for i := 0 to |paths|
        invariant Snapshot() == old(Snapshot()).(files := files)
        invariant files == Flagged(old(files), Elems(paths[..i]), true)
      {
        var path := paths[i];
        assert Elems(paths[..i + 1]) == Elems(paths[..i]) + {path} by {
          assert paths[..i + 1] == paths[..i] + [path];
        }
        FlaggedStep(old(files), Elems(paths[..i]), path, true);
        var state := files[path];
        state := state.(closePending := true);
        state := state.(closeReady := false);
        files := files[path := state];
      }
      assert paths[..|paths|] == paths;
    }

    /** The loop after the wait: the flags of every listed file still open
        are cleared. */
    method ClearCloseFlags(paths: seq<string>)
      modifies this
      ensures Snapshot() == old(Snapshot()).(files := Flagged(old(files), Elems(paths), false))
    {
      for i := 0 to |paths|
        invariant Snapshot() == old(Snapshot()).(files := files)
        invariant files == Flagged(old(files), Elems(paths[..i]), false)
      {
        var path := paths[i];
        assert Elems(paths[..i + 1]) == Elems(paths[..i]) + {path} by {
          assert paths[..i + 1] == paths[..i] + [path];
        }
        if path in files {
          FlaggedStep(old(files), Elems(paths[..i]), path, false);
          var state := files[path];
          state := state.(closePending := false);
          state := state.(closeReady := false);
          files := files[path := state];
        }
      }
      assert paths[..|paths|] == paths;
    }

    /** Every listed path goes into `_recently_closed`. */
    method RecordClosed(paths: seq<string>)
      modifies this
      ensures Snapshot() == old(Snapshot()).(closed := old(recentlyClosed) + Elems(paths))
    {
      for i := 0 to |paths|
        invariant Snapshot() == old(Snapshot()).(closed := recentlyClosed)
        invariant recentlyClosed == old(recentlyClosed) + Elems(paths[..i])
      {
        assert paths[..i + 1] == paths[..i] + [paths[i]];
        recentlyClosed := recentlyClosed + {paths[i]};
      }
      assert paths[..|paths|] == paths;
    }

    /** One didClose per URI, in order. */
    method SendCloses(uris: seq<string>)
      modifies this
      ensures Snapshot() == old(Snapshot()).(outbox := old(outbox) + DidCloses(uris))
    {
      for i := 0 to |uris|
        invariant Snapshot() == old(Snapshot()).(outbox := outbox)
        invariant outbox == old(outbox) + DidCloses(uris[..i])
      {
        assert DidCloses(uris[..i + 1]) == DidCloses(uris[..i]) + [Notification(DID_CLOSE, DidCloseParams(uris[i]))];
        outbox := outbox + [Notification(DID_CLOSE, DidCloseParams(uris[i]))];
      }
      assert uris[..|uris|] == uris;
    }

    /** The polling wait of a blocking close: notifications are handled one
        by one until every listed file is ready or none are left (the
        deadline). */
    method AwaitCloseReady(paths: seq<string>, ms: seq<Message>)
      modifies this
      ensures Snapshot() == old(Snapshot()).(files := AwaitClose(projectPath, old(files), paths, ms))
    {
      var k := 0;
      while !AllCloseReady(files, paths) && k < |ms|
        invariant k <= |ms|
        invariant Snapshot() == old(Snapshot()).(files := files)
        invariant AwaitClose(projectPath, old(files), paths, ms) == AwaitClose(projectPath, files, paths, ms[k..])
        decreases |ms| - k
      {
        assert ms[k..][1..] == ms[k + 1..];
        Deliver(ms[k]);
        k := k + 1;
      }
    }

    /** The deletion loop: `del opened_files[path]` in turn, stopping with
        the first path no longer present. */
    method DeletePaths(paths: seq<string>) returns (missing: Option<string>)
      modifies this
      ensures (Snapshot(), missing) == DeleteAll(old(Snapshot()), paths)
    {
      for i := 0 to |paths|
        invariant DeleteAll(old(Snapshot()), paths[..i]) == (Snapshot(), None)
      {
        var path := paths[i];
        assert paths[..i + 1][..i] == paths[..i];
        if path !in files {
          DeleteAllStops(old(Snapshot()), paths, i + 1);
          return Some(path);
        }
        order := Remove(order, path);
        files := files - {path};
      }
      assert paths[..|paths|] == paths;
      return None;
    }

    /** `close_files`. `ms` are the notifications handled while a blocking
        close waits. */
    method CloseFiles(paths: seq<string>, blocking: bool, ms: seq<Message>) returns (res: Result<(), FileError>)
      modifies this
      ensures (Snapshot(), res) == AfterClose(projectPath, old(Snapshot()), paths, blocking, ms)
      ensures old(Valid()) ==> Valid()
    {
      AfterCloseKeepsValid(projectPath, maxOpenedFiles, Snapshot(), paths, blocking, ms);
      var check := CloseCheck(paths, files.Keys);
      if check.Some? {
        return Err(check.value);
      }
      var uris := UrisOf(files, paths);
      if blocking {
        MarkClosePending(paths);
      }
      RecordClosed(paths);
      SendCloses(uris);
      if blocking {
        AwaitCloseReady(paths, ms);
        ClearCloseFlags(paths);
      }
      var missing := DeletePaths(paths);
      res := if missing.Some? then Err(KeyError(missing.value)) else Ok(());
    }

    // -------------------------------------------------------------------
    // Editing and reading

    /** `update_file`. */
    method UpdateFile(path: string, changes: seq<DocumentContentChange>) returns (res: Result<(), FileError>)
      requires Valid()
      modifies this
      ensures Valid()
      ensures (Snapshot(), res) == AfterUpdate(old(Snapshot()), path, changes, applyChanges)
    {
      AfterUpdateEffect(projectPath, Snapshot(), path, changes, applyChanges);
      if path !in files {
        return Err(FileNotFound([path]));
      }
      var state := files[path];
      var text := applyChanges(state.content, changes);
      state := state.(content := text);
      state := state.(version := state.version + 1);
      state := state.(diagnostics := []);
      state := state.(diagnosticsVersion := state.version - 1);
      state := state.(processing := true);
      state := state.(error := None);
      state := state.(fatalError := false);
      state := state.(complete := false);
      state := state.(closePending := false);
      state := state.(closeReady := false);
      assert state == AfterChange(files[path], text);
      files := files[path := state];
      outbox := outbox + [Notification(DID_CHANGE, DidChangeParams(state.uri, state.version, changes))];
      res := Ok(());
    }

    /** `get_file_content`. */
    method GetFileContent(path: string) returns (res: Result<string, FileError>)
      ensures res == FileContent(Snapshot(), path)
    {
      if path in files {
        return Ok(files[path].content);
      }
      return Err(FileNotFound([path]));
    }

    // -------------------------------------------------------------------
    // _wait_for_diagnostics

    /** The check before the wait: a file caught up with its own version is
        marked complete; every URI whose file is still not complete is
        collected with that version as its target. */
    method CheckBeforeWait(uris: seq<string>) returns (needing: seq<string>, targets: map<string, int>)
      requires forall u :: u in uris ==> PathOf(projectPath, u) in files
      modifies this
      ensures (files, needing, targets) == Prepass(projectPath, old(files), uris)
      ensures Snapshot() == old(Snapshot()).(files := files)
    {
      needing, targets := [], map[];
      for i := 0 to |uris|
        invariant (files, needing, targets) == Prepass(projectPath, old(files), uris[..i])
        invariant files.Keys == old(files).Keys
        invariant Snapshot() == old(Snapshot()).(files := files)
      {
        var uri := uris[i];
        var path := PathOf(projectPath, uri);
        assert uris[..i + 1][..i] == uris[..i];
        var state := files[path];
        if !state.complete && !state.processing && state.diagnosticsVersion >= state.version {
          state := state.(complete := true);
          files := files[path := state];
        } else {
          assert files[path := state] == files;
        }
        if !state.complete {
          needing := needing + [uri];
          targets := targets[uri := state.version];
        }
      }
      assert uris[..|uris|] == uris;
    }

    /** One waitForDiagnostics request per URI collected. */
    method SendWaitRequests(needing: seq<string>, targets: map<string, int>)
      requires forall u :: u in needing ==> u in targets
      modifies this
      ensures Snapshot() == old(Snapshot()).(outbox := old(outbox) + WaitRequests(needing, targets))
    {
      for i := 0 to |needing|
        invariant Snapshot() == old(Snapshot()).(outbox := outbox)
        invariant outbox == old(outbox) + WaitRequests(needing[..i], targets)
      {
        var uri := needing[i];
        assert WaitRequests(needing[..i + 1], targets) == WaitRequests(needing[..i], targets)
          + [AsyncRequest(WAIT_FOR_DIAGNOSTICS, WaitParams(uri, targets[uri]))];
        outbox := outbox + [AsyncRequest(WAIT_FOR_DIAGNOSTICS, WaitParams(uri, targets[uri]))];
      }
      assert needing[..|needing|] == needing;
    }

    /** The first pass of a poll: every pending URI whose request has
        finished records the outcome and is completed. */
    method FinishDoneRequests(queue: seq<string>, pending: set<string>, done: map<string, WaitOutcome>)
      returns (completed: set<string>)
      modifies this
      ensures (files, completed) == FinishDone(projectPath, old(files), queue, pending, done)
      ensures Snapshot() == old(Snapshot()).(files := files)
    {
      completed := {};
      for i := 0 to |queue|
        invariant (files, completed) == FinishDone(projectPath, old(files), queue[..i], pending, done)
        invariant Snapshot() == old(Snapshot()).(files := files)
      {
        var uri := queue[i];
        var path := PathOf(projectPath, uri);
        assert queue[..i + 1][..i] == queue[..i];
        if uri in pending && uri in done && path in files {
          var state := files[path];
          if done[uri].Failed? {
            state := state.(error := Some(Diagnostic(done[uri].message, None)));
            state := state.(processing := false);
          }
          state := state.(complete := true);
          files := files[path := state];
          completed := completed + {uri};
        }
      }
      assert queue[..|queue|] == queue;
    }

    /** The second pass of a poll: every other pending URI is completed when
        its file is complete or has caught up with the version waited for. */
    method CatchUpRequests(queue: seq<string>, rest: set<string>, targets: map<string, int>)
      returns (completed: set<string>)
      modifies this
      ensures (files, completed) == CatchUp(projectPath, old(files), queue, rest, targets)
      ensures Snapshot() == old(Snapshot()).(files := files)
    {
      completed := {};
      for i := 0 to |queue|
        invariant (files, completed) == CatchUp(projectPath, old(files), queue[..i], rest, targets)
        invariant Snapshot() == old(Snapshot()).(files := files)
      {
        var uri := queue[i];
        var path := PathOf(projectPath, uri);
        assert queue[..i + 1][..i] == queue[..i];
        if uri in rest && uri in targets && path in files {
          var state := files[path];
          if !state.complete && !state.processing && state.diagnosticsVersion >= targets[uri] {
            files := files[path := state.(complete := true)];
            completed := completed + {uri};
          } else {
            assert files[path := state] == files;
            if state.complete {
              completed := completed + {uri};
            }
          }
        }
      }
      assert queue[..|queue|] == queue;
    }

    /** One poll of the wait; returns the URIs still pending. */
    method PollOnce(queue: seq<string>, pending: set<string>, targets: map<string, int>, tick: Tick)
      returns (stillPending: set<string>)
      modifies this
      ensures (files, stillPending) == Poll(projectPath, old(files), queue, pending, targets, tick)
      ensures Snapshot() == old(Snapshot()).(files := files)
    {
      DeliverEach(tick.deliveries);
      var finished := FinishDoneRequests(queue, pending, tick.done);
      var caught := CatchUpRequests(queue, pending - finished, targets);
      stillPending := pending - finished - caught;
    }

    /** The polling loop; running out of ticks is the timeout. */
    method PollUntilDone(queue: seq<string>, pending: set<string>, targets: map<string, int>, ticks: seq<Tick>)
      returns (timedOut: bool)
      modifies this
      ensures (files, timedOut) == Polls(projectPath, old(files), queue, pending, targets, ticks)
      ensures Snapshot() == old(Snapshot()).(files := files)
    {
      var p := pending;
      var k := 0;
      timedOut := false;
      while p != {}
        invariant k <= |ticks|
        invariant Polls(projectPath, old(files), queue, pending, targets, ticks) == Polls(projectPath, files, queue, p, targets, ticks[k..])
        invariant Snapshot() == old(Snapshot()).(files := files)
        invariant !timedOut
        decreases |ticks| - k
      {
        if k == |ticks| {
          timedOut := true;
          break;
        }
        assert ticks[k..][1..] == ticks[k + 1..];
        p := PollOnce(queue, p, targets, ticks[k]);
        k := k + 1;
      }
    }

    /** `_wait_for_diagnostics`; the result says whether it timed out. */
    method WaitForDiagnostics(uris: seq<string>, ticks: seq<Tick>) returns (res: Result<bool, FileError>)
      requires Valid()
      modifies this
      ensures Valid()
      ensures (Snapshot(), res) == AfterWait(projectPath, old(Snapshot()), uris, ticks)
    {
      AfterWaitEffect(projectPath, Snapshot(), uris, ticks);
      var paths := PathsOf(projectPath, uris);
      var missing := Without(paths, files.Keys);
      if missing != [] {
        return Err(FileNotFound(missing));
      }
      MissingNone(projectPath, files, uris);
      PrepassEffect(projectPath, files, uris);
      var needing, targets := CheckBeforeWait(uris);
      if needing == [] {
        return Ok(false);
      }
      SendWaitRequests(needing, targets);
      var timedOut := PollUntilDone(Dedup(needing), Elems(needing), targets, ticks);
      res := Ok(timedOut);
    }

    // -------------------------------------------------------------------
    // _send_request_retry

    /** `_send_request_retry`: the file is opened, then the request is sent
        until the same answer comes back more than `maxRetries` times in a
        row. `responses` are the server's answers in turn (running out of
        them stands for a server that never settles); `ms` are the
        notifications handled if opening evicts. The opening before every
        later attempt is left out: `ReopenChangesNothing` shows it is a
        no-op. */
    method SendRequestRetry(path: string, ms: seq<Message>, responses: seq<Json>, maxRetries: int)
      returns (res: Result<Option<Json>, FileError>, sent: nat)
      requires Valid()
      modifies this
      ensures Valid()
      ensures Snapshot() == AfterOpen(projectPath, readText, maxOpenedFiles, old(Snapshot()), [path], ms).0
      ensures var opened_ := AfterOpen(projectPath, readText, maxOpenedFiles, old(Snapshot()), [path], ms).1;
        var (r, n) := Settle(SENTINEL, responses, maxRetries + 1);
        (res, sent) == if opened_.Err? then (Err(opened_.error), 0) else (Ok(r), n)
    {
      var opened_ := OpenFiles([path], ms);
      if opened_.Err? {
        return Err(opened_.error), 0;
      }
      var r;
      r, sent := RetryUntilStable(SENTINEL, responses, maxRetries + 1);
      res := Ok(r);
    }

    // -------------------------------------------------------------------
    // get_diagnostics

    /** `get_diagnostics`: `ms` are the notifications an eviction handles,
        `ticks` the polls of the wait. */
    method GetDiagnostics(path: string, ms: seq<Message>, ticks: seq<Tick>) returns (res: Result<seq<Diagnostic>, FileError>)
      requires Valid()
      modifies this
      ensures Valid()
      ensures (Snapshot(), res) == AfterGetDiagnostics(projectPath, readText, maxOpenedFiles, old(Snapshot()), path, ms, ticks)
    {
      AfterGetDiagnosticsEffect(projectPath, readText, maxOpenedFiles, Snapshot(), path, ms, ticks);
      var needToOpen := path !in files;
      if needToOpen {
        if path in recentlyClosed {
          recentlyClosed := recentlyClosed - {path};
          return Ok([]);
        }
        var opened_ := OpenFiles([path], ms);
        if opened_.Err? {
          return Err(opened_.error);
        }
      }
      if path !in files {
        return Err(KeyError(path));
      }
      var isComplete := files[path].complete;
      var uri := files[path].uri;
      if !isComplete {
        var waited := WaitForDiagnostics([uri], ticks);
        if waited.Err? {
          return Err(waited.error);
        }
      }
      if path !in files {
        return Err(KeyError(path));
      }
      res := Ok(Answer(files[path]));
    }
  }
}
