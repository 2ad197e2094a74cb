/** The class `BaseLeanLSPClient`: the asynchronous client's tables as
    fields its methods update in place. Each method is proved to compute
    the function of `BaseState` that specifies it, so everything proved
    there about the functions holds of the object. The message pump is an
    ordinary method over the bytes the server writes; a method that sleeps
    receives the messages the pump handles meanwhile as an input. */
module BaseClient {
  import opened Wrappers
  import opened Json
  import opened Protocol
  import opened Framing
  import opened Uri
  import opened OrderedKeys
  import opened Utils
  import opened Retry
  import opened BaseState

  class BaseLeanLSPClient {
    const projectPath: string
    const maxOpenedFiles: int
    /** The text of a file as read from disk. */
    const readFile: string -> string
    /** `orjson.dumps` and `orjson.loads` on a message body. */
    const encode: Json -> seq<byte>
    const decode: seq<byte> -> Option<Message>
    /** The local edit `apply_changes_to_text`. */
    const applyChanges: (string, seq<DocumentContentChange>) -> string

    /** The keys of `files_finished` in insertion order, and the four
        dictionaries (`updated` stands for the keys of `files_last_update`). */
    var order: seq<string>
    var finished: map<string, int>
    var diagnostics: map<string, Option<seq<Diagnostic>>>
    var updated: set<string>
    var content: map<string, string>
    /** The ids of `pending`, and the responses handed to their futures. */
    var pending: set<int>
    var resolved: seq<Message>
    /** Whether the pump task is still running. */
    var pumping: bool
    /** Every byte written to the server. */
    var stdin: seq<byte>

    function Snapshot(): Tables
      reads this
    {
      Tables(order, finished, diagnostics, updated, content, pending, resolved, pumping, stdin)
    }

    /** The invariant every operation keeps. */
    ghost predicate Valid()
      reads this
    {
      Ordered(Snapshot())
    }

    constructor(projectPath: string, maxOpenedFiles: int, readFile: string -> string,
                encode: Json -> seq<byte>, decode: seq<byte> -> Option<Message>,
                applyChanges: (string, seq<DocumentContentChange>) -> string)
      ensures this.projectPath == projectPath && this.maxOpenedFiles == maxOpenedFiles
      ensures this.readFile == readFile && this.encode == encode && this.decode == decode
      ensures this.applyChanges == applyChanges
      ensures Snapshot() == Tables([], map[], map[], {}, map[], {}, [], true, [])
      ensures Valid()
    {
      this.projectPath := projectPath;
      this.maxOpenedFiles := maxOpenedFiles;
      this.readFile := readFile;
      this.encode := encode;
      this.decode := decode;
      this.applyChanges := applyChanges;
      order := [];
      finished := map[];
      diagnostics := map[];
      updated := {};
      content := map[];
      pending := {};
      resolved := [];
      pumping := true;
      stdin := [];
    }

    // -------------------------------------------------------------------
    // The message pump

    /** `files_finished[path] = v`. */
    method SetFinished(path: string, v: int)
      modifies this
      ensures Snapshot() == BaseState.SetFinished(old(Snapshot()), path, v)
    {
      order := Insert(order, path);
      finished := finished[path := v];
    }

    /** One turn of `_run_stdout` on a decoded message. */
    method DispatchMessage(m: Message)
      modifies this
      ensures Snapshot() == Dispatch(projectPath, old(Snapshot()), m)
    {
      if !pumping {
        return;
      }
      var method_ := MethodOf(m);
      if method_ in IGNORED_METHODS {
      } else if m.PublishDiagnostics? {
        var path := UriToLocal(projectPath, m.uri);
        diagnostics := diagnostics[path := Some(m.diagnostics)];
        updated := updated + {path};
      } else if m.FileProgress? {
        var proc := m.processing;
        var path := UriToLocal(projectPath, m.uri);
        updated := updated + {path};
        if proc == [] {
          SetFinished(path, DONE);
        } else if proc[|proc| - 1].kind.None? {
          pumping := false;
        } else if proc[|proc| - 1].kind.value == FATAL_ERROR_KIND {
          diagnostics := diagnostics[path := Some([FATAL_DIAGNOSTIC])];
          SetFinished(path, DONE);
        } else {
          SetFinished(path, proc[|proc| - 1].startLine - 1);
        }
      } else {
        var id := IdOf(m);
        if id.Some? && id.value in pending {
          pending := pending - {id.value};
          resolved := resolved + [m];
        }
      }
    }

    /** The messages the pump handles while a method sleeps, in order. */
    method DispatchEach(ms: seq<Message>)
      requires Valid()
      modifies this
      ensures Valid()
      ensures Snapshot() == DispatchAll(projectPath, old(Snapshot()), ms)
    {
      for i := 0 to |ms|
        invariant Valid()
        invariant DispatchAll(projectPath, old(Snapshot()), ms) == DispatchAll(projectPath, Snapshot(), ms[i..])
      {
        assert ms[i..][1..] == ms[i + 1..];
        DispatchOrdered(projectPath, Snapshot(), ms[i]);
        DispatchMessage(ms[i]);
      }
    }

    /** `_run_stdout` over everything the server writes: read a frame
        (its body whole, as `ReadFrame` does), decode it, dispatch it,
        until a read or a decoding fails. */
    method RunStdout(s: seq<byte>)
      requires Valid()
      modifies this
      ensures Valid()
      ensures Snapshot() == Pump(projectPath, decode, old(Snapshot()), s)
    {
      var rest := s;
      while pumping
        invariant Valid()
        invariant Pump(projectPath, decode, old(Snapshot()), s) == Pump(projectPath, decode, Snapshot(), rest)
        decreases |rest| + (if pumping then 1 else 0)
      {
        match ReadFrame(rest) {
          case Body(body, next) =>
            match decode(body) {
              case Some(m) =>
                DispatchOrdered(projectPath, Snapshot(), m);
                DispatchMessage(m);
                rest := next;
              case None =>
                pumping := false;
            }
          case _ =>
            pumping := false;
        }
      }
    }

    // -------------------------------------------------------------------
    // Writing to the server

    /** The id-drawing loop of `send_request_rpc`: draw until the id is
        not pending. */
    method NewRequestId(draws: seq<u64>) returns (id: Option<u64>)
      ensures id == FirstFresh(draws, pending)
    {
      if draws == [] {
        return None;
      }
      var i := 0;
      var requestId := draws[0];
      while requestId in pending
        invariant 0 <= i < |draws| && requestId == draws[i]
        invariant FirstFresh(draws, pending) == FirstFresh(draws[i..], pending)
        decreases |draws| - i
      {
        assert draws[i..][1..] == draws[i + 1..];
        i := i + 1;
        if i == |draws| {
          return None;
        }
        requestId := draws[i];
      }
      id := Some(requestId);
    }

    /** `send_request_rpc`: a notification is written as it is; a request
        first takes a fresh id and registers it as pending. The answer
        reaches `resolved` through the pump. */
    method SendRequestRpc(name: string, params: Json, isNotification: bool, draws: seq<u64>) returns (id: Option<int>)
      modifies this
      ensures isNotification ==> id.None? && Snapshot() == Notify(encode, old(Snapshot()), name, params)
      ensures !isNotification ==> (Snapshot(), id) == Request(encode, old(Snapshot()), name, params, draws)
    {
      if isNotification {
        stdin := stdin + Frame(encode, name, params, None);
        return None;
      }
      var drawn := NewRequestId(draws);
      if drawn.None? {
        return None;
      }
      id := Some(drawn.value as int);
      pending := pending + {drawn.value as int};
      stdin := stdin + Frame(encode, name, params, id);
    }

    // -------------------------------------------------------------------
    // Opening files

    /** The registration loop of `open_files`. */
    method RegisterNew(paths: seq<string>)
      modifies this
      ensures Snapshot() == Register(old(Snapshot()), paths)
    {
      for i := 0 to |paths|
        invariant Snapshot() == Register(old(Snapshot()), paths[..i])
      {
        var path := paths[i];
        RegisterStep(old(Snapshot()), paths, i);
        SetFinished(path, NOT_STARTED);
        updated := updated + {path};
        diagnostics := diagnostics[path := None];
      }
      assert paths[..|paths|] == paths;
    }

    /** `_open_new_files`: read each file, keep its text, send a didOpen. */
    method OpenNewFiles(paths: seq<string>)
      modifies this
      ensures Snapshot() == OpenNew(projectPath, readFile, encode, old(Snapshot()), paths)
    {
      ghost var t0 := Snapshot();
      var texts, out := content, stdin;
      for i := 0 to |paths|
        invariant Snapshot() == t0
        invariant OpenNew(projectPath, readFile, encode, t0, paths[..i]) == t0.(content := texts, stdin := out)
      {
        var path := paths[i];
        OpenNewStep(projectPath, readFile, encode, t0, paths, i);
        var uri := LocalToUri(projectPath, path);
        var txt := readFile(path);
        texts := texts[path := txt];
        out := out + Frame(encode, DID_OPEN, DidOpenParams(uri, txt), None);
      }
      assert paths[..|paths|] == paths;
      content, stdin := texts, out;
    }

    /** The open phase of `open_files`: register and open the paths not
        yet in `files_finished`. */
    method OpenMissing(paths: seq<string>)
      modifies this
      ensures Snapshot() == Grown(projectPath, readFile, encode, old(Snapshot()), paths)
    {
      var newFiles := Without(paths, finished.Keys);
      if newFiles != [] {
        RegisterNew(newFiles);
        OpenNewFiles(newFiles);
      } else {
        assert Register(old(Snapshot()), []) == old(Snapshot());
        assert stdin + [] == stdin;
      }
    }

    /** `open_files`: at most `maxOpenedFiles` paths at once; new paths are
        registered and opened, then the oldest others closed. */
    method OpenFiles(paths: seq<string>) returns (res: Result<(), ClientError>)
      requires Valid()
      modifies this
      ensures Valid()
      ensures (Snapshot(), res) == AfterOpen(projectPath, readFile, encode, maxOpenedFiles, old(Snapshot()), paths)
    {
      AfterOpenOrdered(projectPath, readFile, encode, maxOpenedFiles, Snapshot(), paths);
      if |paths| > maxOpenedFiles {
        return Err(TooManyFiles(maxOpenedFiles));
      }
      GrownOrdered(projectPath, readFile, encode, Snapshot(), paths);
      OpenMissing(paths);
      var removeCount := if |order| - maxOpenedFiles > 0 then |order| - maxOpenedFiles else 0;
      if removeCount > 0 {
        var removable := EvictionList(order, Elems(paths), removeCount);
        res := CloseFiles(removable);
      } else {
        res := Ok(());
      }
    }

    // -------------------------------------------------------------------
    // Closing files

    /** The four `del` statements for one path. */
    method DeletePath(path: string) returns (res: Result<(), ClientError>)
      modifies this
      ensures (Snapshot(), res) == DeleteOne(old(Snapshot()), path)
    {
      if path !in finished {
        return Err(KeyError(path));
      }
      order := Remove(order, path);
      finished := finished - {path};
      if path !in diagnostics {
        return Err(KeyError(path));
      }
      diagnostics := diagnostics - {path};
      if path !in content {
        return Err(KeyError(path));
      }
      content := content - {path};
      if path !in updated {
        return Err(KeyError(path));
      }
      updated := updated - {path};
      res := Ok(());
    }

    /** The deletion loop of `close_files`, which stops at the first
        KeyError. */
    method DeleteEachPath(paths: seq<string>) returns (res: Result<(), ClientError>)
      modifies this
      ensures (Snapshot(), res) == DeleteEach(old(Snapshot()), paths)
    {
      ghost var t0 := Snapshot();
      for i := 0 to |paths|
        invariant DeleteEach(t0, paths[..i]) == (Snapshot(), Ok(()))
      {
        DeleteEachStep(t0, paths, i);
        res := DeletePath(paths[i]);
        if res.Err? {
          DeleteEachStops(t0, paths, i + 1);
          return;
        }
      }
      assert paths[..|paths|] == paths;
      res := Ok(());
    }

    /** The sending loop of `close_files`: one didClose per path. */
    method SendCloses(paths: seq<string>)
      modifies this
      ensures Snapshot() == old(Snapshot()).(stdin := old(stdin) + DidCloses(projectPath, encode, paths))
    {
      ghost var t0 := Snapshot();
      var out := stdin;
      for i := 0 to |paths|
        invariant Snapshot() == t0
        invariant out == t0.stdin + DidCloses(projectPath, encode, paths[..i])
      {
        DidClosesStep(projectPath, encode, t0.stdin, paths, i);
        out := out + Frame(encode, DID_CLOSE, DidCloseParams(LocalToUri(projectPath, paths[i])), None);
      }
      assert paths[..|paths|] == paths;
      stdin := out;
    }

    /** `close_files`: skip paths that are not open, send a didClose for
        each of the others, then delete them one by one. */
    method CloseFiles(paths: seq<string>) returns (res: Result<(), ClientError>)
      requires Valid()
      modifies this
      ensures Valid()
      ensures (Snapshot(), res) == AfterClose(projectPath, encode, old(Snapshot()), paths)
    {
      AfterCloseOrdered(projectPath, encode, Snapshot(), paths);
      var open := Only(paths, finished.Keys);
      SendCloses(open);
      res := DeleteEachPath(open);
    }

    // -------------------------------------------------------------------
    // Updating and reading files

    /** `update_file`. */
    method UpdateFile(path: string, changes: seq<DocumentContentChange>) returns (res: Result<(), ClientError>)
      requires Valid()
      modifies this
      ensures Valid()
      ensures (Snapshot(), res) == AfterUpdate(projectPath, encode, applyChanges, old(Snapshot()), path, changes)
    {
      if path !in finished {
        return Err(FileNotFound(path));
      }
      var uri := LocalToUri(projectPath, path);
      if path !in content {
        return Err(KeyError(path));
      }
      var text := content[path];
      text := applyChanges(text, changes);
      content := content[path := text];
      stdin := stdin + Frame(encode, DID_CHANGE, DidChangeParams(uri, changes), None);
      res := Ok(());
    }

    /** `get_file_content`. */
    method GetFileContent(path: string) returns (res: Result<string, ClientError>)
      ensures res == FileContent(Snapshot(), path)
    {
      if path in content {
        return Ok(content[path]);
      }
      res := Err(FileNotFound(path));
    }

    // -------------------------------------------------------------------
    // Waiting and retrying

    /** `wait_for_line`: open the file, then look at `files_finished` before
        each sleep until the line is reached or the deadline has passed. */
    method WaitForLine(path: string, line: int, ticks: seq<seq<Message>>, last: seq<Message>)
      returns (res: Result<bool, ClientError>)
      requires Valid()
      modifies this
      ensures Valid()
      ensures (Snapshot(), res) == BaseState.WaitForLine(projectPath, readFile, encode, maxOpenedFiles, old(Snapshot()), path, line, ticks, last)
    {
      var opened_ := OpenFiles([path]);
      if opened_.Err? {
        return Err(opened_.error);
      }
      OpenedStaysFinished(projectPath, readFile, encode, maxOpenedFiles, old(Snapshot()), [path]);
      ghost var t1 := Snapshot();
      var i := 0;
      while true
        invariant 0 <= i <= |ticks| && path in finished && Valid()
        invariant PollLine(projectPath, t1, path, line, ticks, last) == PollLine(projectPath, Snapshot(), path, line, ticks[i..], last)
        decreases |ticks| - i
      {
        var curLine := finished[path];
        if curLine == DONE {
          return Ok(true);
        } else if curLine >= line {
          return Ok(true);
        }
        if i == |ticks| {
          DispatchEach(last);
          return Ok(false);
        }
        assert ticks[i..][1..] == ticks[i + 1..];
        DispatchEach(ticks[i]);
        i := i + 1;
      }
    }

    /** `send_request_retry`: open the file, then ask until the answer has
        come back unchanged `retries` times in a row. */
    method SendRequestRetry(path: string, responses: seq<Json>, retries: int)
      returns (res: Result<Option<Json>, ClientError>, sent: nat)
      requires Valid()
      modifies this
      ensures Valid()
      ensures (Snapshot(), res, sent) == BaseState.SendRequestRetry(projectPath, readFile, encode, maxOpenedFiles, old(Snapshot()), path, responses, retries)
    {
      var opened_ := OpenFiles([path]);
      if opened_.Err? {
        return Err(opened_.error), 0;
      }
      var r;
      r, sent := RetryUntilStable(SENTINEL, responses, retries);
      res := Ok(r);
    }
  }
}
