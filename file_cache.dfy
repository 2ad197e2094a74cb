/** `LSPFileManager`: the opened-file cache of the synchronous client. It
    keeps an insertion-ordered map from project-relative path to the file's
    state, evicts the oldest files beyond a bound, and decides when a file's
    diagnostics are complete. Sends are appended to an outbox; notifications
    that arrive while a method waits, and the answers to its
    waitForDiagnostics requests, are inputs of that method.

    Each operation is specified twice: by a function on the whole state
    (`Cache`), which the class's method is proved to compute, and by lemmas
    stating what that function promises. */
module FileCache {
  import opened Wrappers
  import opened Json
  import opened Protocol
  import opened Uri
  import opened OrderedKeys
  import opened Utils
  import opened FileState

  /** A message the manager hands to the transport. */
  datatype Outgoing =
    | Notification(name: string, params: Json)
    | AsyncRequest(name: string, params: Json)

  function DidOpenParams(uri: string, text: string, buildMode: string): Json {
    JObj([("textDocument", JObj([("uri", JStr(uri)), ("text", JStr(text)),
                                 ("languageId", JStr("lean")), ("version", JInt(0))])),
          ("dependencyBuildMode", JStr(buildMode))])
  }

  function DidChangeParams(uri: string, version: int, changes: seq<DocumentContentChange>): Json {
    JObj([("textDocument", JObj([("uri", JStr(uri)), ("version", JInt(version))])),
          ("contentChanges", JArr(seq(|changes|, i requires 0 <= i < |changes| => GetDict(changes[i]))))])
  }

  function DidCloseParams(uri: string): Json {
    JObj([("textDocument", TextDocument(uri))])
  }

  function WaitParams(uri: string, version: int): Json {
    JObj([("uri", JStr(uri)), ("version", JInt(version))])
  }

  /** The dependency build mode `open_files` passes on. */
  const DEFAULT_BUILD_MODE: string := "never"

  /** The manager's state as one value: the keys of `opened_files` in
      insertion order, the map itself, `_recently_closed`, and every message
      sent so far. */
  datatype Cache = Cache(order: seq<string>, files: map<string, State>, closed: set<string>, outbox: seq<Outgoing>)

  /** The order and the map describe the same keys, and every file's URI is
      the one its path converts to. */
  predicate ConsistentMap(projectPath: string, order: seq<string>, files: map<string, State>) {
    && NoDup(order)
    && Elems(order) == files.Keys
    && (forall p :: p in files ==> files[p].uri == LocalToUri(projectPath, p))
  }

  /** What holds between calls: a consistent map and no close under way. */
  predicate Sound(projectPath: string, c: Cache) {
    ConsistentMap(projectPath, c.order, c.files) && NoCloseFlags(c.files)
  }

  /** At most `max` files are open (none at all when the bound is negative). */
  predicate Bounded(max: int, c: Cache) {
    |c.order| <= max || c.order == []
  }

  // ---------------------------------------------------------------------
  // Opening

  /** The state a file starts with when it is (re)opened; `readText` is the
      file's text as read from disk with its newlines normalised. */
  function OpenedAt(projectPath: string, readText: string -> string, path: string): State {
    Opened(readText(path), LocalToUri(projectPath, path))
  }

  function DidOpen(projectPath: string, readText: string -> string, path: string, buildMode: string): Outgoing {
    Notification(DID_OPEN, DidOpenParams(LocalToUri(projectPath, path), readText(path), buildMode))
  }

  function DidOpens(projectPath: string, readText: string -> string, paths: seq<string>, buildMode: string): seq<Outgoing> {
    seq(|paths|, i requires 0 <= i < |paths| => DidOpen(projectPath, readText, paths[i], buildMode))
  }

  /** `_open_new_files`: each path in turn gets a fresh state, leaves the
      recently-closed set and is announced with didOpen. */
  function AfterOpenNew(projectPath: string, readText: string -> string, c: Cache, paths: seq<string>, buildMode: string): Cache
    decreases |paths|
  {
    if paths == [] then c
    else
      var d := AfterOpenNew(projectPath, readText, c, paths[..|paths| - 1], buildMode);
      var path := paths[|paths| - 1];
      Cache(Insert(d.order, path), d.files[path := OpenedAt(projectPath, readText, path)],
            d.closed - {path}, d.outbox + [DidOpen(projectPath, readText, path, buildMode)])
  }

  lemma {:induction false} AfterOpenNewOrder(projectPath: string, readText: string -> string, c: Cache, paths: seq<string>, buildMode: string)
    ensures AfterOpenNew(projectPath, readText, c, paths, buildMode).order == InsertAll(c.order, paths)
  {
    if paths != [] {
      AfterOpenNewOrder(projectPath, readText, c, paths[..|paths| - 1], buildMode);
    }
  }

  lemma {:induction false} AfterOpenNewFiles(projectPath: string, readText: string -> string, c: Cache, paths: seq<string>, buildMode: string)
    ensures var r := AfterOpenNew(projectPath, readText, c, paths, buildMode).files;
      && r.Keys == c.files.Keys + Elems(paths)
      && (forall p :: p in r ==> r[p] == if p in paths then OpenedAt(projectPath, readText, p) else c.files[p])
  {
    if paths != [] {
      var t := paths[..|paths| - 1];
      var x := paths[|paths| - 1];
      AfterOpenNewFiles(projectPath, readText, c, t, buildMode);
      InSnoc(paths);
    }
  }

  lemma {:induction false} AfterOpenNewClosed(projectPath: string, readText: string -> string, c: Cache, paths: seq<string>, buildMode: string)
    ensures AfterOpenNew(projectPath, readText, c, paths, buildMode).closed == c.closed - Elems(paths)
  {
    if paths != [] {
      var t := paths[..|paths| - 1];
      AfterOpenNewClosed(projectPath, readText, c, t, buildMode);
      assert paths == t + [paths[|paths| - 1]];
    }
  }

  lemma {:induction false} AfterOpenNewOutbox(projectPath: string, readText: string -> string, c: Cache, paths: seq<string>, buildMode: string)
    ensures AfterOpenNew(projectPath, readText, c, paths, buildMode).outbox == c.outbox + DidOpens(projectPath, readText, paths, buildMode)
  {
    if paths != [] {
      var t := paths[..|paths| - 1];
      var x := paths[|paths| - 1];
      AfterOpenNewOutbox(projectPath, readText, c, t, buildMode);
      var a := DidOpens(projectPath, readText, paths, buildMode);
      var b := DidOpens(projectPath, readText, t, buildMode);
      assert a == b + [DidOpen(projectPath, readText, x, buildMode)] by {
        forall k | 0 <= k < |b| ensures a[k] == b[k] {
          assert paths[k] == t[k];
        }
      }
    }
  }

  /** Opening a list of paths: every listed path is (re)initialised, an
      already open one in its old place (see `InsertAllAppends`), every
      other file is untouched, and one didOpen goes out per listed path. */
  lemma AfterOpenNewEffect(projectPath: string, readText: string -> string, c: Cache, paths: seq<string>, buildMode: string)
    ensures var r := AfterOpenNew(projectPath, readText, c, paths, buildMode);
      && r.order == InsertAll(c.order, paths)
      && r.files.Keys == c.files.Keys + Elems(paths)
      && (forall p :: p in r.files ==> r.files[p] == if p in paths then OpenedAt(projectPath, readText, p) else c.files[p])
      && r.closed == c.closed - Elems(paths)
      && r.outbox == c.outbox + DidOpens(projectPath, readText, paths, buildMode)
  {
    AfterOpenNewOrder(projectPath, readText, c, paths, buildMode);
    AfterOpenNewFiles(projectPath, readText, c, paths, buildMode);
    AfterOpenNewClosed(projectPath, readText, c, paths, buildMode);
    AfterOpenNewOutbox(projectPath, readText, c, paths, buildMode);
  }

  lemma AfterOpenNewSound(projectPath: string, readText: string -> string, c: Cache, paths: seq<string>, buildMode: string)
    requires Sound(projectPath, c)
    ensures Sound(projectPath, AfterOpenNew(projectPath, readText, c, paths, buildMode))
  {
    AfterOpenNewEffect(projectPath, readText, c, paths, buildMode);
    InsertAllNoDup(c.order, paths);
  }

  // ---------------------------------------------------------------------
  // Closing

  /** The URIs `close_files` looks up for its paths. */
  function UrisOf(files: map<string, State>, paths: seq<string>): seq<string>
    requires forall p :: p in paths ==> p in files
  {
    seq(|paths|, i requires 0 <= i < |paths| => files[paths[i]].uri)
  }

  /** `_locals_to_uris`. */
  function UrisFor(projectPath: string, paths: seq<string>): seq<string> {
    seq(|paths|, i requires 0 <= i < |paths| => LocalToUri(projectPath, paths[i]))
  }

  function DidCloses(uris: seq<string>): seq<Outgoing> {
    seq(|uris|, i requires 0 <= i < |uris| => Notification(DID_CLOSE, DidCloseParams(uris[i])))
  }

  /** Whether every listed file that is open has had its final, empty
      diagnostics push. */
  predicate AllCloseReady(files: map<string, State>, paths: seq<string>) {
    forall p :: p in paths && p in files ==> files[p].closeReady
  }

  /** The handlers applied to a run of notifications, in order. */
  function DeliverAll(projectPath: string, files: map<string, State>, ms: seq<Message>): map<string, State>
    decreases |ms|
  {
    if ms == [] then files else DeliverAll(projectPath, DeliverTo(projectPath, files, ms[0]), ms[1..])
  }

  /** Files that only evolve, with no close flag raised, keep the cache
      sound. */
  lemma EvolvedSound(projectPath: string, c: Cache, files: map<string, State>)
    requires Sound(projectPath, c) && Evolved(c.files, files) && NoCloseFlags(files)
    ensures Sound(projectPath, c.(files := files))
  {
    forall p | p in files ensures files[p].uri == LocalToUri(projectPath, p) {
      assert Later(c.files[p], files[p]);
    }
  }

  lemma {:induction false} DeliverAllEffect(projectPath: string, files: map<string, State>, ms: seq<Message>)
    ensures Evolved(files, DeliverAll(projectPath, files, ms))
    ensures NoCloseFlags(files) ==> NoCloseFlags(DeliverAll(projectPath, files, ms))
    decreases |ms|
  {
    if ms != [] {
      var next := DeliverTo(projectPath, files, ms[0]);
      DeliverAllEffect(projectPath, next, ms[1..]);
      EvolvedTrans(files, next, DeliverAll(projectPath, next, ms[1..]));
    }
  }

  /** The wait of a blocking close: notifications are handled one at a time
      until every listed file is ready or none are left (the deadline). */
  function AwaitClose(projectPath: string, files: map<string, State>, paths: seq<string>, ms: seq<Message>): map<string, State>
    decreases |ms|
  {
    if AllCloseReady(files, paths) || ms == [] then files
    else AwaitClose(projectPath, DeliverTo(projectPath, files, ms[0]), paths, ms[1..])
  }

  /** The wait only lets the files evolve, and it gives up only at the
      deadline: when it ends with a listed file not ready, every notification
      was handled. */
  lemma {:induction false} AwaitCloseEffect(projectPath: string, files: map<string, State>, paths: seq<string>, ms: seq<Message>)
    ensures Evolved(files, AwaitClose(projectPath, files, paths, ms))
    ensures !AllCloseReady(AwaitClose(projectPath, files, paths, ms), paths) ==>
      AwaitClose(projectPath, files, paths, ms) == DeliverAll(projectPath, files, ms)
    decreases |ms|
  {
    if !(AllCloseReady(files, paths) || ms == []) {
      var next := DeliverTo(projectPath, files, ms[0]);
      AwaitCloseEffect(projectPath, next, paths, ms[1..]);
      EvolvedTrans(files, next, AwaitClose(projectPath, next, paths, ms[1..]));
    }
  }

  /** The deletion loop of `close_files`: `del opened_files[path]` for each
      path in turn; a path no longer present stops it with a KeyError. */
  function DeleteAll(c: Cache, paths: seq<string>): (Cache, Option<string>)
    decreases |paths|
  {
    if paths == [] then (c, None)
    else
      var (d, missing) := DeleteAll(c, paths[..|paths| - 1]);
      var path := paths[|paths| - 1];
      if missing.Some? then (d, missing)
      else if path !in d.files then (d, Some(path))
      else (d.(order := Remove(d.order, path), files := d.files - {path}), None)
  }

  lemma {:induction false} DeleteAllStops(c: Cache, paths: seq<string>, k: nat)
    requires k <= |paths| && DeleteAll(c, paths[..k]).1.Some?
    ensures DeleteAll(c, paths) == DeleteAll(c, paths[..k])
    decreases |paths|
  {
    if k < |paths| {
      var t := paths[..|paths| - 1];
      assert t[..k] == paths[..k];
      DeleteAllStops(c, t, k);
    } else {
      assert paths[..k] == paths;
    }
  }

  /** When every listed path is open, the loop deletes the longest prefix of
      the list without repetitions, and stops with a KeyError at the first
      repeated path. */
  lemma {:induction false} DeleteAllEffect(c: Cache, paths: seq<string>)
    requires forall p :: p in paths ==> p in c.files
    ensures var n := DistinctPrefix(paths);
      var gone := Elems(paths[..n]);
      DeleteAll(c, paths) ==
        (c.(order := Without(c.order, gone), files := c.files - gone), if n == |paths| then None else Some(paths[n]))
    decreases |paths|
  {
    if paths == [] {
      WithoutNothing(c.order);
      assert Elems(paths[..0]) == {};
      assert c.files - {} == c.files;
    } else {
      var t := paths[..|paths| - 1];
      var x := paths[|paths| - 1];
      assert paths == t + [x];
      DeleteAllEffect(c, t);
      DistinctPrefixSnoc(t, x);
      var m := DistinctPrefix(t);
      assert t[..m] == paths[..m];
      if m < |t| {
        assert paths[m] == t[m];
      } else if x in t {
        assert t[..m] == t;
        assert x !in c.files - Elems(t);
      } else {
        assert t[..m] == t && paths[..|paths|] == paths;
        DeleteAllFresh(c, t, x);
      }
    }
  }

  /** One more path, open and not deleted before, is deleted. */
  lemma DeleteAllFresh(c: Cache, t: seq<string>, x: string)
    requires x in c.files && x !in t
    requires DeleteAll(c, t) == (c.(order := Without(c.order, Elems(t)), files := c.files - Elems(t)), None)
    ensures DeleteAll(c, t + [x])
      == (c.(order := Without(c.order, Elems(t + [x])), files := c.files - Elems(t + [x])), None)
  {
    assert (t + [x])[..|t|] == t;
    ElemsSnoc(t, x);
    WithoutWithout(c.order, Elems(t), {x});
    MinusUnion(c.files, Elems(t), {x});
  }

  /** Every file's flags set for a close under way (`pending`) or cleared. */
  function Flagged(files: map<string, State>, paths: set<string>, pending: bool): map<string, State> {
    map p | p in files :: if p in paths then files[p].(closePending := pending, closeReady := false) else files[p]
  }

  /** Setting the flags of one more file. */
  lemma FlaggedStep(files: map<string, State>, paths: set<string>, path: string, pending: bool)
    requires path in files
    ensures var f := Flagged(files, paths, pending);
      f[path := f[path].(closePending := pending, closeReady := false)] == Flagged(files, paths + {path}, pending)
  {
    var f := Flagged(files, paths, pending);
    var g := f[path := f[path].(closePending := pending, closeReady := false)];
    var h := Flagged(files, paths + {path}, pending);
    assert g.Keys == h.Keys;
    forall p | p in g ensures g[p] == h[p] {
    }
  }

  /** The files once the wait of a blocking close is over: flags set, the
      notifications handled until every listed file is ready or the deadline
      passes, flags cleared. A non-blocking close does not wait. */
  function CloseWait(projectPath: string, files: map<string, State>, paths: seq<string>, blocking: bool, ms: seq<Message>): map<string, State> {
    if blocking then Flagged(AwaitClose(projectPath, Flagged(files, Elems(paths), true), paths, ms), Elems(paths), false)
    else files
  }

  /** `close_files` on the whole state. */
  function AfterClose(projectPath: string, c: Cache, paths: seq<string>, blocking: bool, ms: seq<Message>): (Cache, Result<(), FileError>) {
    var check := CloseCheck(paths, c.files.Keys);
    if check.Some? then (c, Err(check.value))
    else
      var uris := UrisOf(c.files, paths);
      var waited := CloseWait(projectPath, c.files, paths, blocking, ms);
      var (d, missing) := DeleteAll(Cache(c.order, waited, c.closed + Elems(paths), c.outbox + DidCloses(uris)), paths);
      (d, if missing.Some? then Err(KeyError(missing.value)) else Ok(()))
  }

  /** Setting the close flags, waiting and clearing them again leaves every
      file evolved from where it started and no flag set. */
  lemma CloseWaitEffect(projectPath: string, files: map<string, State>, paths: seq<string>, blocking: bool, ms: seq<Message>)
    requires NoCloseFlags(files)
    ensures var w := CloseWait(projectPath, files, paths, blocking, ms);
      && w.Keys == files.Keys && NoCloseFlags(w)
      && forall p :: p in files ==> Later(files[p], w[p])
  {
    if blocking {
      var flagged := Flagged(files, Elems(paths), true);
      var waited := AwaitClose(projectPath, flagged, paths, ms);
      AwaitCloseEffect(projectPath, flagged, paths, ms);
      forall p | p in files ensures Later(files[p], Flagged(waited, Elems(paths), false)[p]) {
        assert Later(flagged[p], waited[p]);
      }
    }
  }

  /** Deleting keys from both the order and the map keeps them consistent. */
  lemma ConsistentAfterDelete(projectPath: string, order: seq<string>, files: map<string, State>, gone: set<string>)
    requires ConsistentMap(projectPath, order, files)
    ensures ConsistentMap(projectPath, Without(order, gone), files - gone)
  {
    WithoutNoDup(order, gone);
  }

  /** What `close_files` promises once its check has passed: the longest
      repetition-free prefix of the list is deleted from the order and the
      map, a repeated path raises a KeyError, the other files only evolve,
      every listed path is recorded as recently closed, one didClose goes
      out per listed path, and the invariant is kept. */
  lemma AfterCloseEffect(projectPath: string, c: Cache, paths: seq<string>, blocking: bool, ms: seq<Message>)
    requires Sound(projectPath, c)
    requires CloseCheck(paths, c.files.Keys).None?
    ensures var (r, res) := AfterClose(projectPath, c, paths, blocking, ms);
      var n := DistinctPrefix(paths);
      var gone := Elems(paths[..n]);
      && Sound(projectPath, r)
      && (res.Ok? <==> NoDup(paths))
      && (res.Err? ==> res.error == KeyError(paths[n]))
      && r.order == Without(c.order, gone)
      && r.files.Keys == c.files.Keys - gone
      && (forall p :: p in r.files ==> Later(c.files[p], r.files[p]))
      && r.closed == c.closed + Elems(paths)
      && r.outbox == c.outbox + DidCloses(UrisFor(projectPath, paths))
      && (res.Ok? ==> forall p :: p in paths ==> p !in r.files && p in r.closed)
  {
    var w := CloseWait(projectPath, c.files, paths, blocking, ms);
    CloseWaitEffect(projectPath, c.files, paths, blocking, ms);
    assert ConsistentMap(projectPath, c.order, w);
    AfterCloseFields(projectPath, c, paths, blocking, ms);
    var n := DistinctPrefix(paths);
    var gone := Elems(paths[..n]);
    ConsistentAfterDelete(projectPath, c.order, w, gone);
    DistinctPrefixFull(paths);
    if n == |paths| {
      assert paths[..n] == paths;
    }
  }

  /** `close_files` field by field, once the check has passed. */
  lemma AfterCloseFields(projectPath: string, c: Cache, paths: seq<string>, blocking: bool, ms: seq<Message>)
    requires Sound(projectPath, c)
    requires CloseCheck(paths, c.files.Keys).None?
    ensures var n := DistinctPrefix(paths);
      var gone := Elems(paths[..n]);
      var w := CloseWait(projectPath, c.files, paths, blocking, ms);
      AfterClose(projectPath, c, paths, blocking, ms)
        == (Cache(Without(c.order, gone), w - gone, c.closed + Elems(paths), c.outbox + DidCloses(UrisFor(projectPath, paths))),
            if n == |paths| then Ok(()) else Err(KeyError(paths[n])))
  {
    var uris := UrisOf(c.files, paths);
    UrisOfConsistent(projectPath, c.files, paths);
    var w := CloseWait(projectPath, c.files, paths, blocking, ms);
    CloseWaitEffect(projectPath, c.files, paths, blocking, ms);
    var d := Cache(c.order, w, c.closed + Elems(paths), c.outbox + DidCloses(uris));
    DeleteAllEffect(d, paths);
  }

  /** Each open file's URI is its path's URI, so the URIs read from the
      map are `_locals_to_uris` of the paths. */
  lemma UrisOfConsistent(projectPath: string, files: map<string, State>, paths: seq<string>)
    requires forall p :: p in paths ==> p in files
    requires forall p :: p in files ==> files[p].uri == LocalToUri(projectPath, p)
    ensures UrisOf(files, paths) == UrisFor(projectPath, paths)
  {
  }

  /** `close_files` keeps the invariant and the bound, whether it succeeds
      or raises. */
  lemma AfterCloseKeepsValid(projectPath: string, max: int, c: Cache, paths: seq<string>, blocking: bool, ms: seq<Message>)
    ensures Sound(projectPath, c) && Bounded(max, c) ==>
      var r := AfterClose(projectPath, c, paths, blocking, ms).0;
      Sound(projectPath, r) && Bounded(max, r)
  {
    if Sound(projectPath, c) && Bounded(max, c) && CloseCheck(paths, c.files.Keys).None? {
      AfterCloseEffect(projectPath, c, paths, blocking, ms);
      var r := AfterClose(projectPath, c, paths, blocking, ms).0;
      if c.order == [] {
        assert Elems(r.order) == {};
      }
    }
  }

  // ---------------------------------------------------------------------
  // open_files

  /** The files `open_files` evicts from an order: the oldest the request
      does not name, as many as exceed the bound. */
  function EvictionOf(order: seq<string>, paths: seq<string>, max: int): seq<string> {
    if |order| > max then EvictionList(order, Elems(paths), |order| - max) else []
  }

  /** The eviction step of `open_files`: a blocking close of the evicted
      files, when there are any. */
  function Evict(projectPath: string, d: Cache, paths: seq<string>, max: int, ms: seq<Message>): (Cache, Result<(), FileError>) {
    if |d.order| - max > 0 then AfterClose(projectPath, d, EvictionOf(d.order, paths, max), true, ms)
    else (d, Ok(()))
  }

  /** `open_files` on the whole state (the paths are taken as already
      unquoted). */
  function AfterOpen(projectPath: string, readText: string -> string, max: int, c: Cache, paths: seq<string>, ms: seq<Message>)
    : (Cache, Result<(), FileError>)
  {
    if |paths| > max then (c, Err(TooManyFiles(max)))
    else Evict(projectPath, AfterOpenNew(projectPath, readText, c, Without(paths, c.files.Keys), DEFAULT_BUILD_MODE), paths, max, ms)
  }

  /** Eviction succeeds once the requested paths are open: it brings the
      cache within the bound, deletes exactly the evicted files, lets the
      others evolve and records the evicted ones as recently closed. */
  lemma EvictEffect(projectPath: string, d: Cache, paths: seq<string>, max: int, ms: seq<Message>)
    requires Sound(projectPath, d) && |paths| <= max
    ensures var out := Evict(projectPath, d, paths, max, ms);
      var r := out.0;
      var evicted := EvictionOf(d.order, paths, max);
      && out.1.Ok? && Sound(projectPath, r) && |r.order| <= max
      && (forall p :: p in evicted ==> p !in paths)
      && r.order == Without(d.order, Elems(evicted))
      && r.files.Keys == d.files.Keys - Elems(evicted)
      && (forall p :: p in r.files ==> Later(d.files[p], r.files[p]))
      && r.closed == d.closed + Elems(evicted)
  {
    var evicted := EvictionOf(d.order, paths, max);
    if |d.order| - max > 0 {
      EvictionListNoDup(d.order, Elems(paths), |d.order| - max);
      EvictionRestoresBound(d.order, paths, max);
      DistinctPrefixNoDup(evicted);
      assert evicted[..|evicted|] == evicted;
      AfterCloseEffect(projectPath, d, evicted, true, ms);
    } else {
      EvictNothing(d, paths, max);
    }
  }

  /** Within the bound, eviction picks nothing and so removes nothing. */
  lemma EvictNothing(d: Cache, paths: seq<string>, max: int)
    requires |d.order| <= max
    ensures var gone := Elems(EvictionOf(d.order, paths, max));
      && gone == {}
      && Without(d.order, gone) == d.order
      && d.files.Keys - gone == d.files.Keys
      && d.closed + gone == d.closed
  {
    WithoutNothing(d.order);
    assert Elems(EvictionOf(d.order, paths, max)) == {};
  }

  /** The files `open_files` evicts, in terms of the state before the call. */
  function Evicted(c: Cache, paths: seq<string>, max: int): seq<string> {
    EvictionOf(InsertAll(c.order, Without(paths, c.files.Keys)), paths, max)
  }

  /** The two steps of a successful `open_files`, as facts about the state
      in between. */
  lemma AfterOpenSteps(projectPath: string, readText: string -> string, max: int, c: Cache, paths: seq<string>, ms: seq<Message>)
    requires Sound(projectPath, c) && |paths| <= max
    ensures var newFiles := Without(paths, c.files.Keys);
      var d := AfterOpenNew(projectPath, readText, c, newFiles, DEFAULT_BUILD_MODE);
      var out := AfterOpen(projectPath, readText, max, c, paths, ms);
      && out == Evict(projectPath, d, paths, max, ms)
      && Sound(projectPath, d)
      && d.order == InsertAll(c.order, newFiles)
      && d.files.Keys == c.files.Keys + Elems(newFiles)
      && (forall p :: p in d.files ==> d.files[p] == if p in newFiles then OpenedAt(projectPath, readText, p) else c.files[p])
      && d.closed == c.closed - Elems(newFiles)
      && Evicted(c, paths, max) == EvictionOf(d.order, paths, max)
  {
    var newFiles := Without(paths, c.files.Keys);
    AfterOpenNewEffect(projectPath, readText, c, newFiles, DEFAULT_BUILD_MODE);
    AfterOpenNewSound(projectPath, readText, c, newFiles, DEFAULT_BUILD_MODE);
  }

  /** `open_files` keeps the invariant and brings the cache within the bound;
      too many paths raise before any change. */
  lemma AfterOpenSound(projectPath: string, readText: string -> string, max: int, c: Cache, paths: seq<string>, ms: seq<Message>)
    requires Sound(projectPath, c) && Bounded(max, c)
    ensures var out := AfterOpen(projectPath, readText, max, c, paths, ms);
      && (|paths| > max ==> out.0 == c && out.1 == Err(TooManyFiles(max)))
      && (|paths| <= max ==> out.1.Ok?)
      && Sound(projectPath, out.0) && Bounded(max, out.0)
  {
    if |paths| <= max {
      AfterOpenSteps(projectPath, readText, max, c, paths, ms);
      EvictEffect(projectPath, AfterOpenNew(projectPath, readText, c, Without(paths, c.files.Keys), DEFAULT_BUILD_MODE), paths, max, ms);
    }
  }

  /** After a successful `open_files` the order is the old one with the new
      files appended and the evicted ones taken out, and the recently-closed
      set loses the opened files and gains the evicted ones. */
  lemma AfterOpenOrder(projectPath: string, readText: string -> string, max: int, c: Cache, paths: seq<string>, ms: seq<Message>)
    requires Sound(projectPath, c) && |paths| <= max
    ensures var r := AfterOpen(projectPath, readText, max, c, paths, ms).0;
      var newFiles := Without(paths, c.files.Keys);
      var evicted := Evicted(c, paths, max);
      && r.order == Without(InsertAll(c.order, newFiles), Elems(evicted))
      && r.closed == c.closed - Elems(newFiles) + Elems(evicted)
  {
    AfterOpenSteps(projectPath, readText, max, c, paths, ms);
    EvictEffect(projectPath, AfterOpenNew(projectPath, readText, c, Without(paths, c.files.Keys), DEFAULT_BUILD_MODE), paths, max, ms);
  }

  /** After a successful `open_files` every requested path is open, the
      evicted files are unrequested, gone and recently closed, and each open
      file evolved from its state before the call (from a fresh state if it
      was not open). */
  lemma AfterOpenFiles(projectPath: string, readText: string -> string, max: int, c: Cache, paths: seq<string>, ms: seq<Message>)
    requires Sound(projectPath, c) && |paths| <= max
    ensures var r := AfterOpen(projectPath, readText, max, c, paths, ms).0;
      var evicted := Evicted(c, paths, max);
      && (forall p :: p in paths ==> p in r.files)
      && (forall p :: p in evicted ==> p !in paths && p !in r.files && p in r.closed)
      && (forall p :: p in r.files && p in c.files ==> Later(c.files[p], r.files[p]))
      && (forall p :: p in r.files && p !in c.files ==> Later(OpenedAt(projectPath, readText, p), r.files[p]))
  {
    var newFiles := Without(paths, c.files.Keys);
    var d := AfterOpenNew(projectPath, readText, c, newFiles, DEFAULT_BUILD_MODE);
    AfterOpenSteps(projectPath, readText, max, c, paths, ms);
    EvictEffect(projectPath, d, paths, max, ms);
    OpenedKept(projectPath, readText, c, d, Evict(projectPath, d, paths, max, ms).0, newFiles);
  }

  /** What `open_files` promises: too many paths raise before any change;
      otherwise it succeeds, every requested path is open afterwards, the
      files already open keep their state (up to notifications handled while
      evicting), the new ones start fresh, the evicted files are the oldest
      unrequested ones and are recorded as recently closed, and the
      invariant and the bound are kept. */
  lemma AfterOpenEffect(projectPath: string, readText: string -> string, max: int, c: Cache, paths: seq<string>, ms: seq<Message>)
    requires Sound(projectPath, c) && Bounded(max, c)
    ensures var out := AfterOpen(projectPath, readText, max, c, paths, ms);
      var r := out.0;
      var newFiles := Without(paths, c.files.Keys);
      var evicted := Evicted(c, paths, max);
      && (|paths| > max ==> r == c && out.1 == Err(TooManyFiles(max)))
      && Sound(projectPath, r) && Bounded(max, r)
      && (|paths| <= max ==>
        && out.1.Ok?
        && r.order == Without(InsertAll(c.order, newFiles), Elems(evicted))
        && (forall p :: p in paths ==> p in r.files)
        && (forall p :: p in evicted ==> p !in paths && p !in r.files && p in r.closed)
        && (forall p :: p in r.files && p in c.files ==> Later(c.files[p], r.files[p]))
        && (forall p :: p in r.files && p !in c.files ==> Later(OpenedAt(projectPath, readText, p), r.files[p]))
        && r.closed == c.closed - Elems(newFiles) + Elems(evicted))
  {
    AfterOpenSound(projectPath, readText, max, c, paths, ms);
    if |paths| <= max {
      AfterOpenOrder(projectPath, readText, max, c, paths, ms);
      AfterOpenFiles(projectPath, readText, max, c, paths, ms);
    }
  }

  /** A file kept through opening and eviction evolved from its state
      before the call, or from a fresh state if it is new. */
  lemma OpenedKept(projectPath: string, readText: string -> string, c: Cache, d: Cache, r: Cache, newFiles: seq<string>)
    requires d.files.Keys == c.files.Keys + Elems(newFiles)
    requires forall p :: p in d.files ==> d.files[p] == if p in newFiles then OpenedAt(projectPath, readText, p) else c.files[p]
    requires forall p :: p in newFiles ==> p !in c.files
    requires forall p :: p in r.files ==> p in d.files && Later(d.files[p], r.files[p])
    ensures forall p :: p in r.files && p in c.files ==> Later(c.files[p], r.files[p])
    ensures forall p :: p in r.files && p !in c.files ==> Later(OpenedAt(projectPath, readText, p), r.files[p])
  {
  }

  /** Opening a file that is already open changes nothing (the request
      retry opens its file before every attempt); when not even one file may
      be open it raises, also without a change. */
  lemma ReopenChangesNothing(projectPath: string, readText: string -> string, max: int, c: Cache, path: string, ms: seq<Message>)
    requires Sound(projectPath, c) && Bounded(max, c) && path in c.files
    ensures AfterOpen(projectPath, readText, max, c, [path], ms) == (c, if max < 1 then Err(TooManyFiles(max)) else Ok(()))
  {
    if max >= 1 {
      assert Without([path], c.files.Keys) == [];
      ElemsCard(c.order);
    }
  }

  // ---------------------------------------------------------------------
  // _wait_for_diagnostics

  /** What a poll of the wait finds: the notifications handled since the
      previous poll, and the waitForDiagnostics requests found finished. */
  datatype Tick = Tick(deliveries: seq<Message>, done: map<string, WaitOutcome>)

  function PathsOf(projectPath: string, uris: seq<string>): seq<string> {
    seq(|uris|, i requires 0 <= i < |uris| => PathOf(projectPath, uris[i]))
  }

  /** The check before any request is sent: a file caught up with its own
      version is marked complete, and every URI whose file is still not
      complete needs a request, for that version. */
  function Prepass(projectPath: string, files: map<string, State>, uris: seq<string>): (map<string, State>, seq<string>, map<string, int>)
    decreases |uris|
  {
    if uris == [] then (files, [], map[])
    else
      var (f, needing, targets) := Prepass(projectPath, files, uris[..|uris| - 1]);
      var uri := uris[|uris| - 1];
      var path := PathOf(projectPath, uri);
      if path !in f then (f, needing, targets)
      else
        var s := MarkCaughtUp(f[path], f[path].version);
        if s.complete then (f[path := s], needing, targets)
        else (f[path := s], needing + [uri], targets[uri := s.version])
  }

  function WaitRequests(uris: seq<string>, targets: map<string, int>): seq<Outgoing> {
    seq(|uris|, i requires 0 <= i < |uris| =>
      AsyncRequest(WAIT_FOR_DIAGNOSTICS, WaitParams(uris[i], if uris[i] in targets then targets[uris[i]] else 0)))
  }

  /** The first pass of a poll: each pending URI (in `queue` order) whose
      request has finished records the outcome and is completed. */
  function FinishDone(projectPath: string, files: map<string, State>, queue: seq<string>, pending: set<string>,
                      done: map<string, WaitOutcome>): (map<string, State>, set<string>)
    decreases |queue|
  {
    if queue == [] then (files, {})
    else
      var (f, completed) := FinishDone(projectPath, files, queue[..|queue| - 1], pending, done);
      var uri := queue[|queue| - 1];
      var path := PathOf(projectPath, uri);
      if uri in pending && uri in done && path in f then (f[path := OnWaitDone(f[path], done[uri])], completed + {uri})
      else (f, completed)
  }

  /** The second pass: every other pending URI is completed when its file is
      complete or has caught up with the version waited for. */
  function CatchUp(projectPath: string, files: map<string, State>, queue: seq<string>, rest: set<string>,
                   targets: map<string, int>): (map<string, State>, set<string>)
    decreases |queue|
  {
    if queue == [] then (files, {})
    else
      var (f, completed) := CatchUp(projectPath, files, queue[..|queue| - 1], rest, targets);
      var uri := queue[|queue| - 1];
      var path := PathOf(projectPath, uri);
      if uri in rest && uri in targets && path in f then
        var s := MarkCaughtUp(f[path], targets[uri]);
        (f[path := s], if s.complete then completed + {uri} else completed)
      else (f, completed)
  }

  /** One poll: the notifications, the finished requests, the catch-up
      check; the pending set loses every URI completed. */
  function Poll(projectPath: string, files: map<string, State>, queue: seq<string>, pending: set<string>,
                targets: map<string, int>, tick: Tick): (map<string, State>, set<string>)
  {
    var f := DeliverAll(projectPath, files, tick.deliveries);
    var (f1, finished) := FinishDone(projectPath, f, queue, pending, tick.done);
    var (f2, caught) := CatchUp(projectPath, f1, queue, pending - finished, targets);
    (f2, pending - finished - caught)
  }

  /** Polling until nothing is pending or the ticks run out (the timeout). */
  function Polls(projectPath: string, files: map<string, State>, queue: seq<string>, pending: set<string>,
                 targets: map<string, int>, ticks: seq<Tick>): (map<string, State>, bool)
    decreases |ticks|
  {
    if pending == {} then (files, false)
    else if ticks == [] then (files, true)
    else
      var (f, p) := Poll(projectPath, files, queue, pending, targets, ticks[0]);
      Polls(projectPath, f, queue, p, targets, ticks[1..])
  }

  /** `_wait_for_diagnostics` on the whole state; the result says whether it
      timed out. */
  function AfterWait(projectPath: string, c: Cache, uris: seq<string>, ticks: seq<Tick>): (Cache, Result<bool, FileError>) {
    var missing := Without(PathsOf(projectPath, uris), c.files.Keys);
    if missing != [] then (c, Err(FileNotFound(missing)))
    else
      var (f, needing, targets) := Prepass(projectPath, c.files, uris);
      Await(projectPath, c, f, needing, targets, ticks)
  }

  /** The wait proper, after the check: nothing to do when no URI needs a
      wait; otherwise the requests go out and the polling starts. */
  function Await(projectPath: string, c: Cache, f: map<string, State>, needing: seq<string>, targets: map<string, int>,
                 ticks: seq<Tick>): (Cache, Result<bool, FileError>)
  {
    if needing == [] then (c.(files := f), Ok(false))
    else
      var (g, timedOut) := Polls(projectPath, f, Dedup(needing), Elems(needing), targets, ticks);
      (c.(files := g, outbox := c.outbox + WaitRequests(needing, targets)), Ok(timedOut))
  }

  /** A listed file is waited for when it is open and neither complete nor
      caught up with its own version. */
  predicate NeedsWait(files: map<string, State>, path: string) {
    path in files && !MarkCaughtUp(files[path], files[path].version).complete
  }

  /** The listed URIs, in order, whose files are waited for: the reference
      for the list the check before the wait builds. */
  function NeedingWait(projectPath: string, files: map<string, State>, uris: seq<string>): (r: seq<string>)
    ensures forall u :: u in r <==> u in uris && NeedsWait(files, PathOf(projectPath, u))
    decreases |uris|
  {
    if uris == [] then []
    else
      var t := uris[..|uris| - 1];
      var u := uris[|uris| - 1];
      InSnoc(uris);
      NeedingWait(projectPath, files, t) + (if NeedsWait(files, PathOf(projectPath, u)) then [u] else [])
  }

  /** The files after the check before the wait: every listed file caught
      up with its own version is marked complete, nothing else changes. */
  function Checked(projectPath: string, files: map<string, State>, uris: seq<string>): map<string, State> {
    map p | p in files :: if p in PathsOf(projectPath, uris) then MarkCaughtUp(files[p], files[p].version) else files[p]
  }

  /** The check before the wait, one URI at a time, computes `Checked`, the
      URIs `NeedingWait` picks, and each one's version as its target; a URI
      met twice is judged the same way both times. */
  lemma {:induction false} PrepassEffect(projectPath: string, files: map<string, State>, uris: seq<string>)
    ensures var out := Prepass(projectPath, files, uris);
      && out.0 == Checked(projectPath, files, uris)
      && out.1 == NeedingWait(projectPath, files, uris)
      && (forall u :: u in out.1 ==> u in out.2 && out.2[u] == files[PathOf(projectPath, u)].version)
    decreases |uris|
  {
    if uris == [] {
      assert Checked(projectPath, files, uris) == files;
    } else {
      var t := uris[..|uris| - 1];
      PrepassEffect(projectPath, files, t);
      CheckedSnoc(projectPath, files, uris);
    }
  }

  /** `Checked` over one more URI: its file, when listed, is checked once
      more, which gives what checking the original file gives. */
  lemma {:induction false} CheckedSnoc(projectPath: string, files: map<string, State>, uris: seq<string>)
    requires uris != []
    ensures var f := Checked(projectPath, files, uris[..|uris| - 1]);
      var path := PathOf(projectPath, uris[|uris| - 1]);
      && (path in f <==> path in files)
      && (path in f ==> MarkCaughtUp(f[path], f[path].version) == MarkCaughtUp(files[path], files[path].version))
      && Checked(projectPath, files, uris) == if path in f then f[path := MarkCaughtUp(f[path], f[path].version)] else f
  {
    var t := uris[..|uris| - 1];
    var path := PathOf(projectPath, uris[|uris| - 1]);
    assert PathsOf(projectPath, uris) == PathsOf(projectPath, t) + [path];
    var f := Checked(projectPath, files, t);
    if path in f {
      assert MarkCaughtUp(f[path], f[path].version) == MarkCaughtUp(files[path], files[path].version);
      assert f[path := MarkCaughtUp(f[path], f[path].version)] == Checked(projectPath, files, uris);
    } else {
      assert f == Checked(projectPath, files, uris);
    }
  }

  /** The first pass of a poll completes exactly the pending URIs whose
      requests have finished and whose files are open; it only lets the
      files evolve. */
  lemma {:induction false} FinishDoneEffect(projectPath: string, files: map<string, State>, queue: seq<string>, pending: set<string>,
                                            done: map<string, WaitOutcome>)
    ensures var (f, completed) := FinishDone(projectPath, files, queue, pending, done);
      && Evolved(files, f) && (NoCloseFlags(files) ==> NoCloseFlags(f))
      && (forall u :: u in completed <==> u in queue && u in pending && u in done && PathOf(projectPath, u) in files)
      && (forall u :: u in completed ==> f[PathOf(projectPath, u)].complete)
    decreases |queue|
  {
    if queue != [] {
      var t := queue[..|queue| - 1];
      var u := queue[|queue| - 1];
      FinishDoneEffect(projectPath, files, t, pending, done);
      InSnoc(queue);
      var (f, completed) := FinishDone(projectPath, files, t, pending, done);
      var path := PathOf(projectPath, u);
      if u in pending && u in done && path in f {
        var g := f[path := OnWaitDone(f[path], done[u])];
        assert Later(f[path], g[path]);
        EvolvedTrans(files, f, g);
      }
    }
  }

  /** The second pass completes only URIs of `rest` whose files have become
      complete, and only lets the files evolve. */
  lemma {:induction false} CatchUpEffect(projectPath: string, files: map<string, State>, queue: seq<string>, rest: set<string>,
                                         targets: map<string, int>)
    ensures var (f, completed) := CatchUp(projectPath, files, queue, rest, targets);
      && Evolved(files, f) && (NoCloseFlags(files) ==> NoCloseFlags(f))
      && (forall u :: u in completed ==> u in rest && PathOf(projectPath, u) in f && f[PathOf(projectPath, u)].complete)
    decreases |queue|
  {
    if queue != [] {
      var t := queue[..|queue| - 1];
      var u := queue[|queue| - 1];
      CatchUpEffect(projectPath, files, t, rest, targets);
      var (f, completed) := CatchUp(projectPath, files, t, rest, targets);
      var path := PathOf(projectPath, u);
      if u in rest && u in targets && path in f {
        var g := f[path := MarkCaughtUp(f[path], targets[u])];
        assert Later(f[path], g[path]);
        EvolvedTrans(files, f, g);
      }
    }
  }

  /** Every URI of the queue whose file is open is either still pending or
      its file is complete. */
  predicate PendingOrComplete(projectPath: string, files: map<string, State>, queue: seq<string>, pending: set<string>) {
    forall u :: u in queue && PathOf(projectPath, u) in files ==> u in pending || files[PathOf(projectPath, u)].complete
  }

  /** A poll only lets the files evolve, drops from the pending set only
      URIs whose files are then complete, and drops every pending URI whose
      request it finds finished. */
  lemma PollEffect(projectPath: string, files: map<string, State>, queue: seq<string>, pending: set<string>,
                   targets: map<string, int>, tick: Tick)
    requires PendingOrComplete(projectPath, files, queue, pending)
    ensures var (f, p) := Poll(projectPath, files, queue, pending, targets, tick);
      && Evolved(files, f) && (NoCloseFlags(files) ==> NoCloseFlags(f))
      && p <= pending && PendingOrComplete(projectPath, f, queue, p)
      && (forall u :: u in queue && u in pending && u in tick.done && PathOf(projectPath, u) in files ==> u !in p)
  {
    var f := DeliverAll(projectPath, files, tick.deliveries);
    DeliverAllEffect(projectPath, files, tick.deliveries);
    FinishDoneEffect(projectPath, f, queue, pending, tick.done);
    var (f1, finished) := FinishDone(projectPath, f, queue, pending, tick.done);
    CatchUpEffect(projectPath, f1, queue, pending - finished, targets);
    var (f2, caught) := CatchUp(projectPath, f1, queue, pending - finished, targets);
    EvolvedTrans(files, f, f1);
    EvolvedTrans(files, f1, f2);
  }

  /** Polling only lets the files evolve, and unless it times out it ends
      with every queued file that is open complete. */
  lemma {:induction false} PollsEffect(projectPath: string, files: map<string, State>, queue: seq<string>, pending: set<string>,
                                       targets: map<string, int>, ticks: seq<Tick>)
    requires PendingOrComplete(projectPath, files, queue, pending)
    ensures var (g, timedOut) := Polls(projectPath, files, queue, pending, targets, ticks);
      && Evolved(files, g) && (NoCloseFlags(files) ==> NoCloseFlags(g))
      && (timedOut ==> pending != {})
      && (!timedOut ==> forall u :: u in queue && PathOf(projectPath, u) in g ==> g[PathOf(projectPath, u)].complete)
    decreases |ticks|
  {
    if pending != {} && ticks != [] {
      PollEffect(projectPath, files, queue, pending, targets, ticks[0]);
      var (f, p) := Poll(projectPath, files, queue, pending, targets, ticks[0]);
      PollsEffect(projectPath, f, queue, p, targets, ticks[1..]);
      EvolvedTrans(files, f, Polls(projectPath, f, queue, p, targets, ticks[1..]).0);
    }
  }

  /** A poll that finds every pending request finished ends the wait
      without a timeout. */
  lemma AllDoneEndsWait(projectPath: string, files: map<string, State>, queue: seq<string>, pending: set<string>,
                        targets: map<string, int>, ticks: seq<Tick>)
    requires PendingOrComplete(projectPath, files, queue, pending)
    requires ticks != [] && pending != {}
    requires forall u :: u in pending ==> u in queue && u in ticks[0].done && PathOf(projectPath, u) in files
    ensures !Polls(projectPath, files, queue, pending, targets, ticks).1
  {
    PollEffect(projectPath, files, queue, pending, targets, ticks[0]);
    var (f, p) := Poll(projectPath, files, queue, pending, targets, ticks[0]);
    assert p == {};
  }

  /** The waitForDiagnostics requests the wait sends: one per URI needing
      it, for the version its file had. */
  function WaitRequestsFor(projectPath: string, files: map<string, State>, uris: seq<string>): seq<Outgoing>
    requires forall u :: u in uris ==> PathOf(projectPath, u) in files
  {
    seq(|uris|, i requires 0 <= i < |uris| =>
      AsyncRequest(WAIT_FOR_DIAGNOSTICS, WaitParams(uris[i], files[PathOf(projectPath, uris[i])].version)))
  }

  /** The paths of the listed URIs that are not open are none exactly when
      every listed URI's file is open. */
  lemma MissingNone(projectPath: string, files: map<string, State>, uris: seq<string>)
    ensures Without(PathsOf(projectPath, uris), files.Keys) == [] <==> forall u :: u in uris ==> PathOf(projectPath, u) in files
  {
    var missing := Without(PathsOf(projectPath, uris), files.Keys);
    if missing != [] {
      assert missing[0] in PathsOf(projectPath, uris);
      var i :| 0 <= i < |uris| && PathsOf(projectPath, uris)[i] == missing[0];
      assert uris[i] in uris;
    } else {
      forall u | u in uris ensures PathOf(projectPath, u) in files {
        var i :| 0 <= i < |uris| && uris[i] == u;
        assert PathsOf(projectPath, uris)[i] == PathOf(projectPath, u);
      }
    }
  }

  /** The check before the wait only lets the files evolve, and leaves
      every listed file that needs no wait complete. */
  lemma CheckedEffect(projectPath: string, files: map<string, State>, uris: seq<string>)
    ensures var checked := Checked(projectPath, files, uris);
      && Evolved(files, checked) && (NoCloseFlags(files) ==> NoCloseFlags(checked))
      && forall u :: u in uris && PathOf(projectPath, u) in files && !NeedsWait(files, PathOf(projectPath, u)) ==>
           checked[PathOf(projectPath, u)].complete
  {
    forall u | u in uris && PathOf(projectPath, u) in files
      ensures PathOf(projectPath, u) in PathsOf(projectPath, uris)
    {
      var i :| 0 <= i < |uris| && uris[i] == u;
      assert PathsOf(projectPath, uris)[i] == PathOf(projectPath, u);
    }
  }

  lemma WaitRequestsTargets(projectPath: string, files: map<string, State>, needing: seq<string>, targets: map<string, int>)
    requires forall u :: u in needing ==> PathOf(projectPath, u) in files
    requires forall u :: u in needing ==> u in targets && targets[u] == files[PathOf(projectPath, u)].version
    ensures WaitRequests(needing, targets) == WaitRequestsFor(projectPath, files, needing)
  {
  }

  /** The wait proper keeps the invariant and lets the files evolve from
      where the check left them; unless it times out, every listed file not
      already complete after the check is complete at the end. */
  lemma AwaitEffect(projectPath: string, c: Cache, f: map<string, State>, uris: seq<string>, needing: seq<string>,
                    targets: map<string, int>, ticks: seq<Tick>)
    requires ConsistentMap(projectPath, c.order, f) && NoCloseFlags(f)
    requires forall u :: u in uris ==> PathOf(projectPath, u) in f
    requires forall u :: u in uris && u !in needing ==> f[PathOf(projectPath, u)].complete
    ensures var (r, res) := Await(projectPath, c, f, needing, targets, ticks);
      && res.Ok? && Sound(projectPath, r)
      && r.order == c.order && r.closed == c.closed
      && Evolved(f, r.files)
      && r.outbox == c.outbox + WaitRequests(needing, targets)
      && (needing == [] ==> res.value == false && r.files == f)
      && (res.value == false ==> forall u :: u in uris ==> r.files[PathOf(projectPath, u)].complete)
  {
    if needing != [] {
      PollsEffect(projectPath, f, Dedup(needing), Elems(needing), targets, ticks);
    } else {
      assert c.outbox + [] == c.outbox;
    }
  }

  /** The success path of `_wait_for_diagnostics`, once every listed file is
      known to be open. */
  lemma AfterWaitOk(projectPath: string, c: Cache, uris: seq<string>, ticks: seq<Tick>)
    requires Sound(projectPath, c)
    requires forall u :: u in uris ==> PathOf(projectPath, u) in c.files
    ensures var (r, res) := AfterWait(projectPath, c, uris, ticks);
      var needing := NeedingWait(projectPath, c.files, uris);
      && res.Ok? && Sound(projectPath, r)
      && r.order == c.order && r.closed == c.closed
      && Evolved(c.files, r.files)
      && r.outbox == c.outbox + WaitRequestsFor(projectPath, c.files, needing)
      && (needing == [] ==> res.value == false && r.files == Checked(projectPath, c.files, uris))
      && (res.value == false ==> forall u :: u in uris ==> r.files[PathOf(projectPath, u)].complete)
  {
    MissingNone(projectPath, c.files, uris);
    PrepassEffect(projectPath, c.files, uris);
    var (f, needing, targets) := Prepass(projectPath, c.files, uris);
    CheckedEffect(projectPath, c.files, uris);
    WaitRequestsTargets(projectPath, c.files, needing, targets);
    AwaitEffect(projectPath, c, f, uris, needing, targets, ticks);
    EvolvedTrans(c.files, f, AfterWait(projectPath, c, uris, ticks).0.files);
  }

  /** What `_wait_for_diagnostics` promises: it raises, changing nothing,
      exactly when a listed file is not open; otherwise files only evolve,
      a file complete or caught up with its version needs no request, one
      request goes out per listed URI that still needs one, and unless it
      times out every listed file ends complete. */
  lemma AfterWaitEffect(projectPath: string, c: Cache, uris: seq<string>, ticks: seq<Tick>)
    requires Sound(projectPath, c)
    ensures var (r, res) := AfterWait(projectPath, c, uris, ticks);
      var needing := NeedingWait(projectPath, c.files, uris);
      && (res.Err? <==> exists u :: u in uris && PathOf(projectPath, u) !in c.files)
      && (res.Err? ==> r == c && res.error == FileNotFound(Without(PathsOf(projectPath, uris), c.files.Keys)))
      && Sound(projectPath, r)
      && (res.Ok? ==>
        && r.order == c.order && r.closed == c.closed
        && Evolved(c.files, r.files)
        && r.outbox == c.outbox + WaitRequestsFor(projectPath, c.files, needing)
        && (needing == [] ==> res.value == false && r.files == Checked(projectPath, c.files, uris))
        && (res.value == false ==> forall u :: u in uris ==> r.files[PathOf(projectPath, u)].complete))
  {
    MissingNone(projectPath, c.files, uris);
    if forall u :: u in uris ==> PathOf(projectPath, u) in c.files {
      AfterWaitOk(projectPath, c, uris, ticks);
    }
  }

  // ---------------------------------------------------------------------
  // update_file, get_file_content, get_diagnostics

  /** `update_file` on the whole state; `applyChanges` is the text edit the
      client applies locally. */
  function AfterUpdate(c: Cache, path: string, changes: seq<DocumentContentChange>,
                       applyChanges: (string, seq<DocumentContentChange>) -> string): (Cache, Result<(), FileError>)
  {
    if path !in c.files then (c, Err(FileNotFound([path])))
    else
      var s := AfterChange(c.files[path], applyChanges(c.files[path].content, changes));
      (c.(files := c.files[path := s], outbox := c.outbox + [Notification(DID_CHANGE, DidChangeParams(s.uri, s.version, changes))]),
       Ok(()))
  }

  /** What `update_file` promises: an unopened path raises before any
      change; otherwise only that file changes, to the next version with
      the edited text and everything derived from the old version reset,
      and one didChange for the new version goes out. */
  lemma AfterUpdateEffect(projectPath: string, c: Cache, path: string, changes: seq<DocumentContentChange>,
                          applyChanges: (string, seq<DocumentContentChange>) -> string)
    requires Sound(projectPath, c)
    ensures var (r, res) := AfterUpdate(c, path, changes, applyChanges);
      && (res.Err? <==> path !in c.files)
      && (res.Err? ==> r == c && res.error == FileNotFound([path]))
      && Sound(projectPath, r)
      && (res.Ok? ==>
        var old_ := c.files[path];
        var new_ := r.files[path];
        && r.order == c.order && r.closed == c.closed && r.files.Keys == c.files.Keys
        && (forall p :: p in c.files && p != path ==> r.files[p] == c.files[p])
        && new_.version == old_.version + 1 && new_.diagnosticsVersion == old_.version
        && new_.content == applyChanges(old_.content, changes) && new_.uri == old_.uri
        && new_.diagnostics == [] && new_.processing && new_.error.None? && !new_.fatalError
        && !new_.complete && !new_.closePending && !new_.closeReady
        && r.outbox == c.outbox + [Notification(DID_CHANGE, DidChangeParams(old_.uri, old_.version + 1, changes))])
  {
  }

  /** `get_file_content`. */
  function FileContent(c: Cache, path: string): Result<string, FileError> {
    if path in c.files then Ok(c.files[path].content) else Err(FileNotFound([path]))
  }

  /** The content is the text read from disk until the first edit, and the
      edited text after it; both answers stay until the next edit. */
  lemma ContentAfterOpen(projectPath: string, readText: string -> string, max: int, c: Cache, path: string, ms: seq<Message>)
    requires Sound(projectPath, c) && 1 <= max && path !in c.files
    ensures FileContent(AfterOpen(projectPath, readText, max, c, [path], ms).0, path) == Ok(readText(path))
  {
    AfterOpenFiles(projectPath, readText, max, c, [path], ms);
  }

  lemma ContentAfterUpdate(c: Cache, path: string, changes: seq<DocumentContentChange>,
                           applyChanges: (string, seq<DocumentContentChange>) -> string)
    requires path in c.files
    ensures FileContent(AfterUpdate(c, path, changes, applyChanges).0, path) == Ok(applyChanges(c.files[path].content, changes))
  {
  }

  /** `get_diagnostics` on the whole state. `ms` are the notifications an
      eviction handles, `ticks` the polls of the wait. */
  function AfterGetDiagnostics(projectPath: string, readText: string -> string, max: int, c: Cache, path: string,
                               ms: seq<Message>, ticks: seq<Tick>): (Cache, Result<seq<Diagnostic>, FileError>)
  {
    if path !in c.files && path in c.closed then (c.(closed := c.closed - {path}), Ok([]))
    else
      var (d, status) := if path in c.files then (c, Ok(())) else AfterOpen(projectPath, readText, max, c, [path], ms);
      if status.Err? then (d, Err(status.error))
      else if path !in d.files then (d, Err(KeyError(path)))
      else if d.files[path].complete then (d, Ok(Answer(d.files[path])))
      else
        var (e, waited) := AfterWait(projectPath, d, [d.files[path].uri], ticks);
        if waited.Err? then (e, Err(waited.error))
        else if path !in e.files then (e, Err(KeyError(path)))
        else (e, Ok(Answer(e.files[path])))
  }

  /** Waiting on one open file succeeds, keeps it open, and unless it times
      out leaves it complete. */
  lemma WaitOne(projectPath: string, d: Cache, path: string, ticks: seq<Tick>)
    requires Sound(projectPath, d) && path in d.files
    ensures var (e, waited) := AfterWait(projectPath, d, [d.files[path].uri], ticks);
      && waited.Ok? && Sound(projectPath, e) && path in e.files
      && e.order == d.order && e.closed == d.closed && Evolved(d.files, e.files)
      && (waited.value == false ==> e.files[path].complete)
  {
    var uri := d.files[path].uri;
    UriToLocalOfLocalToUri(projectPath, path);
    assert PathOf(projectPath, uri) == path;
    AfterWaitEffect(projectPath, d, [uri], ticks);
    assert uri in [uri];
  }

  /** What `get_diagnostics` promises: a recently closed path that is not
      open answers [] and is forgotten, without reopening; a complete file
      answers from the cache with no change; otherwise the file is opened if
      needed (which fails only when not even one file may be open) and
      waited for, and the answer is the file's error, else the fatal-error
      message when no diagnostics came, else its diagnostics. */
  lemma AfterGetDiagnosticsEffect(projectPath: string, readText: string -> string, max: int, c: Cache, path: string,
                                  ms: seq<Message>, ticks: seq<Tick>)
    requires Sound(projectPath, c) && Bounded(max, c)
    ensures var (r, res) := AfterGetDiagnostics(projectPath, readText, max, c, path, ms, ticks);
      && Sound(projectPath, r) && Bounded(max, r)
      && (path !in c.files && path in c.closed ==> r == c.(closed := c.closed - {path}) && res == Ok([]))
      && (path in c.files && c.files[path].complete ==> r == c && res == Ok(Answer(c.files[path])))
      && (res.Err? <==> path !in c.files && path !in c.closed && max < 1)
      && (res.Err? ==> r == c && res.error == TooManyFiles(max))
      && (res.Ok? && (path in c.files || path !in c.closed) ==> path in r.files && res.value == Answer(r.files[path]))
      && (path in c.files ==> r.order == c.order && r.closed == c.closed && Evolved(c.files, r.files))
  {
    if !(path !in c.files && path in c.closed) {
      var out := if path in c.files then (c, Ok(())) else AfterOpen(projectPath, readText, max, c, [path], ms);
      var d, status := out.0, out.1;
      if path !in c.files {
        AfterOpenEffect(projectPath, readText, max, c, [path], ms);
        assert path in [path];
      }
      if status.Ok? && path in d.files && !d.files[path].complete {
        WaitOne(projectPath, d, path, ticks);
      }
    }
  }
}
