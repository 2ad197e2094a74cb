/** The blocking language-server wrapper as values: what each of its
    operations does to the request counter, the written request objects,
    the unread server messages and the ordered cache of synced files. The
    class in LanguageServer is proved against these functions. */
module LanguageSession {
  import opened Wrappers
  import opened Json
  import opened Protocol
  import opened OrderedKeys
  import Uri
  import Utils

  /** What `_open_files` reports for one file: nothing (no push, or an
      empty push), or the messages of its warnings and of its errors. */
  datatype FileDiagnostics = NoDiagnostics | Grouped(warnings: seq<string>, errors: seq<string>)

  /** `Stalled`: the server's output ran out before the awaited message,
      where the wrapper would go on reading empty messages for ever.
      `KeyError`: a published diagnostic without the key named. */
  datatype ServerError = Stalled | KeyError(key: string)

  /** The wrapper's state: the next request id, the request objects
      written so far, the messages the server has yet to be read for, and
      `synced_files` as its keys in insertion order plus their values. */
  datatype Session = Session(
    requestId: int,
    sent: seq<Json>,
    inbox: seq<Message>,
    synced: seq<string>,
    cache: map<string, FileDiagnostics>)

  lemma AppendAssoc<T>(a: seq<T>, b: seq<T>, c: seq<T>)
    ensures a + (b + c) == (a + b) + c
  {
  }

  predicate Consistent(s: Session) {
    NoDup(s.synced) && Elems(s.synced) == s.cache.Keys
  }

  // ---------------------------------------------------------------------
  // Requests and the read-until-id loop

  /** `_send_raw_request`: write the request object; a request takes the
      current id and advances the counter, a notification has no id. */
  function SendRaw(s: Session, name: string, params: Json, isNotification: bool): Session {
    var id := if isNotification then None else Some(s.requestId);
    s.(sent := s.sent + [RequestObject(name, params, id)],
       requestId := if isNotification then s.requestId else s.requestId + 1)
  }

  /** The id a written request object carries. */
  function SentId(j: Json): Option<int> {
    if j.JObj? then
      match Get(j.fields, "id")
      case Some(JInt(i)) => Some(i)
      case _ => None
    else None
  }

  /** Every id written so far is below the counter. */
  predicate IdsBelow(s: Session) {
    forall i :: 0 <= i < |s.sent| && SentId(s.sent[i]).Some? ==> SentId(s.sent[i]).value < s.requestId
  }

  /** Request ids are fresh: a request carries an id no earlier request
      object carries, a notification carries none, and the counter never
      goes back. */
  lemma SendRawFresh(s: Session, name: string, params: Json, isNotification: bool)
    requires IdsBelow(s)
    ensures var r := SendRaw(s, name, params, isNotification);
      && IdsBelow(r)
      && r.requestId >= s.requestId
      && SentId(r.sent[|r.sent| - 1]) == (if isNotification then None else Some(s.requestId))
      && (!isNotification ==> forall i :: 0 <= i < |s.sent| ==> SentId(s.sent[i]) != Some(s.requestId))
  {
    var r := SendRaw(s, name, params, isNotification);
    assert r.sent[|r.sent| - 1] == RequestObject(name, params, if isNotification then None else Some(s.requestId));
    forall i | 0 <= i < |r.sent| && SentId(r.sent[i]).Some? ensures SentId(r.sent[i]).value < r.requestId {
      if i < |s.sent| {
        assert r.sent[i] == s.sent[i];
      }
    }
  }

  /** Index of the first message with the given id. */
  function FirstWithId(ms: seq<Message>, id: int): (k: Option<nat>)
    ensures k.Some? ==> k.value < |ms| && IdOf(ms[k.value]) == Some(id)
    ensures k.Some? ==> forall j :: 0 <= j < k.value ==> IdOf(ms[j]) != Some(id)
    ensures k.None? ==> forall j :: 0 <= j < |ms| ==> IdOf(ms[j]) != Some(id)
  {
    if ms == [] then None
    else if IdOf(ms[0]) == Some(id) then Some(0)
    else match FirstWithId(ms[1..], id)
      case None => None
      case Some(k) => Some(k + 1)
  }

  /** The reading loop of `_send_request`: the messages up to and including
      the first one carrying `id`, and the messages after it. */
  function SplitAtId(inbox: seq<Message>, id: int): (r: Option<(seq<Message>, seq<Message>)>)
    ensures r.Some? <==> exists i :: 0 <= i < |inbox| && IdOf(inbox[i]) == Some(id)
    ensures r.Some? ==>
      var (ms, rest) := r.value;
      && ms != []
      && IdOf(ms[|ms| - 1]) == Some(id)
      && (forall j :: 0 <= j < |ms| - 1 ==> IdOf(ms[j]) != Some(id))
      && ms + rest == inbox
  {
    match FirstWithId(inbox, id)
    case None => None
    case Some(k) =>
      assert inbox[..k + 1] + inbox[k + 1..] == inbox;
      Some((inbox[..k + 1], inbox[k + 1..]))
  }

  /** `_send_request`: write a request, then read messages until one
      carries its id; all messages read are returned, that one last. */
  function Request(s: Session, name: string, params: Json): (r: (Session, Result<seq<Message>, ServerError>))
    ensures r.0.requestId == s.requestId + 1
    ensures r.0.sent == s.sent + [RequestObject(name, params, Some(s.requestId))]
    ensures r.0.synced == s.synced && r.0.cache == s.cache
    ensures r.1.Ok? <==> exists i :: 0 <= i < |s.inbox| && IdOf(s.inbox[i]) == Some(s.requestId)
    ensures r.1.Ok? ==>
      var ms := r.1.value;
      && ms != []
      && IdOf(ms[|ms| - 1]) == Some(s.requestId)
      && (forall j :: 0 <= j < |ms| - 1 ==> IdOf(ms[j]) != Some(s.requestId))
      && ms + r.0.inbox == s.inbox
    ensures r.1.Err? ==> r.1.error == Stalled && r.0.inbox == []
  {
    var s1 := SendRaw(s, name, params, false);
    match SplitAtId(s.inbox, s.requestId)
    case None => (s1.(inbox := []), Err(Stalled))
    case Some((ms, rest)) => (s1.(inbox := rest), Ok(ms))
  }

  /** `Request` when the first message with the request's id is at `k`. */
  lemma RequestAt(s: Session, name: string, params: Json, k: int)
    requires 0 <= k < |s.inbox| && IdOf(s.inbox[k]) == Some(s.requestId)
    requires forall j :: 0 <= j < k ==> IdOf(s.inbox[j]) != Some(s.requestId)
    ensures Request(s, name, params) == (SendRaw(s, name, params, false).(inbox := s.inbox[k + 1..]), Ok(s.inbox[..k + 1]))
  {
    assert FirstWithId(s.inbox, s.requestId) == Some(k);
  }

  /** `Request` when no message carries the request's id. */
  lemma RequestStalls(s: Session, name: string, params: Json)
    requires forall j :: 0 <= j < |s.inbox| ==> IdOf(s.inbox[j]) != Some(s.requestId)
    ensures Request(s, name, params) == (SendRaw(s, name, params, false).(inbox := []), Err(Stalled))
  {
    assert FirstWithId(s.inbox, s.requestId).None?;
  }

  /** `result.get("result", True) == {}`: a response whose result is the
      empty object. */
  predicate IsEmptyResult(m: Message) {
    m.Response? && m.result == JObj([])
  }

  function FirstEmptyResult(ms: seq<Message>): (k: Option<nat>)
    ensures k.Some? ==> k.value < |ms| && IsEmptyResult(ms[k.value])
    ensures k.Some? ==> forall j :: 0 <= j < k.value ==> !IsEmptyResult(ms[j])
    ensures k.None? ==> forall j :: 0 <= j < |ms| ==> !IsEmptyResult(ms[j])
  {
    if ms == [] then None
    else if IsEmptyResult(ms[0]) then Some(0)
    else match FirstEmptyResult(ms[1..])
      case None => None
      case Some(k) => Some(k + 1)
  }

  /** The `while True` loop of `_open_files` after a waitForDiagnostics
      request: unless the last message read already has an empty result,
      read on until one has. */
  function Drain(s: Session, last: Message): (r: (Session, Result<seq<Message>, ServerError>))
    ensures r.0 == s.(inbox := r.0.inbox)
    ensures r.1.Ok? <==> IsEmptyResult(last) || exists i :: 0 <= i < |s.inbox| && IsEmptyResult(s.inbox[i])
    ensures r.1.Ok? ==>
      var ms := r.1.value;
      && ms + r.0.inbox == s.inbox
      && (ms == [] <==> IsEmptyResult(last))
      && (ms != [] ==> IsEmptyResult(ms[|ms| - 1]) && forall j :: 0 <= j < |ms| - 1 ==> !IsEmptyResult(ms[j]))
    ensures r.1.Err? ==> r.1.error == Stalled && r.0.inbox == []
  {
    if IsEmptyResult(last) then (s, Ok([]))
    else match FirstEmptyResult(s.inbox)
      case None => (s.(inbox := []), Err(Stalled))
      case Some(k) =>
        assert s.inbox[..k + 1] + s.inbox[k + 1..] == s.inbox;
        (s.(inbox := s.inbox[k + 1..]), Ok(s.inbox[..k + 1]))
  }

  /** `Drain` when the first message with an empty result is at `k`. */
  lemma DrainAt(s: Session, last: Message, k: int)
    requires !IsEmptyResult(last)
    requires 0 <= k < |s.inbox| && IsEmptyResult(s.inbox[k])
    requires forall j :: 0 <= j < k ==> !IsEmptyResult(s.inbox[j])
    ensures Drain(s, last) == (s.(inbox := s.inbox[k + 1..]), Ok(s.inbox[..k + 1]))
  {
    assert FirstEmptyResult(s.inbox) == Some(k);
  }

  /** `Drain` when no message has an empty result. */
  lemma DrainStalls(s: Session, last: Message)
    requires !IsEmptyResult(last)
    requires forall j :: 0 <= j < |s.inbox| ==> !IsEmptyResult(s.inbox[j])
    ensures Drain(s, last) == (s.(inbox := []), Err(Stalled))
  {
    assert FirstEmptyResult(s.inbox).None?;
  }

  function WaitParams(uri: string): Json {
    JObj([("uri", JStr(uri)), ("version", JInt(1))])
  }

  /** One round of the second loop of `_open_files`. */
  function WaitOne(s: Session, uri: string): (r: (Session, Result<seq<Message>, ServerError>))
    ensures r.0.synced == s.synced && r.0.cache == s.cache
    ensures r.1.Ok? ==>
      && r.0.requestId == s.requestId + 1
      && r.0.sent == s.sent + [RequestObject(WAIT_FOR_DIAGNOSTICS, WaitParams(uri), Some(s.requestId))]
      && r.1.value + r.0.inbox == s.inbox
  {
    var sent := Request(s, WAIT_FOR_DIAGNOSTICS, WaitParams(uri));
    if sent.1.Err? then (sent.0, Err(sent.1.error))
    else
      var ms := sent.1.value;
      var drained := Drain(sent.0, ms[|ms| - 1]);
      if drained.1.Err? then (drained.0, Err(drained.1.error))
      else
        AppendAssoc(ms, drained.1.value, drained.0.inbox);
        (drained.0, Ok(ms + drained.1.value))
  }

  /** `WaitOne` in terms of its two steps. */
  lemma WaitOneSteps(s: Session, uri: string)
    ensures var sent := Request(s, WAIT_FOR_DIAGNOSTICS, WaitParams(uri));
      sent.1.Ok? ==> (
        && sent.1.value != []
        && var d := Drain(sent.0, sent.1.value[|sent.1.value| - 1]);
           WaitOne(s, uri) == if d.1.Err? then (d.0, Err(d.1.error)) else (d.0, Ok(sent.1.value + d.1.value)))
    ensures var sent := Request(s, WAIT_FOR_DIAGNOSTICS, WaitParams(uri));
      sent.1.Err? ==> WaitOne(s, uri) == (sent.0, Err(sent.1.error))
  {
  }

  /** The waitForDiagnostics request objects for a list of URIs, the
      first with id `id`. */
  function WaitRequests(id: int, uris: seq<string>): (r: seq<Json>)
    ensures |r| == |uris|
    decreases |uris|
  {
    if uris == [] then []
    else
      var last := RequestObject(WAIT_FOR_DIAGNOSTICS, WaitParams(uris[|uris| - 1]), Some(id + |uris| - 1));
      WaitRequests(id, uris[..|uris| - 1]) + [last]
  }

  lemma WaitRequestsSnoc(id: int, uris: seq<string>)
    requires uris != []
    ensures WaitRequests(id, uris) == WaitRequests(id, uris[..|uris| - 1])
      + [RequestObject(WAIT_FOR_DIAGNOSTICS, WaitParams(uris[|uris| - 1]), Some(id + |uris| - 1))]
  {
  }

  /** The second loop of `_open_files`: one request per URI, in order, the
      messages read by each appended to one list. */
  function WaitEach(s: Session, uris: seq<string>): (r: (Session, Result<seq<Message>, ServerError>))
    ensures r.0.synced == s.synced && r.0.cache == s.cache
    ensures r.1.Ok? ==>
      && r.0.requestId == s.requestId + |uris|
      && r.0.sent == s.sent + WaitRequests(s.requestId, uris)
      && r.1.value + r.0.inbox == s.inbox
    decreases |uris|
  {
    if uris == [] then (s, Ok([]))
    else
      var before := WaitEach(s, uris[..|uris| - 1]);
      if before.1.Err? then before
      else
        var after := WaitOne(before.0, uris[|uris| - 1]);
        if after.1.Err? then after
        else
          WaitEachStep(s, uris, before.0, before.1.value, after.0, after.1.value);
          (after.0, Ok(before.1.value + after.1.value))
  }

  /** Once a round fails, the later URIs are not waited for. */
  lemma {:induction false} WaitEachFails(s: Session, uris: seq<string>, n: int)
    requires 0 < n <= |uris| && WaitEach(s, uris[..n]).1.Err?
    ensures WaitEach(s, uris) == WaitEach(s, uris[..n])
    decreases |uris|
  {
    if n < |uris| {
      var init := uris[..|uris| - 1];
      assert init[..n] == uris[..n];
      WaitEachFails(s, init, n);
    } else {
      assert uris[..n] == uris;
    }
  }

  /** The rounds for a prefix, one more that succeeds. */
  lemma WaitEachSnoc(s: Session, uris: seq<string>, i: int, s1: Session, ms: seq<Message>, s2: Session, more: seq<Message>)
    requires 0 <= i < |uris|
    requires WaitEach(s, uris[..i]) == (s1, Ok(ms)) && WaitOne(s1, uris[i]) == (s2, Ok(more))
    ensures WaitEach(s, uris[..i + 1]) == (s2, Ok(ms + more))
  {
    WaitEachPrefix(s, uris, i);
  }

  /** The rounds for a prefix, one more that fails. */
  lemma WaitEachSnocFails(s: Session, uris: seq<string>, i: int, s1: Session, ms: seq<Message>,
                          w: (Session, Result<seq<Message>, ServerError>))
    requires 0 <= i < |uris|
    requires WaitEach(s, uris[..i]) == (s1, Ok(ms)) && WaitOne(s1, uris[i]) == w && w.1.Err?
    ensures WaitEach(s, uris[..i + 1]) == w
  {
    WaitEachPrefix(s, uris, i);
  }

  /** `WaitEach` over one more URI, in terms of the rounds before it. */
  lemma WaitEachPrefix(s: Session, uris: seq<string>, i: int)
    requires 0 <= i < |uris|
    ensures var before := WaitEach(s, uris[..i]);
      WaitEach(s, uris[..i + 1]) == if before.1.Err? then before else
        var after := WaitOne(before.0, uris[i]);
        if after.1.Err? then after else (after.0, Ok(before.1.value + after.1.value))
  {
    var u := uris[..i + 1];
    assert u[..|u| - 1] == uris[..i] && u[|u| - 1] == uris[i];
  }

  lemma WaitEachStep(s: Session, uris: seq<string>, s1: Session, ms: seq<Message>, s2: Session, more: seq<Message>)
    requires uris != []
    requires s1.requestId == s.requestId + |uris| - 1
    requires s1.sent == s.sent + WaitRequests(s.requestId, uris[..|uris| - 1]) && ms + s1.inbox == s.inbox
    requires s2.requestId == s1.requestId + 1 && more + s2.inbox == s1.inbox
    requires s2.sent == s1.sent + [RequestObject(WAIT_FOR_DIAGNOSTICS, WaitParams(uris[|uris| - 1]), Some(s1.requestId))]
    ensures s2.sent == s.sent + WaitRequests(s.requestId, uris)
    ensures (ms + more) + s2.inbox == s.inbox
  {
    AppendAssoc(ms, more, s2.inbox);
    WaitRequestsSnoc(s.requestId, uris);
    AppendAssoc(s.sent, WaitRequests(s.requestId, uris[..|uris| - 1]), [s2.sent[|s2.sent| - 1]]);
  }

  // ---------------------------------------------------------------------
  // Diagnostics grouping

  predicate IsPushFor(m: Message, uri: string) {
    m.PublishDiagnostics? && m.uri == uri
  }

  /** `rs[k]` is the last publishDiagnostics for `uri` among `rs`. */
  predicate LastPushAt(rs: seq<Message>, k: int, uri: string) {
    0 <= k < |rs| && IsPushFor(rs[k], uri) && forall j :: k < j < |rs| ==> !IsPushFor(rs[j], uri)
  }

  /** Index of the last publishDiagnostics for `uri`. */
  function LastPushIndex(rs: seq<Message>, uri: string): (k: Option<nat>)
    ensures k.Some? ==> LastPushAt(rs, k.value, uri)
    ensures k.None? ==> forall j :: 0 <= j < |rs| ==> !IsPushFor(rs[j], uri)
    decreases |rs|
  {
    if rs == [] then None
    else if IsPushFor(rs[|rs| - 1], uri) then Some(|rs| - 1)
    else
      var k := LastPushIndex(rs[..|rs| - 1], uri);
      assert forall j :: 0 <= j < |rs| - 1 ==> rs[j] == rs[..|rs| - 1][j];
      k
  }

  /** The dictionary comprehension of `_open_files`: each pushed URI to the
      diagnostics of its last push. */
  function LastPushes(rs: seq<Message>): (d: map<string, seq<Diagnostic>>)
    ensures forall u :: u in d <==> LastPushIndex(rs, u).Some?
    ensures forall u :: u in d ==> d[u] == rs[LastPushIndex(rs, u).value].diagnostics
    decreases |rs|
  {
    if rs == [] then map[]
    else
      var d := LastPushes(rs[..|rs| - 1]);
      var m := rs[|rs| - 1];
      if m.PublishDiagnostics? then d[m.uri := m.diagnostics] else d
  }

  /** The messages of the diagnostics of one severity, in order. */
  function MessagesOf(ds: seq<Diagnostic>, severity: int): (r: seq<string>)
    ensures |r| <= |ds|
    ensures forall x :: x in r <==> exists i :: 0 <= i < |ds| && ds[i].severity == Some(severity) && ds[i].message == x
    decreases |ds|
  {
    if ds == [] then []
    else
      var init := ds[..|ds| - 1];
      var d := ds[|ds| - 1];
      assert forall i :: 0 <= i < |init| ==> ds[i] == init[i];
      MessagesOf(init, severity) + (if d.severity == Some(severity) then [d.message] else [])
  }

  /** Grouping keeps order: the messages of a concatenation are the
      messages of its parts, one after the other. */
  lemma {:induction false} MessagesOfAppend(a: seq<Diagnostic>, b: seq<Diagnostic>, severity: int)
    ensures MessagesOf(a + b, severity) == MessagesOf(a, severity) + MessagesOf(b, severity)
    decreases |b|
  {
    if b != [] {
      var b' := b[..|b| - 1];
      assert (a + b)[..|a + b| - 1] == a + b';
      MessagesOfAppend(a, b', severity);
    } else {
      assert a + b == a;
    }
  }

  predicate MissingSeverity(ds: seq<Diagnostic>) {
    exists i :: 0 <= i < |ds| && ds[i].severity.None?
  }

  function Group(pushes: map<string, seq<Diagnostic>>, uri: string): FileDiagnostics {
    if uri !in pushes || pushes[uri] == [] then NoDiagnostics
    else Grouped(MessagesOf(pushes[uri], 2), MessagesOf(pushes[uri], 1))
  }

  /** The end of `_open_files`: a non-empty last push becomes its warnings
      (severity 2) and errors (severity 1); a URI without one reports
      nothing. Reading the severity of a diagnostic that has none fails,
      whichever URI it was pushed for. */
  function GroupDiagnostics(rs: seq<Message>, uris: seq<string>): (r: Result<seq<FileDiagnostics>, ServerError>)
    ensures r.Ok? ==> |r.value| == |uris|
    ensures r.Err? ==> r.error == KeyError("severity")
  {
    var pushes := LastPushes(rs);
    if exists u :: u in pushes && MissingSeverity(pushes[u]) then Err(KeyError("severity"))
    else Ok(seq(|uris|, i requires 0 <= i < |uris| => Group(pushes, uris[i])))
  }

  lemma LastPushUnique(rs: seq<Message>, k: int, k': int, uri: string)
    requires LastPushAt(rs, k, uri) && LastPushAt(rs, k', uri)
    ensures k == k'
  {
  }

  /** For each requested URI the last publishDiagnostics wins: its
      warnings and errors, in the order pushed, or nothing when it pushed
      an empty list. */
  lemma GroupedAsPushed(rs: seq<Message>, uris: seq<string>, i: int, k: int)
    requires 0 <= i < |uris| && LastPushAt(rs, k, uris[i])
    requires GroupDiagnostics(rs, uris).Ok?
    ensures var ds := rs[k].diagnostics;
      GroupDiagnostics(rs, uris).value[i] ==
        if ds == [] then NoDiagnostics else Grouped(MessagesOf(ds, 2), MessagesOf(ds, 1))
  {
    var k' := LastPushIndex(rs, uris[i]);
    LastPushUnique(rs, k, k'.value, uris[i]);
  }

  /** A requested URI without any publishDiagnostics reports nothing. */
  lemma GroupedUnpushed(rs: seq<Message>, uris: seq<string>, i: int)
    requires 0 <= i < |uris| && forall k :: 0 <= k < |rs| ==> !IsPushFor(rs[k], uris[i])
    requires GroupDiagnostics(rs, uris).Ok?
    ensures GroupDiagnostics(rs, uris).value[i] == NoDiagnostics
  {
    assert LastPushIndex(rs, uris[i]).None?;
  }

  /** Grouping fails exactly when the last push for some URI holds a
      diagnostic without a severity. */
  lemma GroupDiagnosticsFails(rs: seq<Message>, uris: seq<string>)
    ensures GroupDiagnostics(rs, uris).Err? <==>
      exists k :: 0 <= k < |rs| && rs[k].PublishDiagnostics? && LastPushAt(rs, k, rs[k].uri) && MissingSeverity(rs[k].diagnostics)
  {
    var pushes := LastPushes(rs);
    if exists u :: u in pushes && MissingSeverity(pushes[u]) {
      var u :| u in pushes && MissingSeverity(pushes[u]);
      var k := LastPushIndex(rs, u).value;
      assert rs[k].PublishDiagnostics? && LastPushAt(rs, k, rs[k].uri) && MissingSeverity(rs[k].diagnostics);
    }
    if exists k :: 0 <= k < |rs| && rs[k].PublishDiagnostics? && LastPushAt(rs, k, rs[k].uri) && MissingSeverity(rs[k].diagnostics) {
      var k :| 0 <= k < |rs| && rs[k].PublishDiagnostics? && LastPushAt(rs, k, rs[k].uri) && MissingSeverity(rs[k].diagnostics);
      var u := rs[k].uri;
      var k' := LastPushIndex(rs, u);
      LastPushUnique(rs, k, k'.value, u);
      assert u in pushes && MissingSeverity(pushes[u]);
    }
  }

  // ---------------------------------------------------------------------
  // Opening and closing

  /** The path a URI's text is read from: the URI without its first seven
      characters, the length of "file://". */
  function FilePath(uri: string): string {
    Uri.UriToLocal("", uri)
  }

  function DidOpenParams(readFile: string -> string, uri: string): Json {
    JObj([("textDocument", JObj([("uri", JStr(uri)), ("text", JStr(readFile(FilePath(uri)))),
                                 ("languageId", JStr("lean")), ("version", JInt(1))]))])
  }

  /** The didOpen notifications of the first loop of `_open_files`. */
  function DidOpens(readFile: string -> string, uris: seq<string>): (r: seq<Json>)
    ensures |r| == |uris|
    decreases |uris|
  {
    if uris == [] then []
    else
      var last := RequestObject(DID_OPEN, DidOpenParams(readFile, uris[|uris| - 1]), None);
      DidOpens(readFile, uris[..|uris| - 1]) + [last]
  }

  /** The didOpens of a prefix, one more. */
  lemma DidOpensSnoc(sent: seq<Json>, readFile: string -> string, uris: seq<string>, i: int)
    requires 0 <= i < |uris|
    ensures sent + DidOpens(readFile, uris[..i + 1])
      == sent + DidOpens(readFile, uris[..i]) + [RequestObject(DID_OPEN, DidOpenParams(readFile, uris[i]), None)]
  {
    assert uris[..i + 1][..i] == uris[..i];
    AppendAssoc(sent, DidOpens(readFile, uris[..i]), [RequestObject(DID_OPEN, DidOpenParams(readFile, uris[i]), None)]);
  }

  /** `_open_files`: a didOpen per URI, then a waitForDiagnostics request
      per URI, then the grouped diagnostics of every message read. */
  function OpenAll(s: Session, readFile: string -> string, uris: seq<string>): (r: (Session, Result<seq<FileDiagnostics>, ServerError>))
    ensures r.0.synced == s.synced && r.0.cache == s.cache
    ensures r.1.Ok? ==> |r.1.value| == |uris|
    ensures r.1.Ok? ==>
      && r.0.requestId == s.requestId + |uris|
      && r.0.sent == s.sent + DidOpens(readFile, uris) + WaitRequests(s.requestId, uris)
  {
    var s1 := s.(sent := s.sent + DidOpens(readFile, uris));
    var waited := WaitEach(s1, uris);
    if waited.1.Err? then (waited.0, Err(waited.1.error))
    else (waited.0, GroupDiagnostics(waited.1.value, uris))
  }

  /** Two requests for the same URI report the same diagnostics. */
  lemma GroupDiagnosticsSameUri(rs: seq<Message>, uris: seq<string>, i: int, j: int)
    requires 0 <= i < |uris| && 0 <= j < |uris| && uris[i] == uris[j]
    requires GroupDiagnostics(rs, uris).Ok?
    ensures GroupDiagnostics(rs, uris).value[i] == GroupDiagnostics(rs, uris).value[j]
  {
  }

  function DidCloseParams(uri: string): Json {
    JObj([("textDocument", TextDocument(uri))])
  }

  function DidCloses(uris: seq<string>): (r: seq<Json>)
    ensures |r| == |uris|
    decreases |uris|
  {
    if uris == [] then []
    else DidCloses(uris[..|uris| - 1]) + [RequestObject(DID_CLOSE, DidCloseParams(uris[|uris| - 1]), None)]
  }

  /** The didCloses of a prefix, one more. */
  lemma DidClosesSnoc(sent: seq<Json>, uris: seq<string>, i: int)
    requires 0 <= i < |uris|
    ensures sent + DidCloses(uris[..i + 1]) == sent + DidCloses(uris[..i]) + [RequestObject(DID_CLOSE, DidCloseParams(uris[i]), None)]
  {
    assert uris[..i + 1][..i] == uris[..i];
    AppendAssoc(sent, DidCloses(uris[..i]), [RequestObject(DID_CLOSE, DidCloseParams(uris[i]), None)]);
  }

  /** The blocking wait of `_close_files`: read until every closed URI has
      had a publishDiagnostics; what is left unread, or None when the
      output runs out first. */
  function AwaitPushes(inbox: seq<Message>, waiting: set<string>): Option<seq<Message>>
    decreases |inbox|
  {
    if waiting == {} then Some(inbox)
    else if inbox == [] then None
    else AwaitPushes(inbox[1..], if inbox[0].PublishDiagnostics? then waiting - {inbox[0].uri} else waiting)
  }

  /** The blocking wait ends exactly when each awaited URI has a push
      among the messages still to be read. */
  lemma {:induction false} AwaitPushesEnds(inbox: seq<Message>, waiting: set<string>)
    ensures AwaitPushes(inbox, waiting).Some? <==>
      forall u :: u in waiting ==> exists i :: 0 <= i < |inbox| && IsPushFor(inbox[i], u)
    decreases |inbox|
  {
    if waiting == {} {
    } else if inbox == [] {
      var u :| u in waiting;
    } else {
      var m := inbox[0];
      var tail := inbox[1..];
      var rest := if m.PublishDiagnostics? then waiting - {m.uri} else waiting;
      AwaitPushesEnds(tail, rest);
      forall u | u in waiting && (exists i :: 0 <= i < |tail| && IsPushFor(tail[i], u))
        ensures exists i :: 0 <= i < |inbox| && IsPushFor(inbox[i], u)
      {
        var i :| 0 <= i < |tail| && IsPushFor(tail[i], u);
        assert IsPushFor(inbox[i + 1], u);
      }
      forall u | u in rest && (exists i :: 0 <= i < |inbox| && IsPushFor(inbox[i], u))
        ensures exists i :: 0 <= i < |tail| && IsPushFor(tail[i], u)
      {
        var i :| 0 <= i < |inbox| && IsPushFor(inbox[i], u);
        assert i != 0;
        assert IsPushFor(tail[i - 1], u);
      }
      forall u | u in waiting && u !in rest ensures exists i :: 0 <= i < |inbox| && IsPushFor(inbox[i], u) {
        assert IsPushFor(inbox[0], u);
      }
    }
  }

  /** `_close_files`: a didClose for each listed URI that is synced, in the
      order listed; when blocking, then the wait for their pushes. The
      synced files themselves are left to the caller. */
  function Close(s: Session, uris: seq<string>, blocking: bool): (r: (Session, Result<(), ServerError>))
    ensures r.0.synced == s.synced && r.0.cache == s.cache && r.0.requestId == s.requestId
    ensures r.0.sent == s.sent + DidCloses(Only(uris, Elems(s.synced)))
    ensures !blocking ==> r.1.Ok? && r.0.inbox == s.inbox
  {
    var closing := Only(uris, Elems(s.synced));
    var s1 := s.(sent := s.sent + DidCloses(closing));
    if !blocking then (s1, Ok(()))
    else match AwaitPushes(s.inbox, Elems(closing))
      case None => (s1.(inbox := []), Err(Stalled))
      case Some(rest) => (s1.(inbox := rest), Ok(()))
  }

  /** Closing only touches synced files: a didClose goes out for exactly
      the listed URIs that are synced, and a blocking close returns once
      each of them has had a publishDiagnostics. */
  lemma CloseWaits(s: Session, uris: seq<string>, blocking: bool)
    ensures var r := Close(s, uris, blocking);
      && (forall u :: u in Only(uris, Elems(s.synced)) <==> u in uris && u in s.synced)
      && (blocking ==> (r.1.Ok? <==>
            forall u :: u in uris && u in s.synced ==> exists i :: 0 <= i < |s.inbox| && IsPushFor(s.inbox[i], u)))
  {
    var closing := Only(uris, Elems(s.synced));
    assert forall u :: u in Elems(closing) <==> u in uris && u in s.synced;
    AwaitPushesEnds(s.inbox, Elems(closing));
  }

  /** Closing URIs none of which is synced writes nothing and waits for
      nothing. */
  lemma CloseUnsynced(s: Session, uris: seq<string>, blocking: bool)
    requires forall u :: u in uris ==> u !in s.synced
    ensures Close(s, uris, blocking) == (s, Ok(()))
  {
    OnlyNone(uris, Elems(s.synced));
    assert s.sent + DidCloses([]) == s.sent;
  }

  // ---------------------------------------------------------------------
  // sync_files

  /** `d.update(zip(keys, values))` on the values of an ordered dictionary. */
  function AssignAll<V>(d: map<string, V>, keys: seq<string>, values: seq<V>): (r: map<string, V>)
    requires |keys| == |values|
    ensures r.Keys == d.Keys + Elems(keys)
    ensures forall k :: k in d && k !in keys ==> r[k] == d[k]
    ensures forall k {:trigger LastAt(keys, k)} :: k in keys ==> r[k] == values[LastAt(keys, k)]
    decreases |keys|
  {
    if keys == [] then d
    else
      var n := |keys| - 1;
      var r := AssignAll(d, keys[..n], values[..n]);
      LastInPrefix(keys, values, n);
      r[keys[n] := values[n]]
  }

  /** How the keys of a list relate to those of the list without its last
      key. */
  lemma LastInPrefix<V>(keys: seq<string>, values: seq<V>, n: nat)
    requires n + 1 == |keys| == |values|
    ensures Elems(keys) == Elems(keys[..n]) + {keys[n]}
    ensures forall k :: k in keys && k != keys[n] ==> k in keys[..n] && LastAt(keys, k) == LastAt(keys[..n], k)
    ensures keys[n] in keys && LastAt(keys, keys[n]) == n
    ensures forall i :: 0 <= i < n ==> values[..n][i] == values[i]
  {
    assert keys == keys[..n] + [keys[n]];
  }

  /** Recording the files of a prefix, one more. */
  lemma AssignSnoc<V>(order: seq<string>, d: map<string, V>, keys: seq<string>, values: seq<V>, i: int,
                      order': seq<string>, d': map<string, V>)
    requires |keys| == |values| && 0 <= i < |keys|
    requires order' == InsertAll(order, keys[..i]) && d' == AssignAll(d, keys[..i], values[..i])
    ensures InsertAll(order, keys[..i + 1]) == Insert(order', keys[i])
    ensures AssignAll(d, keys[..i + 1], values[..i + 1]) == d'[keys[i] := values[i]]
  {
    assert keys[..i + 1][..i] == keys[..i] && values[..i + 1][..i] == values[..i];
  }

  /** Deleting the keys of a prefix, one more. */
  lemma DeleteSnoc<V>(order: seq<string>, d: map<string, V>, keys: seq<string>, i: int)
    requires 0 <= i < |keys|
    ensures Remove(Without(order, Elems(keys[..i])), keys[i]) == Without(order, Elems(keys[..i + 1]))
    ensures (d - Elems(keys[..i])) - {keys[i]} == d - Elems(keys[..i + 1])
  {
    assert Elems(keys[..i + 1]) == Elems(keys[..i]) + {keys[i]} by {
      assert keys[..i + 1] == keys[..i] + [keys[i]];
    }
    WithoutWithout(order, Elems(keys[..i]), {keys[i]});
  }

  /** The requested URIs not yet synced, in request order. */
  function NewUris(s: Session, uris: seq<string>): seq<string> {
    Without(uris, Elems(s.synced))
  }

  /** The synced keys once the new files are in, before eviction. */
  function Grown(s: Session, uris: seq<string>): seq<string> {
    InsertAll(s.synced, NewUris(s, uris))
  }

  /** The synced URIs eviction removes: the first `len - max` that the
      request does not name. */
  function Evicted(s: Session, uris: seq<string>, max: int): seq<string> {
    var order := Grown(s, uris);
    EvictionList(order, Elems(uris), |order| - max)
  }

  /** The part of `sync_files` after a successful open: record the new
      files, then evict and close. `s` is the state before the open, `t`
      the state after it. */
  function Settle(s: Session, t: Session, uris: seq<string>, max: int, reports: seq<FileDiagnostics>): (r: Session)
    requires Consistent(s) && t.synced == s.synced && t.cache == s.cache
    requires |reports| == |NewUris(s, uris)|
    ensures Consistent(r)
    ensures forall u :: u in uris ==> u in r.synced
    ensures r.synced == Without(Grown(s, uris), Elems(Evicted(s, uris, max)))
    ensures r.cache == AssignAll(s.cache, NewUris(s, uris), reports) - Elems(Evicted(s, uris, max))
    ensures r.requestId == t.requestId && r.inbox == t.inbox
    ensures r.sent == t.sent + DidCloses(Evicted(s, uris, max))
  {
    var evicted := Evicted(s, uris, max);
    var cache := AssignAll(s.cache, NewUris(s, uris), reports);
    var grown := t.(synced := Grown(s, uris), cache := cache);
    OnlyAll(evicted, Elems(Grown(s, uris)));
    SettleConsistent(s, uris, NewUris(s, uris), Grown(s, uris), cache, evicted);
    var closed := Close(grown, evicted, false).0;
    closed.(synced := Without(Grown(s, uris), Elems(evicted)), cache := cache - Elems(evicted))
  }

  /** `Settle` field by field. */
  lemma SettleFields(s: Session, t: Session, uris: seq<string>, max: int, reports: seq<FileDiagnostics>)
    requires Consistent(s) && t.synced == s.synced && t.cache == s.cache
    requires |reports| == |NewUris(s, uris)|
    ensures var ev := Evicted(s, uris, max);
      Settle(s, t, uris, max, reports)
        == Session(t.requestId, t.sent + DidCloses(ev), t.inbox, Without(Grown(s, uris), Elems(ev)),
                   AssignAll(s.cache, NewUris(s, uris), reports) - Elems(ev))
  {
  }

  lemma SettleKeeps(s: Session, t: Session, uris: seq<string>, max: int, reports: seq<FileDiagnostics>)
    requires Consistent(s) && t.synced == s.synced && t.cache == s.cache
    requires |reports| == |NewUris(s, uris)|
    requires |Grown(s, uris)| - max <= 0
    ensures Settle(s, t, uris, max, reports) == t.(synced := Grown(s, uris), cache := AssignAll(s.cache, NewUris(s, uris), reports))
  {
    SettleFields(s, t, uris, max, reports);
    NothingEvicted(s, uris, max);
    MinusNothing(AssignAll(s.cache, NewUris(s, uris), reports));
  }

  /** Nothing is evicted while the grown list fits the bound. */
  lemma NothingEvicted(s: Session, uris: seq<string>, max: int)
    requires |Grown(s, uris)| - max <= 0
    ensures Evicted(s, uris, max) == [] && Elems(Evicted(s, uris, max)) == {}
    ensures Without(Grown(s, uris), Elems(Evicted(s, uris, max))) == Grown(s, uris)
    ensures DidCloses(Evicted(s, uris, max)) == []
  {
    WithoutNothing(Grown(s, uris));
  }

  lemma SettleEvicts(s: Session, t: Session, uris: seq<string>, max: int, reports: seq<FileDiagnostics>)
    requires Consistent(s) && t.synced == s.synced && t.cache == s.cache
    requires |reports| == |NewUris(s, uris)|
    requires |Grown(s, uris)| - max > 0
    ensures var g := Grown(s, uris);
      var ev := EvictionList(g, Elems(uris), |g| - max);
      Settle(s, t, uris, max, reports)
        == t.(synced := Without(g, Elems(ev)),
              cache := AssignAll(s.cache, NewUris(s, uris), reports) - Elems(ev),
              sent := t.sent + DidCloses(Only(ev, Elems(g))))
  {
    OnlyAll(Evicted(s, uris, max), Elems(Grown(s, uris)));
  }

  lemma SettleConsistent(s: Session, uris: seq<string>, added: seq<string>, order: seq<string>,
                         cache: map<string, FileDiagnostics>, evicted: seq<string>)
    requires Consistent(s)
    requires added == Without(uris, Elems(s.synced))
    requires order == InsertAll(s.synced, added)
    requires cache.Keys == s.cache.Keys + Elems(added)
    requires forall x :: x in evicted ==> x !in uris
    ensures NoDup(Without(order, Elems(evicted)))
    ensures Elems(Without(order, Elems(evicted))) == cache.Keys - Elems(evicted)
    ensures forall u :: u in uris ==> u in Without(order, Elems(evicted))
  {
    InsertAllNoDup(s.synced, added);
    WithoutNoDup(order, Elems(evicted));
    InsertAllElems(s.synced, added);
    ElemsWithout(order, Elems(evicted));
  }

  /** `sync_files`: open the requested files that are not synced, record
      what opening reported, evict the oldest unrequested files beyond the
      bound, and report each requested file's cached diagnostics. */
  function Sync(s: Session, readFile: string -> string, max: int, uris: seq<string>): (r: (Session, Result<seq<FileDiagnostics>, ServerError>))
    requires Consistent(s)
    ensures Consistent(r.0)
    ensures r.1.Ok? ==> |r.1.value| == |uris|
    ensures r.1.Ok? ==> forall i :: 0 <= i < |uris| ==> uris[i] in r.0.synced && r.1.value[i] == r.0.cache[uris[i]]
  {
    var added := NewUris(s, uris);
    var report := if added == [] then (s, Ok([])) else OpenAll(s, readFile, added);
    if report.1.Err? then (report.0, Err(report.1.error))
    else
      var t := Settle(s, report.0, uris, max, report.1.value);
      (t, Ok(Lookup(t, uris)))
  }

  /** `[synced_files[uri] for uri in uris]`. */
  function Lookup(s: Session, uris: seq<string>): (r: seq<FileDiagnostics>)
    requires Consistent(s) && forall u :: u in uris ==> u in s.synced
    ensures |r| == |uris| && forall i :: 0 <= i < |uris| ==> r[i] == s.cache[uris[i]]
  {
    seq(|uris|, i requires 0 <= i < |uris| => s.cache[uris[i]])
  }

  /** `Sync` once the open has reported (or, with nothing to open, at
      once). */
  lemma SyncOpened(s: Session, readFile: string -> string, max: int, uris: seq<string>,
                   t: Session, reports: seq<FileDiagnostics>)
    requires Consistent(s)
    requires (if NewUris(s, uris) == [] then (s, Ok([])) else OpenAll(s, readFile, NewUris(s, uris))) == (t, Ok(reports))
    ensures t.synced == s.synced && t.cache == s.cache && |reports| == |NewUris(s, uris)|
    ensures Sync(s, readFile, max, uris) == (Settle(s, t, uris, max, reports), Ok(Lookup(Settle(s, t, uris, max, reports), uris)))
  {
  }

  /** The position of the last occurrence of `x`. */
  function LastAt(keys: seq<string>, x: string): (i: nat)
    requires x in keys
    ensures i < |keys| && keys[i] == x && x !in keys[i + 1..]
    decreases |keys|
  {
    if keys[|keys| - 1] == x then |keys| - 1
    else
      var i := LastAt(keys[..|keys| - 1], x);
      assert keys[i + 1..] == keys[..|keys| - 1][i + 1..] + [keys[|keys| - 1]];
      i
  }

  /** `Sync` when opening succeeds. */
  lemma SyncUnfold(s: Session, readFile: string -> string, max: int, uris: seq<string>)
    requires Consistent(s)
    requires Sync(s, readFile, max, uris).1.Ok?
    ensures var added := NewUris(s, uris);
      var report := if added == [] then (s, Ok([])) else OpenAll(s, readFile, added);
      && report.1.Ok? && |report.1.value| == |added|
      && report.0.synced == s.synced && report.0.cache == s.cache
      && report.0.requestId == s.requestId + |added|
      && report.0.sent == s.sent + DidOpens(readFile, added) + WaitRequests(s.requestId, added)
      && Sync(s, readFile, max, uris).0 == Settle(s, report.0, uris, max, report.1.value)
  {
    var added := NewUris(s, uris);
    if added == [] {
      assert s.sent + DidOpens(readFile, added) + WaitRequests(s.requestId, added) == s.sent;
    }
  }

  /** A file that was already synced reports what the cache held for it. */
  lemma SyncKeepsCached(s: Session, readFile: string -> string, max: int, uris: seq<string>, i: int)
    requires Consistent(s) && 0 <= i < |uris| && uris[i] in s.synced
    requires Sync(s, readFile, max, uris).1.Ok?
    ensures Sync(s, readFile, max, uris).1.value[i] == s.cache[uris[i]]
  {
    SyncUnfold(s, readFile, max, uris);
    assert uris[i] !in NewUris(s, uris);
  }

  /** A file that was not synced reports what opening reported at its
      last place among the files opened. */
  lemma SyncNewValue(s: Session, readFile: string -> string, max: int, uris: seq<string>, i: int)
    requires Consistent(s) && 0 <= i < |uris| && uris[i] !in s.synced
    requires Sync(s, readFile, max, uris).1.Ok?
    ensures uris[i] in NewUris(s, uris)
    ensures OpenAll(s, readFile, NewUris(s, uris)).1.Ok?
    ensures Sync(s, readFile, max, uris).1.value[i]
      == OpenAll(s, readFile, NewUris(s, uris)).1.value[LastAt(NewUris(s, uris), uris[i])]
  {
    SyncUnfold(s, readFile, max, uris);
    var added := NewUris(s, uris);
    var report := OpenAll(s, readFile, added);
    var t := Sync(s, readFile, max, uris).0;
    assert t == Settle(s, report.0, uris, max, report.1.value);
    assert uris[i] !in Evicted(s, uris, max);
  }

  /** A file that was not synced reports what opening it reported, at
      any of its places among the files opened. */
  lemma SyncReportsOpened(s: Session, readFile: string -> string, max: int, uris: seq<string>, i: int, j: int)
    requires Consistent(s) && 0 <= i < |uris|
    requires 0 <= j < |NewUris(s, uris)| && NewUris(s, uris)[j] == uris[i]
    requires Sync(s, readFile, max, uris).1.Ok?
    ensures OpenAll(s, readFile, NewUris(s, uris)).1.Ok?
    ensures Sync(s, readFile, max, uris).1.value[i] == OpenAll(s, readFile, NewUris(s, uris)).1.value[j]
  {
    var added := NewUris(s, uris);
    assert added[j] in added;
    var k := LastAt(added, uris[i]);
    assert OpenAll(s, readFile, added).1.Ok? && Sync(s, readFile, max, uris).1.value[i] == OpenAll(s, readFile, added).1.value[k] by {
      assert uris[i] !in s.synced;
      SyncNewValue(s, readFile, max, uris, i);
    }
    OpenAllSameUri(s, readFile, added, j, k);
  }

  /** Opening reports the same diagnostics at every place of a URI. */
  lemma OpenAllSameUri(s: Session, readFile: string -> string, uris: seq<string>, j: int, k: int)
    requires OpenAll(s, readFile, uris).1.Ok?
    requires 0 <= j < |uris| && 0 <= k < |uris| && uris[j] == uris[k]
    ensures OpenAll(s, readFile, uris).1.value[j] == OpenAll(s, readFile, uris).1.value[k]
  {
    var waited := WaitEach(s.(sent := s.sent + DidOpens(readFile, uris)), uris);
    GroupDiagnosticsSameUri(waited.1.value, uris, j, k);
  }

  /** The files synced after a sync: the grown list without the evicted. */
  lemma SyncSynced(s: Session, readFile: string -> string, max: int, uris: seq<string>)
    requires Consistent(s)
    requires Sync(s, readFile, max, uris).1.Ok?
    ensures Sync(s, readFile, max, uris).0.synced == Without(Grown(s, uris), Elems(Evicted(s, uris, max)))
  {
    SyncUnfold(s, readFile, max, uris);
  }

  lemma SyncEffect(s: Session, readFile: string -> string, max: int, uris: seq<string>)
    requires Consistent(s)
    requires Sync(s, readFile, max, uris).1.Ok?
    ensures var r := Sync(s, readFile, max, uris).0;
      var added := NewUris(s, uris);
      var evicted := Evicted(s, uris, max);
      && r.synced == Without(Grown(s, uris), Elems(evicted))
      && r.requestId == s.requestId + |added|
      && r.sent == s.sent + DidOpens(readFile, added) + WaitRequests(s.requestId, added) + DidCloses(evicted)
  {
    SyncUnfold(s, readFile, max, uris);
  }

  /** When the request itself fits, the synced files stay within bound. */
  lemma SyncBounded(s: Session, readFile: string -> string, max: int, uris: seq<string>)
    requires Consistent(s) && |uris| <= max
    requires Sync(s, readFile, max, uris).1.Ok?
    ensures |Sync(s, readFile, max, uris).0.synced| <= max
  {
    SyncSynced(s, readFile, max, uris);
    KeptBounded(s, uris, max);
  }

  /** What is left after eviction fits the bound when the request does. */
  lemma KeptBounded(s: Session, uris: seq<string>, max: int)
    requires Consistent(s) && |uris| <= max
    ensures |Without(Grown(s, uris), Elems(Evicted(s, uris, max)))| <= max
  {
    var order := Grown(s, uris);
    InsertAllNoDup(s.synced, NewUris(s, uris));
    EvictionRestoresBound(order, uris, max);
    assert Evicted(s, uris, max) == EvictionList(order, Elems(uris), |order| - max);
  }

  /** Eviction takes the oldest unrequested files: every evicted file was
      synced before every unrequested file that stays. */
  lemma SyncEvictsOldest(s: Session, readFile: string -> string, max: int, uris: seq<string>, e: string, k: string)
    requires Consistent(s)
    requires Sync(s, readFile, max, uris).1.Ok?
    requires e in Evicted(s, uris, max)
    requires k in Sync(s, readFile, max, uris).0.synced && k !in uris
    ensures e !in uris && e !in Sync(s, readFile, max, uris).0.synced
    ensures IndexOf(Grown(s, uris), e) < IndexOf(Grown(s, uris), k)
  {
    SyncSynced(s, readFile, max, uris);
    EvictedOldest(s, uris, max, e, k);
  }

  /** The same, for the keys kept after eviction. */
  lemma EvictedOldest(s: Session, uris: seq<string>, max: int, e: string, k: string)
    requires NoDup(s.synced)
    requires e in Evicted(s, uris, max)
    requires k in Without(Grown(s, uris), Elems(Evicted(s, uris, max))) && k !in uris
    ensures e !in uris && e !in Without(Grown(s, uris), Elems(Evicted(s, uris, max)))
    ensures IndexOf(Grown(s, uris), e) < IndexOf(Grown(s, uris), k)
  {
    InsertAllNoDup(s.synced, NewUris(s, uris));
    var order := Grown(s, uris);
    EvictionIsOldest(order, Elems(uris), |order| - max, e, k);
  }

  /** After a sync every requested file is synced and eviction has
      nothing more to take. */
  lemma SyncSettled(s: Session, readFile: string -> string, max: int, uris: seq<string>)
    requires Consistent(s)
    requires Sync(s, readFile, max, uris).1.Ok?
    ensures var t := Sync(s, readFile, max, uris).0;
      NewUris(t, uris) == [] && Grown(t, uris) == t.synced && Evicted(t, uris, max) == []
  {
    SyncEffect(s, readFile, max, uris);
    SettledAfter(s, Sync(s, readFile, max, uris).0, uris, max);
  }

  lemma SettledAfter(s: Session, t: Session, uris: seq<string>, max: int)
    requires NoDup(s.synced)
    requires forall u :: u in uris ==> u in t.synced
    requires t.synced == Without(Grown(s, uris), Elems(Evicted(s, uris, max)))
    ensures NewUris(t, uris) == [] && Grown(t, uris) == t.synced && Evicted(t, uris, max) == []
  {
    WithoutAll(uris, Elems(t.synced));
    var order := Grown(s, uris);
    InsertAllNoDup(s.synced, NewUris(s, uris));
    var ev := Evicted(s, uris, max);
    assert ev == EvictionList(order, Elems(uris), |order| - max);
    EvictionSettles(order, Elems(uris), max);
    var kept := Without(order, Elems(ev));
    assert EvictionList(kept, Elems(uris), |kept| - max) == [];
  }

  /** A sync with nothing to open and nothing to evict changes nothing and
      reports the cache. */
  lemma SyncIdle(t: Session, readFile: string -> string, max: int, uris: seq<string>)
    requires Consistent(t)
    requires NewUris(t, uris) == [] && Grown(t, uris) == t.synced && Evicted(t, uris, max) == []
    ensures Sync(t, readFile, max, uris).0 == t
  {
    var none: seq<string> := [];
    assert Elems(none) == {};
    SettleFields(t, t, uris, max, []);
    WithoutNothing(t.synced);
    MinusNothing(t.cache);
    assert AssignAll(t.cache, none, []) == t.cache;
    assert t.sent + DidCloses(none) == t.sent;
  }

  /** Syncing the same files again reports the same diagnostics and
      changes nothing: nothing is opened, evicted or written. */
  lemma SyncTwice(s: Session, readFile: string -> string, max: int, uris: seq<string>)
    requires Consistent(s)
    requires Sync(s, readFile, max, uris).1.Ok?
    ensures var r := Sync(s, readFile, max, uris);
      Sync(r.0, readFile, max, uris) == r
  {
    var r := Sync(s, readFile, max, uris);
    SyncSettled(s, readFile, max, uris);
    SyncIdle(r.0, readFile, max, uris);
    var r2 := Sync(r.0, readFile, max, uris);
    assert r2.1.value == r.1.value;
  }

  // ---------------------------------------------------------------------
  // get_sorries

  const SORRY_TOKEN: string := "leanSorryLike"

  predicate IsSorry(t: Utils.Token) {
    t.tokenType == SORRY_TOKEN
  }

  /** `get_sorries` on the decoded semantic tokens: line, character and
      length of each sorry-like token, in token order. */
  function Sorries(tokens: seq<Utils.Token>): (r: seq<(int, int, int)>)
    ensures |r| <= |tokens|
    ensures forall x :: x in r <==>
      exists i :: 0 <= i < |tokens| && IsSorry(tokens[i]) && x == (tokens[i].line, tokens[i].character, tokens[i].length)
    decreases |tokens|
  {
    if tokens == [] then []
    else
      var init := tokens[..|tokens| - 1];
      var t := tokens[|tokens| - 1];
      assert forall i :: 0 <= i < |init| ==> tokens[i] == init[i];
      Sorries(init) + (if IsSorry(t) then [(t.line, t.character, t.length)] else [])
  }

  /** The filter keeps token order: the sorries of a concatenation are
      the sorries of its parts, one after the other. */
  lemma {:induction false} SorriesAppend(a: seq<Utils.Token>, b: seq<Utils.Token>)
    ensures Sorries(a + b) == Sorries(a) + Sorries(b)
    decreases |b|
  {
    if b == [] {
      assert a + b == a;
    } else {
      var b' := b[..|b| - 1];
      assert (a + b)[..|a + b| - 1] == a + b';
      SorriesAppend(a, b');
    }
  }

  /** The position of every decoded token whose type value is the string
      `leanSorryLike`, in token order. */
  function RawSorries(ts: seq<(int, int, int, Json)>): (r: seq<(int, int, int)>)
    ensures |r| <= |ts|
    decreases |ts|
  {
    if ts == [] then []
    else
      var t := ts[|ts| - 1];
      RawSorries(ts[..|ts| - 1]) + (if t.3 == JStr(SORRY_TOKEN) then [(t.0, t.1, t.2)] else [])
  }

  /** `get_sorries` as the synchronous wrapper builds its decoder: the
      whole legend object stands where the list of type names belongs, so
      each token's type is looked up as `legend[index]`. */
  function GetSorriesAsWritten(data: seq<int>, legend: seq<(string, Json)>): Result<seq<(int, int, int)>, Utils.TokenError> {
    match Utils.DecodeWithLegendObject(data, legend)
    case Err(e) => Err(e)
    case Ok(ts) => Ok(RawSorries(ts))
  }

  /** As written, `get_sorries` raises KeyError on every file with at least
      one complete token group, and so answers only files with no tokens. */
  lemma GetSorriesAsWrittenFails(data: seq<int>, legend: seq<(string, Json)>)
    ensures GetSorriesAsWritten(data, legend).Ok? <==> |data| < 5
    ensures |data| < 5 ==> GetSorriesAsWritten(data, legend) == Ok([])
    ensures |data| >= 5 ==> GetSorriesAsWritten(data, legend) == Err(Utils.TokenTypeKeyError(data[3]))
  {
    Utils.LegendObjectDecodeFails(data, legend);
  }

  /** `get_sorries` with the decoder built from the legend's `tokenTypes`
      list, as the asynchronous client does: decode, then keep the sorries. */
  function GetSorries(data: seq<int>, types: seq<string>): (r: Result<seq<(int, int, int)>, Utils.TokenError>)
    ensures r.Err? <==> Utils.Decode(data, types).Err?
    ensures r.Ok? ==> r.value == Sorries(Utils.Decode(data, types).value)
  {
    match Utils.Decode(data, types)
    case Err(e) => Err(e)
    case Ok(ts) => Ok(Sorries(ts))
  }

  /** On the data a server encodes from tokens whose type indices lie in
      the legend, the corrected `get_sorries` finds exactly the sorries
      among those tokens, where the code as written raises KeyError. */
  lemma GetSorriesOfEncoded(ts: seq<Utils.AbsoluteToken>, types: seq<string>)
    requires forall i :: 0 <= i < |ts| ==> 0 <= ts[i].typeIndex < |types|
    ensures GetSorries(Utils.Encode(ts), types) == Ok(Sorries(Utils.NamedAll(ts, types)))
  {
    Utils.DecodeEncode(ts, types);
  }
}
