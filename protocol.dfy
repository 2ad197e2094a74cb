/** The JSON-RPC 2.0 messages the clients exchange with the Lean language
    server, as a tagged union of the shapes the clients look at. */
module Protocol {
  import opened Wrappers
  import opened Json

  /** A diagnostic record; only the fields the clients read are kept. A
      record the client synthesises itself carries no severity. */
  datatype Diagnostic = Diagnostic(message: string, severity: Option<int>)

  /** One entry of a fileProgress `processing` list: its kind (2 is the
      fatal-error kind) and the line its range starts on. */
  datatype ProgressEntry = ProgressEntry(kind: Option<int>, startLine: int)

  const FATAL_ERROR_KIND: int := 2

  /** A message read from the server. `Other` stands for every message whose
      method is neither of the two the clients handle (server-to-client
      requests carry an id); `Empty` is the `{}` a short or missing read
      yields. */
  datatype Message =
    | Response(id: int, result: Json)
    | ErrorResponse(id: int, error: Json)
    | PublishDiagnostics(uri: string, diagnostics: seq<Diagnostic>, version: Option<int>)
    | FileProgress(uri: string, processing: seq<ProgressEntry>, version: Option<int>)
    | Other(name: string, otherId: Option<int>)
    | Empty

  const PUBLISH_DIAGNOSTICS: string := "textDocument/publishDiagnostics"
  const FILE_PROGRESS: string := "$/lean/fileProgress"
  const DID_OPEN: string := "textDocument/didOpen"
  const DID_CHANGE: string := "textDocument/didChange"
  const DID_CLOSE: string := "textDocument/didClose"
  const WAIT_FOR_DIAGNOSTICS: string := "textDocument/waitForDiagnostics"

  /** Methods the message pump drops without looking further. */
  const IGNORED_METHODS: set<string> :=
    {"workspace/didChangeWatchedFiles", "workspace/semanticTokens/refresh", "client/registerCapability"}

  /** `message.get("method", "")`. */
  function MethodOf(m: Message): string {
    match m
    case PublishDiagnostics(_, _, _) => PUBLISH_DIAGNOSTICS
    case FileProgress(_, _, _) => FILE_PROGRESS
    case Other(name, _) => name
    case _ => ""
  }

  /** `message.get("id")`. */
  function IdOf(m: Message): Option<int> {
    match m
    case Response(id, _) => Some(id)
    case ErrorResponse(id, _) => Some(id)
    case Other(_, id) => id
    case _ => None
  }

  /** The request object written to the server; a notification has no id. */
  function RequestObject(name: string, params: Json, id: Option<int>): (r: Json)
    ensures r.JObj?
    ensures Get(r.fields, "method") == Some(JStr(name))
    ensures Get(r.fields, "params") == Some(params)
    ensures Get(r.fields, "id") == (if id.Some? then Some(JInt(id.value)) else None)
  {
    var base := [("jsonrpc", JStr("2.0")), ("method", JStr(name)), ("params", params)];
    var fields := if id.Some? then base + [("id", JInt(id.value))] else base;
    RequestFields(base, fields, name, params, id);
    JObj(fields)
  }

  lemma RequestFields(base: seq<(string, Json)>, fields: seq<(string, Json)>, name: string, params: Json, id: Option<int>)
    requires base == [("jsonrpc", JStr("2.0")), ("method", JStr(name)), ("params", params)]
    requires fields == if id.Some? then base + [("id", JInt(id.value))] else base
    ensures Get(fields, "method") == Some(JStr(name)) && Get(fields, "params") == Some(params)
    ensures Get(fields, "id") == (if id.Some? then Some(JInt(id.value)) else None)
  {
    assert fields[1] == ("method", JStr(name)) && fields[2] == ("params", params);
    assert !HasKey(base, "id");
    if id.Some? {
      GetAppend(base, [("id", JInt(id.value))], "id");
    }
  }

  function TextDocument(uri: string): Json {
    JObj([("uri", JStr(uri))])
  }
}
