/** The class `LeanLanguageServer`: the blocking wrapper's request
    counter, the objects it writes, the server messages it reads and its
    ordered cache of synced files, as fields its methods update in place.
    Each method is proved to compute the function of `LanguageSession` that
    specifies it, so everything proved there holds of the object. The
    server's output is a field holding the messages still to be read. */
module LanguageServer {
  import opened Wrappers
  import opened Json
  import opened Protocol
  import opened OrderedKeys
  import Uri
  import opened LanguageSession

  class LeanLanguageServer {
    /** The absolute project directory, ending in "/". */
    const lakeDir: string
    /** `MAX_SYNCED_FILES`. */
    const maxSynced: int
    /** The text of a file as read from disk. */
    const readFile: string -> string

    var requestId: int
    /** Every request object written to the server, in order. */
    var sent: seq<Json>
    /** The messages the server has written and the wrapper not yet read. */
    var inbox: seq<Message>
    /** The keys of `synced_files` in insertion order, and its values. */
    var synced: seq<string>
    var cache: map<string, FileDiagnostics>

    function Snapshot(): Session
      reads this
    {
      Session(requestId, sent, inbox, synced, cache)
    }

    ghost predicate Valid()
      reads this
    {
      Consistent(Snapshot())
    }

    /** The state after the constructor; starting the server process and
        the initialize handshake are not part of this model. */
    constructor(lakeDir: string, maxSynced: int, readFile: string -> string, output: seq<Message>)
      ensures this.lakeDir == lakeDir && this.maxSynced == maxSynced && this.readFile == readFile
      ensures Snapshot() == Session(0, [], output, [], map[])
      ensures Valid()
    {
      this.lakeDir := lakeDir;
      this.maxSynced := maxSynced;
      this.readFile := readFile;
      requestId := 0;
      sent := [];
      inbox := output;
      synced := [];
      cache := map[];
    }

    /** `local_to_uri`: the scheme, the project directory, the file name;
        the file name is what follows the first two. */
    function LocalToUri(fileName: string): (uri: string)
      ensures |uri| >= Uri.LEN_URI_PREFIX && uri[..Uri.LEN_URI_PREFIX] == Uri.URI_PREFIX
      ensures Uri.UriToLocal(lakeDir, uri) == fileName
    {
      Uri.UriToLocalOfLocalToUri(lakeDir, fileName);
      Uri.LocalToUri(lakeDir, fileName)
    }

    // -------------------------------------------------------------------
    // Requests

    /** `_send_raw_request`. */
    method SendRawRequest(name: string, params: Json, isNotification: bool)
      modifies this
      ensures Snapshot() == SendRaw(old(Snapshot()), name, params, isNotification)
    {
      var id := if isNotification then None else Some(requestId);
      sent := sent + [RequestObject(name, params, id)];
      if !isNotification {
        requestId := requestId + 1;
      }
    }

    /** `_send_notification`. */
    method SendNotification(name: string, params: Json)
      modifies this
      ensures Snapshot() == SendRaw(old(Snapshot()), name, params, true)
    {
      SendRawRequest(name, params, true);
    }

    /** `_read_stdout`: the next message, or the empty message once the
        server's output has run out. */
    method ReadStdout() returns (m: Message)
      modifies this
      ensures requestId == old(requestId) && sent == old(sent) && synced == old(synced) && cache == old(cache)
      ensures old(inbox) == [] ==> m == Empty && inbox == []
      ensures old(inbox) != [] ==> m == old(inbox)[0] && inbox == old(inbox)[1..]
    {
      if inbox == [] {
        m := Empty;
      } else {
        m := inbox[0];
        inbox := inbox[1..];
      }
    }

    /** The reading loop of `_send_request`: read until a message with the
        id; `found` is false when the server's output runs out first. */
    method ReadUntilId(rid: int) returns (results: seq<Message>, found: bool)
      modifies this
      ensures requestId == old(requestId) && sent == old(sent) && synced == old(synced) && cache == old(cache)
      ensures results + inbox == old(inbox)
      ensures forall j :: 0 <= j < |results| - 1 ==> IdOf(results[j]) != Some(rid)
      ensures found ==> results != [] && IdOf(results[|results| - 1]) == Some(rid)
      ensures !found ==> inbox == [] && forall j :: 0 <= j < |results| ==> IdOf(results[j]) != Some(rid)
    {
      results := [];
      while results == [] || IdOf(results[|results| - 1]) != Some(rid)
        invariant requestId == old(requestId) && sent == old(sent) && synced == old(synced) && cache == old(cache)
        invariant results + inbox == old(inbox)
        invariant forall j :: 0 <= j < |results| - 1 ==> IdOf(results[j]) != Some(rid)
        decreases |inbox|
      {
        if inbox == [] {
          return results, false;
        }
        var result := ReadStdout();
        results := results + [result];
      }
      found := true;
    }

    /** `_send_request`. Where the source would go on reading empty
        messages for ever, the method reports `Stalled`. */
    method SendRequest(name: string, params: Json) returns (res: Result<seq<Message>, ServerError>)
      modifies this
      ensures (Snapshot(), res) == Request(old(Snapshot()), name, params)
    {
      ghost var s0 := Snapshot();
      SendRawRequest(name, params, false);
      var rid := requestId - 1;
      assert rid == s0.requestId && inbox == s0.inbox;
      var results, found := ReadUntilId(rid);
      if !found {
        RequestStalls(s0, name, params);
        return Err(Stalled);
      }
      assert results == s0.inbox[..|results|] && inbox == s0.inbox[|results|..];
      RequestAt(s0, name, params, |results| - 1);
      return Ok(results);
    }

    /** The `while True` loop of `_open_files`: unless `last` already has
        an empty result, read until a message has one; `found` is false
        when the server's output runs out first. */
    method ReadUntilEmptyResult(last: Message) returns (more: seq<Message>, found: bool)
      modifies this
      ensures requestId == old(requestId) && sent == old(sent) && synced == old(synced) && cache == old(cache)
      ensures more + inbox == old(inbox)
      ensures IsEmptyResult(last) ==> more == [] && found
      ensures more != [] ==> !IsEmptyResult(last)
      ensures forall j :: 0 <= j < |more| - 1 ==> !IsEmptyResult(more[j])
      ensures found && more != [] ==> IsEmptyResult(more[|more| - 1])
      ensures found && more == [] ==> IsEmptyResult(last)
      ensures !found ==> !IsEmptyResult(last) && inbox == [] && forall j :: 0 <= j < |more| ==> !IsEmptyResult(more[j])
    {
      var result := last;
      more := [];
      while !IsEmptyResult(result)
        invariant requestId == old(requestId) && sent == old(sent) && synced == old(synced) && cache == old(cache)
        invariant more + inbox == old(inbox)
        invariant more != [] ==> result == more[|more| - 1] && !IsEmptyResult(last)
        invariant more == [] ==> result == last
        invariant forall j :: 0 <= j < |more| - 1 ==> !IsEmptyResult(more[j])
        decreases |inbox|
      {
        if inbox == [] {
          return more, false;
        }
        result := ReadStdout();
        more := more + [result];
      }
      found := true;
    }

    /** One round of the second loop of `_open_files`: the
        waitForDiagnostics request, then reading on until a message with an
        empty result. */
    method WaitForDiagnostics(uri: string) returns (res: Result<seq<Message>, ServerError>)
      modifies this
      ensures (Snapshot(), res) == WaitOne(old(Snapshot()), uri)
    {
      ghost var s0 := Snapshot();
      var rs := SendRequest(WAIT_FOR_DIAGNOSTICS, WaitParams(uri));
      WaitOneSteps(s0, uri);
      if rs.Err? {
        return Err(rs.error);
      }
      var more := DrainResponses(rs.value[|rs.value| - 1]);
      if more.Err? {
        return Err(more.error);
      }
      return Ok(rs.value + more.value);
    }

    /** The reading loop after the request's own response, as `Drain`. */
    method DrainResponses(last: Message) returns (res: Result<seq<Message>, ServerError>)
      modifies this
      ensures (Snapshot(), res) == Drain(old(Snapshot()), last)
    {
      ghost var t := Snapshot();
      var more, found := ReadUntilEmptyResult(last);
      if !found {
        DrainStalls(t, last);
        assert Snapshot() == t.(inbox := []);
        return Err(Stalled);
      }
      if more != [] {
        assert more == t.inbox[..|more|] && inbox == t.inbox[|more|..];
        DrainAt(t, last, |more| - 1);
      } else {
        assert Drain(t, last) == (t, Ok([]));
      }
      return Ok(more);
    }

    // -------------------------------------------------------------------
    // Opening and closing files

    /** The first loop of `_open_files`. */
    method SendDidOpens(uris: seq<string>)
      modifies this
      ensures Snapshot() == old(Snapshot()).(sent := old(sent) + DidOpens(readFile, uris))
    {
      ghost var t := Snapshot();
      for i := 0 to |uris|
        invariant requestId == t.requestId && inbox == t.inbox && synced == t.synced && cache == t.cache
        invariant sent == t.sent + DidOpens(readFile, uris[..i])
      {
        var text := readFile(FilePath(uris[i]));
        SendNotification(DID_OPEN, JObj([("textDocument", JObj([("uri", JStr(uris[i])), ("text", JStr(text)),
                                                                ("languageId", JStr("lean")), ("version", JInt(1))]))]));
        DidOpensSnoc(t.sent, readFile, uris, i);
      }
      assert uris[..|uris|] == uris;
    }

    /** `_open_files`. */
    method OpenFiles(uris: seq<string>) returns (res: Result<seq<FileDiagnostics>, ServerError>)
      modifies this
      ensures (Snapshot(), res) == OpenAll(old(Snapshot()), readFile, uris)
      ensures old(Valid()) ==> Valid()
    {
      SendDidOpens(uris);
      ghost var t := Snapshot();
      var responses: seq<Message> := [];
      for i := 0 to |uris|
        invariant WaitEach(t, uris[..i]) == (Snapshot(), Ok(responses))
      {
        ghost var before := Snapshot();
        var r := WaitForDiagnostics(uris[i]);
        if r.Err? {
          WaitEachSnocFails(t, uris, i, before, responses, (Snapshot(), r));
          WaitEachFails(t, uris, i + 1);
          return Err(r.error);
        }
        WaitEachSnoc(t, uris, i, before, responses, Snapshot(), r.value);
        responses := responses + r.value;
      }
      assert uris[..|uris|] == uris;
      res := GroupDiagnostics(responses, uris);
    }

    /** `_close_files`. */
    method CloseFiles(uris: seq<string>, blocking: bool) returns (res: Result<(), ServerError>)
      modifies this
      ensures (Snapshot(), res) == Close(old(Snapshot()), uris, blocking)
      ensures old(Valid()) ==> Valid()
    {
      var closing := Only(uris, Elems(synced));
      SendDidCloses(closing);
      if blocking {
        ghost var t := Snapshot();
        var waiting := Elems(closing);
        while waiting != {}
          invariant Snapshot() == t.(inbox := inbox)
          invariant AwaitPushes(t.inbox, Elems(closing)) == AwaitPushes(inbox, waiting)
          decreases |inbox|
        {
          if inbox == [] {
            return Err(Stalled);
          }
          var resp := ReadStdout();
          if resp.PublishDiagnostics? {
            waiting := waiting - {resp.uri};
          }
        }
      }
      res := Ok(());
    }

    /** The didClose loop of `_close_files`. */
    method SendDidCloses(uris: seq<string>)
      modifies this
      ensures Snapshot() == old(Snapshot()).(sent := old(sent) + DidCloses(uris))
    {
      ghost var t := Snapshot();
      for i := 0 to |uris|
        invariant requestId == t.requestId && inbox == t.inbox && synced == t.synced && cache == t.cache
        invariant sent == t.sent + DidCloses(uris[..i])
      {
        SendNotification(DID_CLOSE, JObj([("textDocument", TextDocument(uris[i]))]));
        DidClosesSnoc(t.sent, uris, i);
      }
      assert uris[..|uris|] == uris;
    }

    // -------------------------------------------------------------------
    // sync_files

    /** `synced_files.update(zip(uris, reports))`. */
    method AddSynced(uris: seq<string>, reports: seq<FileDiagnostics>)
      requires |uris| == |reports|
      modifies this
      ensures Snapshot() == old(Snapshot()).(synced := InsertAll(old(synced), uris),
                                             cache := AssignAll(old(cache), uris, reports))
    {
      ghost var t := Snapshot();
      var order, d := synced, cache;
      for i := 0 to |uris|
        invariant Snapshot() == t
        invariant order == InsertAll(t.synced, uris[..i]) && d == AssignAll(t.cache, uris[..i], reports[..i])
      {
        AssignSnoc(t.synced, t.cache, uris, reports, i, order, d);
        order := Insert(order, uris[i]);
        d := d[uris[i] := reports[i]];
      }
      assert uris[..|uris|] == uris && reports[..|reports|] == reports;
      synced, cache := order, d;
    }

    /** `del synced_files[uri]` for each listed URI. */
    method DeleteSynced(uris: seq<string>)
      modifies this
      ensures Snapshot() == old(Snapshot()).(synced := Without(old(synced), Elems(uris)),
                                             cache := old(cache) - Elems(uris))
    {
      ghost var t := Snapshot();
      assert Elems(uris[..0]) == {};
      WithoutNothing(synced);
      for i := 0 to |uris|
        invariant requestId == t.requestId && inbox == t.inbox && sent == t.sent
        invariant synced == Without(t.synced, Elems(uris[..i])) && cache == t.cache - Elems(uris[..i])
      {
        DeleteSnoc(t.synced, t.cache, uris, i);
        synced := Remove(synced, uris[i]);
        cache := cache - {uris[i]};
      }
      assert uris[..|uris|] == uris;
    }

    /** The second half of `sync_files`: record what opening reported for
        the new files, then, beyond the bound, close and delete the oldest
        synced files the request does not name. `s` is the state before
        the open. */
    method RecordAndEvict(ghost s: Session, uris: seq<string>, added: seq<string>, reports: seq<FileDiagnostics>)
      requires Consistent(s) && synced == s.synced && cache == s.cache
      requires added == NewUris(s, uris) && |reports| == |added|
      modifies this
      ensures Snapshot() == Settle(s, old(Snapshot()), uris, maxSynced, reports)
    {
      ghost var t := Snapshot();
      AddSynced(added, reports);
      var removeCount := |synced| - maxSynced;
      if removeCount > 0 {
        EvictOverflow(s, t, uris, reports);
      } else {
        SettleKeeps(s, t, uris, maxSynced, reports);
      }
    }

    /** Closing and forgetting the oldest unrequested files once the cache
        has grown past its bound. */
    method EvictOverflow(ghost s: Session, ghost t: Session, uris: seq<string>, ghost reports: seq<FileDiagnostics>)
      requires Consistent(s) && t.synced == s.synced && t.cache == s.cache
      requires |reports| == |NewUris(s, uris)|
      requires Snapshot() == t.(synced := Grown(s, uris), cache := AssignAll(s.cache, NewUris(s, uris), reports))
      requires |synced| - maxSynced > 0
      modifies this
      ensures Snapshot() == Settle(s, t, uris, maxSynced, reports)
    {
      SettleEvicts(s, t, uris, maxSynced, reports);
      var removable := EvictionList(synced, Elems(uris), |synced| - maxSynced);
      var _ := CloseFiles(removable, false);
      DeleteSynced(removable);
    }

    /** `sync_files`. */
    method SyncFiles(uris: seq<string>) returns (res: Result<seq<FileDiagnostics>, ServerError>)
      requires Valid()
      modifies this
      ensures Valid()
      ensures (Snapshot(), res) == Sync(old(Snapshot()), readFile, maxSynced, uris)
    {
      ghost var s := Snapshot();
      var added := Without(uris, Elems(synced));
      var reports: seq<FileDiagnostics> := [];
      if added != [] {
        var opened_ := OpenFiles(added);
        if opened_.Err? {
          return Err(opened_.error);
        }
        reports := opened_.value;
      }
      SyncOpened(s, readFile, maxSynced, uris, Snapshot(), reports);
      RecordAndEvict(s, uris, added, reports);
      res := Ok(Lookup(Snapshot(), uris));
    }

    /** `sync_file`: `sync_files` on one path, answering its diagnostics. */
    method SyncFile(uri: string) returns (res: Result<FileDiagnostics, ServerError>)
      requires Valid()
      modifies this
      ensures Valid()
      ensures Snapshot() == Sync(old(Snapshot()), readFile, maxSynced, [uri]).0
      ensures res.Err? <==> Sync(old(Snapshot()), readFile, maxSynced, [uri]).1.Err?
      ensures res.Ok? ==> uri in synced && res.value == cache[uri]
    {
      var all := SyncFiles([uri]);
      if all.Err? {
        return Err(all.error);
      }
      res := Ok(all.value[0]);
    }
  }
}
