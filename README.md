# leanclient: the client-side file synchronisation of a Lean language-server client

This project models in Dafny the part of `leanclient` that keeps a Lean
language server and its client in step: which files are open, what text and
diagnostics the client holds for each, how server notifications update that
state, how the bounded cache of open files evicts, and the small codecs
around it (base-protocol framing, URIs, the semantic-token decoder, the
`lake env` parser, widget image extraction).

Each of the three clients of the repository has a module of pure
specification functions and a class whose methods are proved to compute them:

- `FileState`, `FileCache` and the class `FileManager.LSPFileManager` model
  the synchronous file manager (`leanclient/file_manager.py`). Each opened
  file's state record, the two notification handlers, the version gate, the
  completion rule of `_wait_for_diagnostics`, `open_files` with its FIFO
  eviction, `update_file`, `close_files`, `get_diagnostics` and
  `get_file_content` are all modelled.
- `BaseState` and the class `BaseClient.BaseLeanLSPClient` model the
  asynchronous client (`leanclient/base_client.py`). This covers the
  `files_finished` encoding, the pending-request table, the message pump
  `_run_stdout` over the bytes the server writes, and the bounded cache over
  four dictionaries. It also covers `wait_for_line` and `send_request_retry`.
- `LanguageSession` and the class `LanguageServer.LeanLanguageServer` model
  the legacy blocking wrapper (`leanclient/language_server.py`). This covers
  the request counter and the read-until-id loop, `sync_files` with its
  eviction, the grouping of diagnostics, `_close_files` and `get_sorries`.

Shared modules:

- `Framing`: `Content-Length` framing.
- `Uri`: `local_to_uri`/`uri_to_local`.
- `Retry`: the retry-until-stable loop both clients use.
- `OrderedKeys`: the key order of an `OrderedDict`, and eviction.
- `LakeEnv`: `get_env`.
- `Utils`: `get_dict` and the semantic-token decoder.
- `Experimental`: the widget image search and the HTML wrap rule of `render`.
- `Search`: the first-occurrence search behind `split`.
- `Json`, `Protocol` and `Wrappers`: the values exchanged.

Server input is a parameter throughout:

- the notifications handled while a method sleeps;
- the outcome of each `waitForDiagnostics` request;
- the answers to a retried request;
- the messages read from the server;
- the random ids drawn.

A deadline is the point where that input runs out.

## Model

| member | source | states |
|---|---|---|
| Search.Find | leanclient/base_client.py:648 | the first occurrence of the separator (`=` of a `lake env` line, the header's colon, a data URL's comma), or none exactly when it is absent |
| Search.FindAfter | leanclient/base_client.py:648 | a prefix without the separator ends at the first separator |
| Uri.LocalToUri | leanclient/base_client.py:124-140 | the URI is `file://`, then the project path, then the local path |
| Uri.UriToLocal | leanclient/base_client.py:142-144 | drops the project path's length plus 7 characters; a shorter URI gives the empty path |
| Uri.UriToLocalOfLocalToUri | leanclient/base_client.py:124-144 | converting a path to a URI and back gives the path |
| Uri.LocalToUriOfUriToLocal | leanclient/base_client.py:124-144 | a URI that starts with the scheme and the project path converts to a path and back to itself |
| Uri.LocalToUriInjective | leanclient/base_client.py:124-140 | distinct paths have distinct URIs, so state kept per path and per URI agrees |
| Framing.Digits | leanclient/base_client.py:264 | `len(body)` in decimal: non-empty and all digits |
| Framing.DigitsValueOfDigits | leanclient/base_client.py:264 | the decimal length written reads back as the same number |
| Framing.StripLeft | leanclient/base_client.py:224 | `int()` strips leading whitespace: a suffix that starts with a non-space |
| Framing.StripRight | leanclient/base_client.py:224 | `int()` strips trailing whitespace: a prefix that ends with a non-space |
| Framing.ReadLine | leanclient/base_client.py:216-225 | `readline` splits the stream into a line and the rest, and takes something from a non-empty stream |
| Framing.SecondField | leanclient/base_client.py:224 | `split(":")[1]` holds no colon |
| Framing.ReadFrame | leanclient/base_client.py:208-233 | reading a body consumes part of the stream; the body is read whole, as `readexactly` would (see Findings) |
| Framing.ReadFrameChunked | leanclient/base_client.py:208-233 | `read(n)` as written returns the buffered body bytes only; a short read drops the message and leaves the rest of the body in the stream |
| Framing.ReadFrameChunkedWhole | leanclient/base_client.py:226-233 | when the whole body has arrived, `read(n)` reads as `readexactly(n)` |
| Framing.ShortReadDropsFrame | leanclient/base_client.py:226-231 | a written frame whose body has only partly arrived is dropped and the reader resumes inside its body, where the exact read yields the body and resumes at the next frame |
| Framing.EncodeFrame | leanclient/base_client.py:263-265 | a frame is the header, the decimal length, a blank line and the body, with the body at the end |
| Framing.ParseWrittenHeader | leanclient/base_client.py:224 | the header line the writer produces parses back to the digits' value |
| Framing.EncodedHeaderParses | leanclient/base_client.py:224-225 | the first line of a written frame declares the body's length |
| Framing.ReadEncodedFrame | leanclient/base_client.py:208-233 | reading a written frame gives exactly its body and leaves the rest of the stream |
| Framing.ReadAllEncodeAll | leanclient/base_client.py:147-156 | a stream of written frames reads back as its bodies, in order |
| Framing.EncodeAllAppend | leanclient/base_client.py:263-266 | writing one more frame extends the stream by exactly that frame |
| Protocol.RequestFields | leanclient/base_client.py:248-258 | the object built has `method` and `params` as given, and `id` exactly when one is given |
| Protocol.RequestObject | leanclient/base_client.py:248-258 | the request object carries the method and the params, and an id exactly when one is given |
| Json.Get | leanclient/experimental.py:265-267 | a lookup finds a value exactly when the key is present, and the value is one stored under it |
| Json.GetAppend | leanclient/experimental.py:265-267 | a key absent from the first part of an object is looked up in the second |
| Json.Values | leanclient/experimental.py:279 | `values()`: one value per member, in order |
| Retry.Run | leanclient/file_manager.py:204-211 | `retry_count` after an answer: reset to 0 by a changed answer |
| Retry.RetryUntilStable | leanclient/file_manager.py:196-213 | the loop's answer and number of requests are those of `Settle` |
| Retry.SettleFirst | leanclient/base_client.py:347-361 | the loop returns the first answer where it repeated the previous one often enough; no earlier answer did; with no such answer nothing is returned |
| Retry.SettleFromFirst | leanclient/file_manager.py:204-213 | from any attempt with no earlier stop, the loop returns the first answer meeting the stop condition, or none after using up every answer |
| Retry.RunMeansEqualTail | leanclient/file_manager.py:204-211 | the count reaches k exactly when the last k + 1 answers are equal |
| Retry.StableAnswer | leanclient/base_client.py:352-355 | the answer the loop stops on ends a run of max(retries, 1) + 1 equal answers |
| Retry.FirstAnswerMatchesStart | leanclient/base_client.py:347-355 | a first answer equal to the sentinel string already counts as a repeat |
| OrderedKeys.ElemsCard | leanclient/file_manager.py:241-243 | a list without repetitions has as many elements as its set |
| OrderedKeys.Without | leanclient/file_manager.py:235 | `[p for p in s if p not in xs]`: keeps exactly the elements outside xs |
| OrderedKeys.Only | leanclient/language_server.py:231 | `[u for u in s if u in xs]`: keeps exactly the elements inside xs |
| OrderedKeys.OnlyAll | leanclient/language_server.py:231 | filtering a list whose elements are all kept changes nothing |
| OrderedKeys.OnlyNone | leanclient/language_server.py:231 | filtering a list none of whose elements is kept leaves nothing |
| OrderedKeys.WithoutNoDup | leanclient/file_manager.py:245-247 | deleting keys keeps the key order free of repetitions |
| OrderedKeys.Remove | leanclient/base_client.py:496 | `del d[k]`: a key remains exactly when it was there and is not `k`; a duplicate-free list stays so and loses one entry when `k` was in it (order of the rest: `OrderedKeys.WithoutKeepsOrder`) |
| OrderedKeys.Dedup | leanclient/language_server.py:262 | the same elements, each listed once |
| OrderedKeys.EvictionList | leanclient/file_manager.py:241-248 | the evicted keys are `max(0, count)` keys, or all candidates if fewer, each in the order and not requested |
| OrderedKeys.IndexOf | leanclient/file_manager.py:245-248 | a key's position in the order is where it first occurs |
| OrderedKeys.WithoutKeepsOrder | leanclient/file_manager.py:245-247 | filtering keeps the relative order of the remaining keys |
| OrderedKeys.EvictionIsOldest | leanclient/file_manager.py:245-248 | every evicted key was inserted before every key kept that was not requested |
| OrderedKeys.WithoutCard | leanclient/file_manager.py:241-243 | removing keys present in a list without repetitions shortens it by their number |
| OrderedKeys.EvictionListNoDup | leanclient/file_manager.py:245-248 | no key is evicted twice |
| OrderedKeys.EvictionRestoresBound | leanclient/file_manager.py:241-251 | when the request fits, eviction brings the number of keys down to the bound |
| OrderedKeys.EvictionSettles | leanclient/file_manager.py:241-251 | evicting again for the same request evicts nothing |
| OrderedKeys.EvictedPartly | leanclient/file_manager.py:241-248 | with enough candidates, eviction removes exactly `count` keys |
| OrderedKeys.EvictedAll | leanclient/file_manager.py:245-248 | with too few candidates, every key not requested is evicted |
| OrderedKeys.Insert | leanclient/base_client.py:420 | assigning a key: a new key joins the order |
| OrderedKeys.InsertAll | leanclient/language_server.py:262 | assigning keys in turn: existing keys keep their place and the new ones follow |
| OrderedKeys.InsertAllElems | leanclient/language_server.py:262 | after assigning, the keys are the old ones and the assigned ones |
| OrderedKeys.InsertAllNoDup | leanclient/language_server.py:262 | assigning keys keeps the key order free of repetitions |
| OrderedKeys.InsertAllPresent | leanclient/language_server.py:262 | assigning keys already present leaves the order unchanged |
| OrderedKeys.InsertAllAppends | leanclient/language_server.py:262 | the new keys go to the end, first occurrence first |
| OrderedKeys.WithoutWithout | leanclient/language_server.py:270-271 | deleting one set of keys and then another deletes their union |
| OrderedKeys.DistinctPrefix | leanclient/file_manager.py:365-367 | how far a deletion loop gets: the longest prefix without repetitions, stopped by the first repeated key |
| OrderedKeys.DistinctPrefixUnique | leanclient/file_manager.py:365-367 | the prefix is the only length with those two properties |
| OrderedKeys.DistinctPrefixNoDup | leanclient/file_manager.py:365-367 | a list without repetitions is deleted in full |
| OrderedKeys.DistinctPrefixFull | leanclient/file_manager.py:365-367 | the loop deletes the whole list exactly when the list has no repetitions |
| OrderedKeys.WithoutAll | leanclient/language_server.py:267 | removing every element leaves nothing |
| OrderedKeys.WithoutNothing | leanclient/language_server.py:267 | removing no element changes nothing |
| FileState.Answer | leanclient/file_manager.py:442-449 | a recorded error is the only entry; else the fatal message when fatal without diagnostics; else the diagnostics |
| FileState.FailureIsReported | leanclient/file_manager.py:442-449 | once an error is set, or a fatal error was seen with no diagnostics, the answer is never empty |
| FileState.Opened | leanclient/file_manager.py:110-125 | a new file: version 0, diagnostics version below it, processing, not complete, no close flags, empty answer |
| FileState.OnPublishDiagnostics | leanclient/file_manager.py:38-61 | a push is taken when its version (-2 if missing) is at least the stored one and no error is set; taken, it replaces the diagnostics and their version; else nothing changes; the version never drops; close-ready exactly on an empty push during a close |
| FileState.OnFileProgress | leanclient/file_manager.py:63-88 | a fatal last entry sets fatal, clears processing and completes; an empty list only clears processing; anything else changes nothing; the version is never consulted |
| FileState.FatalProgressAnswer | leanclient/file_manager.py:78-83 | a fatal report on a file with no diagnostics makes the answer the synthetic fatal message |
| FileState.AfterChange | leanclient/file_manager.py:286-296 | an edit raises the version by one, sets the diagnostics version one below it, and resets diagnostics, error and flags |
| FileState.StalePushAfterChange | leanclient/file_manager.py:288-290 | after an edit, a push tagged with an older version is ignored |
| FileState.MarkCaughtUp | leanclient/file_manager.py:495-500 | a file becomes complete exactly when it is not processing and its diagnostics have caught up with the target version |
| FileState.OnWaitDone | leanclient/file_manager.py:531-541 | a finished wait completes the file; a failure also records its message as the error and clears processing |
| FileState.FailedWaitAnswer | leanclient/file_manager.py:536-538 | after a failed wait the answer is that failure's message |
| FileState.PublishTo | leanclient/file_manager.py:44-61 | the handler touches only an open file, lets it evolve, and sets no close flag outside a close |
| FileState.ProgressTo | leanclient/file_manager.py:69-88 | the handler touches only an open file, lets it evolve, and sets no close flag outside a close |
| FileState.DeliverTo | leanclient/file_manager.py:35-88 | other server messages leave the opened files unchanged |
| FileState.UnknownFileIgnored | leanclient/file_manager.py:48-49 | a notification about a file that is not open changes nothing |
| FileState.EmptyPushReadiesClose | leanclient/file_manager.py:60-61 | the server's empty push for a file being closed makes it close-ready |
| FileState.CloseCheck | leanclient/file_manager.py:327-332 | raises exactly when a listed path is not open: FileNotFoundError with the missing paths, or, when the empty path is the only one missing, the KeyError the URI lookup raises |
| FileCache.AfterOpenNewEffect | leanclient/file_manager.py:105-136 | each listed path gets a fresh state and leaves the recently closed set; its key goes to the end of the order; one didOpen per path is sent; other files are untouched |
| FileCache.AfterOpenNewSound | leanclient/file_manager.py:105-136 | opening keeps the order and the map consistent |
| FileCache.DeliverAllEffect | leanclient/file_manager.py:38-88 | a run of notifications only lets the files evolve |
| FileCache.AwaitCloseEffect | leanclient/file_manager.py:345-356 | the close wait only lets the files evolve, and gives up only at the deadline |
| FileCache.DeleteAllStops | leanclient/file_manager.py:365-367 | once a deletion raises KeyError, the remaining paths are not touched |
| FileCache.DeleteAllEffect | leanclient/file_manager.py:365-367 | the deletion loop removes the longest prefix without repetitions, and raises KeyError at the first repeated path |
| FileCache.CloseWaitEffect | leanclient/file_manager.py:333-363 | setting, awaiting and clearing the close flags keeps the keys, lets the files evolve and leaves no flag set |
| FileCache.AfterCloseEffect | leanclient/file_manager.py:316-367 | once the check passes: one didClose per path; the paths join recently closed; it succeeds exactly when no path repeats; then every path is gone |
| FileCache.AfterCloseKeepsValid | leanclient/file_manager.py:316-367 | closing keeps the cache consistent and within its bound, whether it succeeds or raises |
| FileCache.EvictEffect | leanclient/file_manager.py:240-251 | eviction closes the oldest paths not requested and leaves at most max files open |
| FileCache.AfterOpenSteps | leanclient/file_manager.py:231-251 | `open_files` opens the new paths at the end of the order, then evicts from that order |
| FileCache.AfterOpenSound | leanclient/file_manager.py:226-251 | too many paths raise and change nothing; otherwise it succeeds; the cache stays consistent and within its bound |
| FileCache.AfterOpenOrder | leanclient/file_manager.py:234-251 | the new order is the old one plus the new paths, minus the evicted ones |
| FileCache.AfterOpenFiles | leanclient/file_manager.py:234-251 | every requested path is open; evicted paths were not requested and are recently closed; kept files evolved from their earlier or fresh state |
| FileCache.AfterOpenEffect | leanclient/file_manager.py:215-251 | what `open_files` promises, the error case and all of the success case together |
| FileCache.ReopenChangesNothing | leanclient/file_manager.py:234-237 | opening an open file changes nothing |
| FileCache.NeedingWait | leanclient/file_manager.py:502-504 | the URIs waited for are exactly the listed ones whose open file is still incomplete after the check |
| FileCache.PrepassEffect | leanclient/file_manager.py:488-504 | the check loop computes the checked files, the URIs needing a wait and each one's target version |
| FileCache.FinishDoneEffect | leanclient/file_manager.py:527-541 | the first pass completes exactly the pending URIs whose request has finished |
| FileCache.CatchUpEffect | leanclient/file_manager.py:543-556 | the second pass completes only other pending URIs whose files have become complete |
| FileCache.PollEffect | leanclient/file_manager.py:520-561 | a poll drops only URIs that are complete, and drops every one whose request finished |
| FileCache.PollsEffect | leanclient/file_manager.py:517-565 | unless the wait times out with URIs still pending, every listed open file ends complete |
| FileCache.AllDoneEndsWait | leanclient/file_manager.py:527-561 | a poll that finds every request finished ends the wait without a timeout |
| FileCache.MissingNone | leanclient/file_manager.py:480-485 | the missing list is empty exactly when every listed URI's file is open |
| FileCache.CheckedEffect | leanclient/file_manager.py:490-500 | the check only lets files evolve, and leaves complete every listed file that needs no wait |
| FileCache.WaitRequestsTargets | leanclient/file_manager.py:511-514 | one waitForDiagnostics request per URI, carrying the version its file had at the check |
| FileCache.AwaitEffect | leanclient/file_manager.py:506-565 | the wait proper changes neither order nor recently closed, lets files evolve, and without a timeout leaves every listed file complete |
| FileCache.AfterWaitOk | leanclient/file_manager.py:486-565 | with every listed file open, the wait succeeds and sends one request per file needing it |
| FileCache.AfterWaitEffect | leanclient/file_manager.py:466-565 | raises FileNotFoundError and changes nothing exactly when a listed file is not open; otherwise as in `AfterWaitOk` |
| FileCache.AfterUpdateEffect | leanclient/file_manager.py:263-314 | an unopened path raises and changes nothing; otherwise only that file changes (new text, version up one, reset state) and one didChange with the new version is sent |
| FileCache.ContentAfterOpen | leanclient/file_manager.py:451-464 | a newly opened file's content is the text read from disk |
| FileCache.ContentAfterUpdate | leanclient/file_manager.py:283-287 | after an edit the content is the edited text |
| FileCache.WaitOne | leanclient/file_manager.py:427-435 | waiting on one open file succeeds and keeps it open; unless it times out, the file is complete |
| FileCache.AfterGetDiagnosticsEffect | leanclient/file_manager.py:369-449 | a recently closed path that is not open gives [] and leaves that set; a complete file gives its answer untouched; otherwise it opens, waits and answers; it fails only when the bound is below 1 |
| FileManager.LSPFileManager.constructor | leanclient/file_manager.py:17-33 | no file open, none recently closed, nothing sent |
| FileManager.LSPFileManager.HandlePublishDiagnostics | leanclient/file_manager.py:38-61 | the state becomes `PublishTo` of the old one, and `Valid()` is kept |
| FileManager.LSPFileManager.HandleFileProgress | leanclient/file_manager.py:63-88 | the state becomes `ProgressTo` of the old one, and `Valid()` is kept |
| FileManager.LSPFileManager.Deliver | leanclient/file_manager.py:35-88 | a server message reaches the handler registered for its method, and `Valid()` is kept |
| FileManager.LSPFileManager.DeliverEach | leanclient/file_manager.py:38-88 | the notifications handled while a method sleeps, in order, keeping `Valid()` |
| FileManager.LSPFileManager.OpenNewFiles | leanclient/file_manager.py:94-136 | the loop computes `AfterOpenNew` |
| FileManager.LSPFileManager.OpenFiles | leanclient/file_manager.py:215-251 | computes `AfterOpen` and keeps the invariant |
| FileManager.LSPFileManager.MarkClosePending | leanclient/file_manager.py:333-336 | every listed file is flagged close-pending and not ready |
| FileManager.LSPFileManager.ClearCloseFlags | leanclient/file_manager.py:357-362 | the flags of every listed file still open are cleared |
| FileManager.LSPFileManager.RecordClosed | leanclient/file_manager.py:337-338 | every listed path joins recently closed |
| FileManager.LSPFileManager.SendCloses | leanclient/file_manager.py:340-342 | one didClose per URI, in order |
| FileManager.LSPFileManager.AwaitCloseReady | leanclient/file_manager.py:345-356 | the polling wait computes `AwaitClose` |
| FileManager.LSPFileManager.DeletePaths | leanclient/file_manager.py:365-367 | the deletion loop computes `DeleteAll` |
| FileManager.LSPFileManager.CloseFiles | leanclient/file_manager.py:316-367 | computes `AfterClose` and keeps the invariant |
| FileManager.LSPFileManager.UpdateFile | leanclient/file_manager.py:263-314 | computes `AfterUpdate` and keeps the invariant |
| FileManager.LSPFileManager.GetFileContent | leanclient/file_manager.py:451-464 | the stored text of an open file, else FileNotFoundError |
| FileManager.LSPFileManager.CheckBeforeWait | leanclient/file_manager.py:488-504 | the check loop computes `Prepass` |
| FileManager.LSPFileManager.SendWaitRequests | leanclient/file_manager.py:511-514 | one waitForDiagnostics request per URI collected |
| FileManager.LSPFileManager.FinishDoneRequests | leanclient/file_manager.py:527-541 | the first pass computes `FinishDone` |
| FileManager.LSPFileManager.CatchUpRequests | leanclient/file_manager.py:543-556 | the second pass computes `CatchUp` |
| FileManager.LSPFileManager.PollOnce | leanclient/file_manager.py:520-561 | one poll computes `Poll` |
| FileManager.LSPFileManager.PollUntilDone | leanclient/file_manager.py:517-565 | the polling loop computes `Polls` |
| FileManager.LSPFileManager.WaitForDiagnostics | leanclient/file_manager.py:466-565 | computes `AfterWait` and keeps the invariant |
| FileManager.LSPFileManager.SendRequestRetry | leanclient/file_manager.py:176-213 | opens the file, then answers as `Settle` does once an answer has repeated more than `max_retries` times |
| FileManager.LSPFileManager.GetDiagnostics | leanclient/file_manager.py:369-449 | computes `AfterGetDiagnostics` and keeps the invariant |
| BaseState.FirstFresh | leanclient/base_client.py:255-257 | the id drawn is the first draw not pending; there is none exactly when every draw is pending |
| BaseState.Dispatch | leanclient/base_client.py:147-195 | a stopped pump or an ignored method changes nothing; text and output are never touched; no file is forgotten; pending only loses the id of a response |
| BaseState.DispatchAll | leanclient/base_client.py:152-195 | the pump never forgets a file in `files_finished` |
| BaseState.Assign | leanclient/base_client.py:418-422 | each listed key is assigned its value and other keys keep theirs |
| BaseState.FileContent | leanclient/base_client.py:602-614 | the stored text exactly when there is one, else FileNotFoundError naming the path |
| BaseState.RemovedConsistent | leanclient/base_client.py:495-499 | removing paths from all four dictionaries keeps them consistent |
| BaseState.DeleteOneOk | leanclient/base_client.py:495-499 | one path's four deletions get through exactly when it is in all four dictionaries, and then remove it from each |
| BaseState.DeleteEachOk | leanclient/base_client.py:495-499 | a deletion loop that gets through removes every listed path from all four dictionaries |
| BaseState.DeleteEachStops | leanclient/base_client.py:495-499 | once a deletion raises KeyError, the remaining paths are not touched |
| BaseState.DeleteEachEffect | leanclient/base_client.py:495-499 | with every path open, the loop removes the longest prefix without repetitions and raises KeyError at the first repeat |
| BaseState.AfterCloseEffect | leanclient/base_client.py:480-499 | unopened paths are skipped; it succeeds exactly when the open paths given are distinct, and then each is gone after one didClose; consistency survives a KeyError |
| BaseState.AfterCloseDistinct | leanclient/base_client.py:489-499 | closing distinct open paths removes exactly them, after one didClose each |
| BaseState.GrownKeys | leanclient/base_client.py:416-423 | new paths are added to every dictionary and to the end of the key order |
| BaseState.GrownConsistent | leanclient/base_client.py:416-423 | registering and reading new paths keeps the dictionaries consistent |
| BaseState.GrownOrdered | leanclient/base_client.py:416-423 | registering new paths keeps the key order exact |
| BaseState.GrownEntries | leanclient/base_client.py:416-423 | every requested path is open; new ones are not started (-1), have diagnostics None and hold the text read |
| BaseState.GrownKeeps | leanclient/base_client.py:416-417 | already-open paths keep their entries |
| BaseState.EvictOk | leanclient/base_client.py:426-430 | a closing phase that gets through removes exactly the evicted paths, none requested, after one didClose each |
| BaseState.EvictEffect | leanclient/base_client.py:426-430 | on consistent tables the closing phase gets through and removes exactly the evicted paths |
| BaseState.EvictKeeps | leanclient/base_client.py:426-430 | after the closing phase at most `max_opened_files` paths are open |
| BaseState.AfterOpenFits | leanclient/base_client.py:408-430 | a request that fits runs the open phase, then the closing phase |
| BaseState.AfterOpenEffect | leanclient/base_client.py:393-430 | a request that fits gets through, keeps the tables consistent, leaves at most max files open, and closes the oldest paths not requested |
| BaseState.AfterOpenEntries | leanclient/base_client.py:416-423 | after `open_files` every requested path is open with fresh entries if new and its old ones otherwise |
| BaseState.OpenedStaysFinished | leanclient/base_client.py:393-430 | after a successful `open_files` every requested path is in `files_finished` |
| BaseState.EvictOrdered | leanclient/base_client.py:426-430 | a closing phase that gets through keeps the key order exact with at most max paths |
| BaseState.OpenedBounded | leanclient/base_client.py:408-430 | a successful `open_files` leaves at most max files open |
| BaseState.GrownNothing | leanclient/base_client.py:416-417 | the open phase does nothing when every path is open |
| BaseState.ReopenChangesNothing | leanclient/base_client.py:432-440 | opening a path again right after a successful open changes nothing |
| BaseState.RequestFresh | leanclient/base_client.py:248-266 | a request adds exactly one id to pending, one that was not pending, and writes one frame carrying it |
| BaseState.RequestThenResponse | leanclient/base_client.py:189-192 | the response resolves the request: pending is as before, the response is handed over, and a second one is dropped |
| BaseState.UnmatchedChangesNothing | leanclient/base_client.py:160-161 | an ignored method, or a response with an unknown id, changes nothing |
| BaseState.FrameReadBack | leanclient/base_client.py:263-266 | a frame written after others is read back after them |
| BaseState.DispatchAllStopped | leanclient/base_client.py:152-156 | once the pump has stopped, later messages change nothing |
| BaseState.PumpFrames | leanclient/base_client.py:147-195 | the pump over written frames, each body read whole, dispatches their messages in order, then stops at the end of the stream |
| BaseState.ProgressEncoding | leanclient/base_client.py:168-187 | empty processing means done (-2); a fatal last entry means done plus the stored error entry (`FATAL_DIAGNOSTIC`); otherwise the entry's start line minus 1; a kindless entry stops the pump |
| BaseState.SetFinishedOrdered | leanclient/base_client.py:174 | writing a key of `files_finished` keeps its key order exact |
| BaseState.DispatchOrdered | leanclient/base_client.py:163-187 | one message keeps the key order exact |
| BaseState.DispatchAllOrdered | leanclient/base_client.py:152-195 | whatever the server sends, the key order stays exact |
| BaseState.LateProgressStrandsPath | leanclient/base_client.py:168-174 | progress for an unopened path makes it look open with no text: reading fails, updating and closing raise KeyError, reopening sends nothing |
| BaseState.AfterUpdateEffect | leanclient/base_client.py:442-478 | an unopened path raises and changes nothing; otherwise only its text changes and one didChange is written |
| BaseState.AfterTicks | leanclient/base_client.py:588-594 | polling never forgets a file |
| BaseState.Waited | leanclient/base_client.py:588-600 | the polls done never exceed the polls available |
| BaseState.PollLineFirst | leanclient/base_client.py:588-600 | `wait_for_line` answers true at the first poll where the file is done or past the line, and false only when no poll was |
| BaseState.DeleteOneOrdered | leanclient/base_client.py:496 | deleting a key keeps the key order exact |
| BaseState.DeleteEachOrdered | leanclient/base_client.py:495-499 | the deletion loop keeps the key order exact |
| BaseState.AfterCloseOrdered | leanclient/base_client.py:480-499 | `close_files` keeps the key order exact |
| BaseState.AfterOpenOrdered | leanclient/base_client.py:393-430 | `open_files` keeps the key order exact |
| BaseClient.BaseLeanLSPClient.constructor | leanclient/base_client.py:31-49 | no file open, nothing pending or written, pump running |
| BaseClient.BaseLeanLSPClient.SetFinished | leanclient/base_client.py:174 | `files_finished[path] = v` |
| BaseClient.BaseLeanLSPClient.DispatchMessage | leanclient/base_client.py:158-195 | one turn of the pump computes `Dispatch` |
| BaseClient.BaseLeanLSPClient.DispatchEach | leanclient/base_client.py:152-195 | the pump over decoded messages computes `DispatchAll` |
| BaseClient.BaseLeanLSPClient.RunStdout | leanclient/base_client.py:147-195 | the pump over the bytes the server writes computes `Pump`, each body read whole |
| BaseClient.BaseLeanLSPClient.NewRequestId | leanclient/base_client.py:255-257 | the drawing loop returns `FirstFresh` |
| BaseClient.BaseLeanLSPClient.SendRequestRpc | leanclient/base_client.py:235-269 | a notification writes a frame without id; a request is `Request` |
| BaseClient.BaseLeanLSPClient.RegisterNew | leanclient/base_client.py:418-422 | each new path is marked not started, updated and without diagnostics |
| BaseClient.BaseLeanLSPClient.OpenNewFiles | leanclient/base_client.py:281-305 | each path's text is stored and a didOpen written |
| BaseClient.BaseLeanLSPClient.OpenMissing | leanclient/base_client.py:416-423 | the open phase computes `Grown` |
| BaseClient.BaseLeanLSPClient.OpenFiles | leanclient/base_client.py:393-430 | computes `AfterOpen` and keeps the invariant |
| BaseClient.BaseLeanLSPClient.DeletePath | leanclient/base_client.py:496-499 | the four deletions for one path compute `DeleteOne` |
| BaseClient.BaseLeanLSPClient.DeleteEachPath | leanclient/base_client.py:495-499 | the deletion loop computes `DeleteEach` |
| BaseClient.BaseLeanLSPClient.SendCloses | leanclient/base_client.py:490-493 | one didClose frame per path |
| BaseClient.BaseLeanLSPClient.CloseFiles | leanclient/base_client.py:480-499 | computes `AfterClose` and keeps the invariant |
| BaseClient.BaseLeanLSPClient.UpdateFile | leanclient/base_client.py:442-478 | computes `AfterUpdate` and keeps the invariant |
| BaseClient.BaseLeanLSPClient.GetFileContent | leanclient/base_client.py:602-614 | returns `FileContent` |
| BaseClient.BaseLeanLSPClient.WaitForLine | leanclient/base_client.py:573-600 | opens the file, then polls as `PollLine` does |
| BaseClient.BaseLeanLSPClient.SendRequestRetry | leanclient/base_client.py:323-361 | opens the file, then answers as `Settle` does once an answer has repeated `retries` times |
| LakeEnv.Split | leanclient/base_client.py:645 | `split("\n")`: at least one piece, none holding the separator |
| LakeEnv.ParseLines | leanclient/base_client.py:644-650 | an error names a non-empty line of the input without `=` |
| LakeEnv.ParseEnvText | leanclient/base_client.py:644-650 | the parsing loop computes `ParseEnv` |
| LakeEnv.GetEnv | leanclient/base_client.py:636-650 | a failed command raises with its code and stderr; otherwise the text, or the parsed dictionary |
| LakeEnv.SplitJoin | leanclient/base_client.py:645 | splitting undoes joining when no piece holds the separator |
| LakeEnv.Lines | leanclient/base_client.py:645-649 | one `key=value` line per pair |
| LakeEnv.ParseLinesLines | leanclient/base_client.py:644-650 | parsing the lines of pairs assigns every pair, later ones winning |
| LakeEnv.ParseRender | leanclient/base_client.py:644-650 | `get_env` reads back what `lake env` prints: every pair, with values that may contain `=` |
| LakeEnv.ParseLinesError | leanclient/base_client.py:646-648 | parsing fails exactly when some non-empty line has no `=` |
| LanguageSession.SendRawFresh | leanclient/language_server.py:157-166 | a request carries the current id, which is then above every id sent; a notification carries none |
| LanguageSession.FirstWithId | leanclient/language_server.py:145-149 | the first message with the id, and none before it |
| LanguageSession.Request | leanclient/language_server.py:134-151 | the id goes up by one; the messages read end with the first one carrying the request's id; when the output runs out first, Stalled |
| LanguageSession.SplitAtId | leanclient/language_server.py:145-149 | the first part ends with the first message carrying the id and holds no earlier one; both parts together are the messages read; none when no message carries the id |
| LanguageSession.RequestAt | leanclient/language_server.py:142-151 | the messages read are exactly those up to the first with the id |
| LanguageSession.RequestStalls | leanclient/language_server.py:147-149 | without a message carrying the id, the output is used up |
| LanguageSession.FirstEmptyResult | leanclient/language_server.py:200-205 | the first message whose result is `{}` |
| LanguageSession.Drain | leanclient/language_server.py:199-205 | reading stops at the first empty result, and not at all when the response was one |
| LanguageSession.DrainAt | leanclient/language_server.py:199-205 | the messages read are exactly those up to the first empty result |
| LanguageSession.DrainStalls | leanclient/language_server.py:199-205 | without an empty result the output is used up |
| LanguageSession.WaitOne | leanclient/language_server.py:196-205 | one waitForDiagnostics request with the next id; the messages read come off the front of the output |
| LanguageSession.WaitEach | leanclient/language_server.py:194-205 | one request per URI with consecutive ids; the messages read come off the front of the output |
| LanguageSession.WaitEachFails | leanclient/language_server.py:194-205 | once a wait stalls, the rest of the loop changes nothing |
| LanguageSession.LastPushIndex | leanclient/language_server.py:207-211 | the last publishDiagnostics for a URI, or none |
| LanguageSession.LastPushes | leanclient/language_server.py:207-211 | the dictionary comprehension: each pushed URI maps to its last push's diagnostics |
| LanguageSession.MessagesOf | leanclient/language_server.py:215-216 | the messages of exactly the diagnostics with that severity |
| LanguageSession.MessagesOfAppend | leanclient/language_server.py:215-216 | filtering by severity keeps the push order |
| LanguageSession.GroupDiagnostics | leanclient/language_server.py:207-219 | one report per requested URI, or KeyError for a missing severity |
| LanguageSession.LastPushUnique | leanclient/language_server.py:207-211 | a URI has one last push |
| LanguageSession.GroupedAsPushed | leanclient/language_server.py:207-219 | the last push wins: its warnings (severity 2) and errors (severity 1) in push order, or nothing for an empty push |
| LanguageSession.GroupedUnpushed | leanclient/language_server.py:219 | a URI with no push reports nothing |
| LanguageSession.GroupDiagnosticsFails | leanclient/language_server.py:213-216 | grouping raises exactly when some URI's last push has a diagnostic without severity |
| LanguageSession.GroupDiagnosticsSameUri | leanclient/language_server.py:219 | a URI requested twice gets the same report twice |
| LanguageSession.DidOpens | leanclient/language_server.py:185-191 | one didOpen per URI |
| LanguageSession.OpenAll | leanclient/language_server.py:173-219 | one report per URI; the didOpens and then one waitForDiagnostics per URI are written, ids in sequence |
| LanguageSession.DidCloses | leanclient/language_server.py:232-234 | one didClose per URI |
| LanguageSession.AwaitPushesEnds | leanclient/language_server.py:237-242 | the blocking wait ends exactly when every awaited URI gets a push |
| LanguageSession.Close | leanclient/language_server.py:221-242 | didClose only for synced URIs; the cache is untouched; without blocking nothing is read |
| LanguageSession.CloseWaits | leanclient/language_server.py:231-242 | the closed URIs are exactly the synced ones listed; a blocking close ends exactly when each gets a push |
| LanguageSession.CloseUnsynced | leanclient/language_server.py:231 | closing URIs none of which is synced does nothing |
| LanguageSession.AssignAll | leanclient/language_server.py:262 | `update(zip(...))`: each key gets its last value, other keys keep theirs |
| LanguageSession.Settle | leanclient/language_server.py:259-271 | new URIs are cached at the end; every requested URI stays synced; the evicted ones are closed and deleted |
| LanguageSession.EvictedOldest | leanclient/language_server.py:266-269 | every evicted URI is unrequested, is no longer synced, and was synced before every unrequested URI that stays |
| LanguageSession.SettleConsistent | leanclient/language_server.py:262-271 | after adding and evicting, the synced list has no repetitions, matches the cache keys and holds every requested URI |
| LanguageSession.SettleKeeps | leanclient/language_server.py:265-266 | nothing is evicted when the cache fits |
| LanguageSession.SettleEvicts | leanclient/language_server.py:265-271 | the first `len - MAX_SYNCED_FILES` unrequested URIs are closed and deleted |
| LanguageSession.Sync | leanclient/language_server.py:244-273 | the cache stays consistent; the result is each requested URI's cached report, in request order |
| LanguageSession.Lookup | leanclient/language_server.py:273 | the cached reports of the URIs, in request order |
| LanguageSession.SyncOpened | leanclient/language_server.py:259-273 | opening the new URIs, then caching and evicting, then looking up |
| LanguageSession.SyncUnfold | leanclient/language_server.py:259-262 | only the URIs not synced are opened; ids advance by their number |
| LanguageSession.SyncKeepsCached | leanclient/language_server.py:259 | a URI already synced reports its cached diagnostics |
| LanguageSession.SyncNewValue | leanclient/language_server.py:260-262 | a newly opened URI reports what `_open_files` gave for it |
| LanguageSession.SyncReportsOpened | leanclient/language_server.py:260-262 | a newly opened URI reports what opening gave at any of its positions |
| LanguageSession.OpenAllSameUri | leanclient/language_server.py:219 | a URI opened twice in one call gets the same report at both positions |
| LanguageSession.SyncEffect | leanclient/language_server.py:244-273 | the cache order, the id counter and the requests written after a sync |
| LanguageSession.SyncBounded | leanclient/language_server.py:265-271 | a request within the bound leaves at most MAX_SYNCED_FILES synced |
| LanguageSession.SyncEvictsOldest | leanclient/language_server.py:267-268 | evicted URIs were not requested and were synced before every unrequested URI kept |
| LanguageSession.SyncSettled | leanclient/language_server.py:259-271 | after a sync nothing is new and nothing to evict for the same request |
| LanguageSession.SyncIdle | leanclient/language_server.py:259-271 | a sync with nothing new and nothing to evict changes nothing |
| LanguageSession.SyncTwice | leanclient/language_server.py:259-273 | syncing the same URIs again gives the same result and changes nothing |
| LanguageSession.Sorries | leanclient/language_server.py:394-397 | the first three fields of exactly the tokens of type `leanSorryLike`, in order |
| LanguageSession.GetSorriesAsWrittenFails | leanclient/language_server.py:77-80 | with the decoder built on the whole legend object, `get_sorries` answers exactly when the data holds no complete group, and then with no sorries; otherwise it raises KeyError on the first group's type index |
| LanguageSession.GetSorries | leanclient/language_server.py:394-397 | with the decoder built on the legend's `tokenTypes`, `get_sorries` fails exactly when decoding does, and otherwise keeps the sorries of the decoded tokens |
| LanguageSession.GetSorriesOfEncoded | leanclient/language_server.py:394-397 | on data encoded from tokens whose types lie in the legend, `get_sorries` returns the sorries of those tokens |
| Utils.Subscript | leanclient/utils.py:43 | a dictionary subscript finds a value exactly when some key equals the subscript, and the value is that key's |
| Utils.LegendObjectDecodeFails | leanclient/utils.py:27-44 | decoding against a dictionary succeeds, with no tokens, exactly when the data holds no complete group; otherwise it raises KeyError on the first type index |
| LanguageSession.SorriesAppend | leanclient/language_server.py:397 | the filter keeps the token order |
| LanguageServer.LeanLanguageServer.constructor | leanclient/language_server.py:34-82 | request id 0, nothing sent, nothing synced |
| LanguageServer.LeanLanguageServer.LocalToUri | leanclient/language_server.py:107-108 | `file://` plus the project directory, and the file name converts back |
| LanguageServer.LeanLanguageServer.SendRawRequest | leanclient/language_server.py:157-171 | computes `SendRaw` |
| LanguageServer.LeanLanguageServer.SendNotification | leanclient/language_server.py:153-155 | a request object without id; the counter is unchanged |
| LanguageServer.LeanLanguageServer.ReadStdout | leanclient/language_server.py:111-123 | the next message, or an empty one when the output has ended |
| LanguageServer.LeanLanguageServer.ReadUntilId | leanclient/language_server.py:145-149 | reads up to and including the first message with the id, or all of the output |
| LanguageServer.LeanLanguageServer.SendRequest | leanclient/language_server.py:134-151 | computes `Request` |
| LanguageServer.LeanLanguageServer.ReadUntilEmptyResult | leanclient/language_server.py:199-205 | reads up to and including the first empty result, nothing if the response was one |
| LanguageServer.LeanLanguageServer.WaitForDiagnostics | leanclient/language_server.py:196-205 | computes `WaitOne` |
| LanguageServer.LeanLanguageServer.DrainResponses | leanclient/language_server.py:199-205 | computes `Drain`: reads until an empty result, not at all when the response was one |
| LanguageServer.LeanLanguageServer.SendDidOpens | leanclient/language_server.py:185-191 | one didOpen per URI |
| LanguageServer.LeanLanguageServer.OpenFiles | leanclient/language_server.py:173-219 | computes `OpenAll`, and `Valid()` is kept |
| LanguageServer.LeanLanguageServer.CloseFiles | leanclient/language_server.py:221-242 | computes `Close`, and `Valid()` is kept |
| LanguageServer.LeanLanguageServer.SendDidCloses | leanclient/language_server.py:232-234 | one didClose per URI |
| LanguageServer.LeanLanguageServer.AddSynced | leanclient/language_server.py:262 | the new URIs and their reports join the cache |
| LanguageServer.LeanLanguageServer.DeleteSynced | leanclient/language_server.py:270-271 | the evicted URIs leave the cache |
| LanguageServer.LeanLanguageServer.RecordAndEvict | leanclient/language_server.py:262-271 | computes `Settle` |
| LanguageServer.LeanLanguageServer.EvictOverflow | leanclient/language_server.py:266-271 | over the bound, closes and forgets the evicted URIs, which completes `Settle` |
| LanguageServer.LeanLanguageServer.SyncFiles | leanclient/language_server.py:244-273 | computes `Sync` and keeps the cache consistent |
| LanguageServer.LeanLanguageServer.SyncFile | leanclient/language_server.py:275-277 | the cached report of the one URI after syncing it |
| Utils.GetDict | leanclient/utils.py:10-17 | the dictionary carries the change's text |
| Utils.ChangeFromDictOfGetDict | leanclient/utils.py:10-17 | the text and the start and end line and character can all be read back from the dictionary |
| Utils.PyIndex | leanclient/utils.py:43 | `types[token]` is defined exactly for indices from `-len` to `len - 1`, and a non-negative index picks that entry |
| Utils.DecodeGroups | leanclient/utils.py:36-44 | one token per complete group |
| Utils.ProcessSemanticTokens | leanclient/utils.py:27-44 | the decoding loop computes `Decode` |
| Utils.DecodeGroupsErrPersists | leanclient/utils.py:40-43 | once an index is out of range, the loop has raised |
| Utils.DecodeGroupsPrefix | leanclient/utils.py:40-43 | decoding more groups extends the tokens decoded so far |
| Utils.DecodedToken | leanclient/utils.py:40-43 | token k: line is the running sum of delta lines; char is previous char plus delta on the same line, else the delta; length copied; type is `types[index]`; modifiers ignored |
| Utils.DecodeGroupsLine | leanclient/utils.py:41 | a token's line is the running sum of the delta lines |
| Utils.DecodedLinesNonDecreasing | leanclient/utils.py:41 | with non-negative delta lines, token lines never decrease |
| Utils.LineSumMonotone | leanclient/utils.py:41 | non-negative deltas give a non-decreasing running sum |
| Utils.TrailingPartialGroupIgnored | leanclient/utils.py:40 | a trailing partial group is dropped |
| Utils.DecodeGroupsPrefixData | leanclient/utils.py:40 | groups are decoded from their own five integers only |
| Utils.Encode | leanclient/utils.py:27-35 | the relative encoding of the semantic-token format: five integers per token |
| Utils.EncodePrefix | leanclient/utils.py:27-35 | the encoding of the first n tokens is the first 5n integers of the whole encoding |
| Utils.DecodeEncode | leanclient/utils.py:27-44 | decoding the relative encoding of absolute tokens gives them back, named by the legend |
| Utils.DecodeGroupsEncode | leanclient/utils.py:36-44 | the loop over the encoding's groups rebuilds every token |
| Experimental.Before | leanclient/experimental.py:274 | `split(c)[0]`: the longest prefix without `c` |
| Experimental.After | leanclient/experimental.py:273 | `split(c, 1)[1]`: what follows the first `c` |
| Experimental.FoundUnfolds | leanclient/experimental.py:263-283 | a dict's own image, then those in its values; a list's items in order; other leaves give nothing |
| Experimental.ImageCollector.constructor | leanclient/experimental.py:258 | the image list starts empty |
| Experimental.ImageCollector.Search | leanclient/experimental.py:260-283 | `_search` appends exactly `Found(obj, depth)` to the list |
| Experimental.ImageCollector.SearchValues | leanclient/experimental.py:279-280 | the loop over a dict's values appends the images found in each |
| Experimental.ImageCollector.SearchItems | leanclient/experimental.py:282-283 | the loop over a list's items appends the images found in each |
| Experimental.ExtractImages | leanclient/experimental.py:246-286 | the images found from depth 0 |
| Experimental.NestShifts | leanclient/experimental.py:279-283 | a subtree nested n levels down is searched n levels deeper |
| Experimental.DepthLimit | leanclient/experimental.py:261-262 | a subtree reached below depth 20 contributes nothing; at depth 20 it is still searched |
| Experimental.ItemsAppend | leanclient/experimental.py:282-283 | lists are walked in order |
| Experimental.ValuesAppend | leanclient/experimental.py:279-280 | dict values are walked in order |
| Experimental.BothKeys | leanclient/experimental.py:265-266 | a dict with `base64` and `mimeType` gives that pair first, and its `image` is not inspected |
| Experimental.DataUrlRoundTrip | leanclient/experimental.py:270-275 | a data URL gives back the mime type it was built with, cut at `;`, and the data after the first comma |
| Experimental.DataUrlSplits | leanclient/experimental.py:272-275 | the data is what follows the first comma, the mime is taken from the header |
| Experimental.MimeOfBuilt | leanclient/experimental.py:274 | the mime is the text between the first and second colon, up to the first `;` |
| Experimental.PrefixOfJoin | leanclient/experimental.py:274 | the segment before a colon keeps a colon-free prefix |
| Experimental.NoCharBefore | leanclient/experimental.py:274 | a segment without the separator is kept whole |
| Experimental.ImageOfNone | leanclient/experimental.py:270-277 | an image string gives nothing exactly when it is a data URL without a comma, or not a data URL and at most 100 long |
| Experimental.RawImage | leanclient/experimental.py:276-277 | a string that is not a data URL gives `image/png` exactly when it is longer than 100 |
| Experimental.DataHeaderHasColon | leanclient/experimental.py:274 | a data-URL header always holds a colon, so the `image/png` fallback there never applies |
| Experimental.TrimLeft | leanclient/experimental.py:148 | `strip()` on the left removes exactly the leading whitespace |
| Experimental.TrimRight | leanclient/experimental.py:148 | `strip()` on the right removes exactly the trailing whitespace |
| Experimental.PageContent | leanclient/experimental.py:144-159 | raises exactly when no page is started, with the source's message; otherwise the content is a full document |
| Experimental.StripUnchanged | leanclient/experimental.py:148 | text without surrounding whitespace is left by `strip()` |
| Experimental.DoctypeIsDocument | leanclient/experimental.py:148-149 | text starting with `<!DOCTYPE`, whatever follows, is a full document: `strip()` cannot cut into the tag |
| Experimental.WrapIsDocument | leanclient/experimental.py:148-159 | a wrapped fragment is a full document |
| Experimental.WrapIdempotent | leanclient/experimental.py:148-159 | wrapping twice is wrapping once |
| Experimental.WrapEmbeds | leanclient/experimental.py:148-159 | HTML is passed through exactly when it is a full document; otherwise it sits unchanged inside `<body>` of the template |

## Findings

| source | as written | input that shows it | evidently intended | confidence | as-written member | corrected member |
|---|---|---|---|---|---|---|
| leanclient/language_server.py:77-80 with leanclient/utils.py:43 | the synchronous client builds `SemanticTokenProcessor(legend)` with the whole legend object, so `types[token]` subscripts a dictionary whose keys are strings with an integer | any semantic-token data of 5 or more integers, e.g. `[0, 0, 5, 0, 0]`: `get_sorries` raises KeyError(0) | pass `legend["tokenTypes"]`, as the asynchronous client does at leanclient/base_client.py:92 | not executed | LanguageSession.GetSorriesAsWrittenFails | LanguageSession.GetSorriesOfEncoded |
| leanclient/base_client.py:226-231 | `_read_stdout` reads the body with `read(content_length)`, which returns only the bytes already buffered, and a short body becomes `{}` | a frame whose body of 2 or more bytes has 1 byte buffered when it is read, followed by a second frame: the first message is lost and the next `readline` starts inside its body | `readexactly(content_length)`, which waits for the whole body | not executed | Framing.ShortReadDropsFrame | Framing.ReadEncodedFrame |

## Left out

- Subprocesses and pipes are not modelled: starting `lake serve`, the initialize handshake, the stderr loops, `close`, `setup_env`. They are operating-system I/O. The legend of semantic-token types is a parameter: the list of type names, or, for the synchronous client as written, the legend object (see Findings).
- Threads and asyncio are not modelled: locks, tasks, futures. Handlers run as ordinary methods; each `waitForDiagnostics` future is an input outcome; the notifications handled while a method sleeps are an input sequence.
- Clocks and sleeps are not modelled. The 5-second close deadline and the timeouts of `_wait_for_diagnostics` and `wait_for_line` become the point where the input polls run out.
- `orjson` encoding and decoding are function parameters (`encode`, `decode`).
- Uri.LocalToUri: `pathlib.Path(project_path, local_path).as_uri()` normalises the joined path (a `./` segment and repeated `/` go, a trailing `/` is dropped, an absolute local path replaces the project path); the model concatenates, so local paths are taken in normal form (relative, no `.` or empty segments, no trailing `/`). `Uri.UriToLocalOfLocalToUri`, `Uri.LocalToUriOfUriToLocal` and `Uri.LocalToUriInjective` hold of the source only for such paths: `"./A.lean"` and `"A.lean"` share one URI there. The percent-encoding of `as_uri` and the `unquote` after it cancel out.
- The `urllib.parse.unquote` of the paths given to `open_files` (leanclient/base_client.py:413) and to the file manager is the identity: paths are taken without percent escapes.
- File reads are a total function parameter, so the OSError of a missing file is not modelled. `normalize_newlines` is folded into that parameter, and `apply_changes_to_text` is a parameter as well: neither is defined in `leanclient/utils.py`.
- The base class of `LSPFileManager` is not part of this model. Its sends are appends to an outbox log, and its `_uri_to_local` is `Uri.UriToLocal`.
- `_send_request` of the file manager and its `ast.literal_eval` parsing of error text are left out: it is transport plus exception-text scraping, and the retry loop takes the answers as input.
- `get_diagnostics`/`wait_for_file` of the asynchronous client and the thin per-request wrappers (`send_request`, `send_request_timeout`, the `request_*` methods) are left out: they add no state logic.
- The language server's `_read_stdout` reads decoded messages from an input list. Its byte framing is the same as `Framing`, which models the asynchronous client's.
- `WidgetRenderer`'s browser, viewport, screenshot and availability checks are left out; only the started/not-started condition of `render` is kept.
- `MAX_SYNCED_FILES` comes from a configuration module that is not part of this model; it is the constructor parameter `maxSynced`.
- Debug `print` output is left out.
- LanguageSession.Request: where the wrapper would keep reading empty messages for ever once the output ends, the model stops with `Stalled`. The same holds for `Drain`, `WaitOne`, `WaitEach`, `OpenAll` and a blocking `Close`.
- BaseState.FirstFresh: the random ids are a finite input sequence; when every draw is already pending the request is not sent, where the source would keep drawing.
- BaseClient.BaseLeanLSPClient.SendRequestRetry: the re-open before each later attempt is not repeated. `BaseState.ReopenChangesNothing` shows it changes nothing. The per-attempt request frames are not written to the output bytes.
- BaseClient.BaseLeanLSPClient.SendRequestRetry: answers are compared as `Json` values, whose objects are ordered member lists, where Python's `results == prev_results` compares dicts whatever the order of their members and counts `true` equal to `1`. Answers Python finds equal only that way count as different here: with `max_retries=0`, `{"a":1,"b":2}` then `{"b":2,"a":1}` is a repeat for the source and no stop for the model.
- FileManager.LSPFileManager.SendRequestRetry: the re-open before each later attempt is not repeated; `FileCache.ReopenChangesNothing` shows the re-open is a no-op.
- FileManager.LSPFileManager.SendRequestRetry: answers are compared as ordered `Json` values, as for the asynchronous client above; answers Python finds equal with members in another order, or `true` against `1`, count as different here.
- Retry.RetryUntilStable: running out of answers returns `None`, where the source would keep asking.
- Json.Get: objects are taken to have distinct keys; with a repeated key the model finds the first where Python keeps the last.
- LanguageSession.GroupDiagnostics: a diagnostic without `severity` raises KeyError in the source; the model returns `KeyError("severity")` and the cache is not updated.
- BaseState.ProgressEncoding: a last progress entry without `kind` raises KeyError inside the pump task, which ends it; the model stops the pump (`pumping := false`) and no later message is handled.
- Framing.ParseLength: Python's `int()` also accepts a leading `+` or `-` and single underscores between digits; the model reads only plain decimal digits, which is what servers write. A header such as `Content-Length: +12` or `Content-Length: 1_2` is `Malformed` here and stops the reader.
- Framing.ReadFrame: inherits the `ParseLength` gap above; a length field with a sign or underscores ends the read as `Malformed` instead of reading that many bytes.
- BaseState.ProgressEncoding: on a fatal last entry the source stores the `$/lean/fileProgress` notification itself, with an added `error: {"message": ...}` member, as the file's only diagnostic; the model stores the fixed diagnostic `FATAL_DIAGNOSTIC` in its place, so the notification's other members are not kept.
- Framing.ReadFrame: chunk boundaries of the server's output are not modelled in the pump: `BaseState.PumpFrames`, `BaseState.Pump` and `BaseClient.BaseLeanLSPClient.RunStdout` read a body whole whenever the stream holds it. The early return of `read(n)` mid-stream is modelled for one frame only, by `Framing.ReadFrameChunked` (see Findings).
- BaseState.PumpFrames: holds when each body is read whole; with the source's `read(n)` a body split across chunks is dropped and the read goes on inside it (`Framing.ShortReadDropsFrame`).
- BaseClient.BaseLeanLSPClient.RunStdout: computes `Pump`, which reads each body whole; the source's `read(n)` may return part of a body mid-stream (`Framing.ShortReadDropsFrame`).
- LanguageSession.Sync: a URI listed twice among the new ones is opened twice, as in the source.
