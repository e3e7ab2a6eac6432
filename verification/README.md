# iSpindelTool in Dafny

iSpindelTool is a small monitor for iSpindel hydrometers. A TCP server
accepts connections. Each connection handler reads one line, decodes it as
JSON, puts the decoded report on a shared queue and answers ACK (0x06). A
line that is not JSON gets NAK (0x15) instead. A second thread, the queue
handler, drains the queue into a Tk Treeview table. The table lists one row
per device, identified as `name.ID`. Under each device it lists one row per
reported parameter plus a `time` row that holds the arrival time.

This project models both halves in Dafny:

- the reply decision of `ISpindelTCPHandler.handle`;
- the device-table update and the drain loop of `ISpindelQueueHandler.run`,
  together with its `stop()`.

It proves properties of both. The modules follow the program's structure:

- `Wrappers`: `Option` and `Result`.
- `OrderedMaps`: insertion-ordered maps with string keys. A Python `dict`
  and one level of the Treeview both behave this way.
- `JsonValues`: decoded JSON values. It also defines the `dict` that
  `json.loads` makes of an object. A repeated name keeps its first position
  and takes its last value.
- `ReportQueue`: the `SimpleQueue` of timestamped reports.
- `Handler`: `readline`, `bytes.strip` and the reply of `handle()` on raw
  bytes. It also states what one connection does to the queue and to the
  peer.
- `Aggregator`: how one report becomes a device-table change. This covers
  the identity `name.ID`, a first sighting and a later sighting.
- `QueueHandler`: the worker thread. It covers one pass of the loop, the
  stop flag, any interleaving of passes, arrivals and `stop()`, and the
  fold these amount to.
- `Scenarios`: the repository's test client and a two-report sequence for
  one device, followed through the model.

The model follows the code as written. Three of its behaviours are worth
noting:

- **Any JSON value is acknowledged.** `handle()` ACKs every line that
  `json.loads` accepts, including `42`, `"x"` and `[1]`. It never checks
  that the value is an object.
- **A bad report ends the worker.** In `run()` no error while merging a
  report is caught. The cases are:
  - a report that is not an object;
  - a report without `name` or `ID`;
  - a later report with a parameter the device has no row for;
  - a first report that itself carries a `time` key.

  Each ends the queue handler thread for good. The model records this as
  `Failed(error, table)` and moves the worker to `Crashed(error)`. The table
  keeps every Treeview change made before the failing call.
- **Rows are never added for a known device.** For a device already shown,
  `run()` only rewrites existing rows (`treeview.item`). A parameter first
  reported later is not added to the device's rows; the rewrite raises on
  it.

## Model

| member | source | states |
|---|---|---|
| OrderedMaps.Get | iSpindelTool.py:126 | a key is found exactly when it is listed, with its stored value |
| OrderedMaps.Put | iSpindelTool.py:128-130 | afterwards the key maps to the new value and every other key keeps its value; a present key keeps its position, a new key goes last |
| JsonValues.AsDict | iSpindelTool.py:73 | the dict of an object has a key for every member name and for nothing else |
| JsonValues.AsDictLastWins | iSpindelTool.py:73 | a repeated member name takes the value of its last occurrence |
| JsonValues.AsDictKeyOrder | iSpindelTool.py:129 | iterating the dict visits names in the order of their first occurrence in the text |
| JsonValues.AsDictDistinctKeys | iSpindelTool.py:129 | with distinct member names, the dict lists exactly those names in textual order |
| JsonValues.AsDictOfDistinct | iSpindelTool.py:73 | with distinct member names, every name maps to its own value |
| ReportQueue.Push | iSpindelTool.py:75 | `put` adds the item at the tail and moves nothing already queued |
| ReportQueue.Pop | iSpindelTool.py:118 | `get` hands out the head, and the rest stays queued in order |
| ReportQueue.PushAllAppends | iSpindelTool.py:48 | a run of puts leaves the old items followed by the new ones in put order |
| ReportQueue.PushKeepsHead | iSpindelTool.py:48 | a put never overtakes: the next `get` still returns the old head |
| Handler.ReadLine | iSpindelTool.py:70 | the line is a prefix of the stream that ends at the first line feed, or is the whole stream if it has none |
| Handler.Strip | iSpindelTool.py:70 | the result neither starts nor ends with whitespace, and is empty exactly when the line is all whitespace |
| Handler.StripPadding | iSpindelTool.py:70 | stripping any whitespace padding around content that is not itself padded gives back exactly that content |
| Handler.ReadLineFirstLine | iSpindelTool.py:70 | whatever follows the first complete line is never read |
| Handler.Respond | iSpindelTool.py:71-79 | text that is not UTF-8 gets no reply; text `json.loads` accepts, whatever JSON value it is, is queued with the arrival time before the ACK; any other text gets a NAK and nothing is queued |
| Handler.Serve | iSpindelTool.py:70-79 | one connection served by `handle()` (`Handler.Handle`): it writes at most one byte; a UTF-8 line `json.loads` accepts gets ACK, and ACK is written exactly when the queue grew by one, with the decoded report and the arrival time at the tail; a UTF-8 line it rejects gets NAK and leaves the queue as it was; a line that is not UTF-8 gets no reply and queues nothing |
| Handler.ServeReadsOneLine | iSpindelTool.py:64-79 | one request per connection: bytes after the first line change neither the reply nor the queue |
| Aggregator.RowId | iSpindelTool.py:125 | an iid is the first part, a dot, then the second part |
| Aggregator.Identity | iSpindelTool.py:125 | a report has an identity exactly when it is an object with `name` and `ID`; a non-object, a missing `name` (checked first) and a missing `ID` raise distinct errors; string fields are joined verbatim |
| Aggregator.ReportRows | iSpindelTool.py:129-130 | one row per report key, in report order, showing the reported value |
| Aggregator.InsertDevice | iSpindelTool.py:126-131 | a new device goes after every existing device with its report rows in report order and then `time`; a report with its own `time` key raises a duplicate-iid error after the device and its report rows are in place, its `time` row showing the reported value |
| Aggregator.WriteRows | iSpindelTool.py:134-135 | the rewrite stops at the first key with no row, and every key before it had a row |
| Aggregator.WriteRowsValues | iSpindelTool.py:134-135 | rewritten rows show the reported values and every other row keeps its value |
| Aggregator.RewriteRows | iSpindelTool.py:134-136 | rows are never added or moved; the rewrite completes exactly when every report key and `time` already have a row |
| Aggregator.RewriteRowsValues | iSpindelTool.py:134-136 | after a completed rewrite, report keys show their new values, `time` shows the new arrival, and unmentioned parameters keep theirs |
| Aggregator.RewriteRowsUnknownKey | iSpindelTool.py:134-135 | a rewrite that meets a key with no row names the first such key, keeps the rows it already rewrote, and leaves all others alone |
| Aggregator.UpdateDevice | iSpindelTool.py:132-136 | a later sighting changes only that device's rows and raises with the missing row's iid |
| Aggregator.Sighting | iSpindelTool.py:126-136 | after a sighting the device is present; a new device goes last, and no other device changes |
| Aggregator.MergeItem | iSpindelTool.py:125-136 | devices are only added, at the end; known devices keep their rows; a report without identity leaves the table as it was |
| Aggregator.MergeKeepsTimed | iSpindelTool.py:126-136 | if every device has a `time` row before a merge, it does after, whether the merge completes or raises |
| Aggregator.KnownDeviceMergeCompletes | iSpindelTool.py:132-136 | a later sighting completes exactly when every key of the report already has a row |
| QueueHandler.Start | iSpindelTool.py:106-113 | the loop starts with an empty table, the stop flag clear and the given queue |
| QueueHandler.Stop | iSpindelTool.py:138-140 | `stop()` sets the flag and changes nothing else |
| QueueHandler.Arrive | iSpindelTool.py:75 | a producer's put appends to the queue and changes nothing else |
| QueueHandler.Iterate | iSpindelTool.py:114-136 | a pass takes at most the head report; with the flag set the loop is left with nothing taken; on an empty queue nothing changes; otherwise the table is the head's merge, and the loop goes on exactly when that merge completed |
| QueueHandler.MergeAll | iSpindelTool.py:125-136 | merging reports in order only adds devices and never adds or moves a known device's rows |
| QueueHandler.DrainIsFold | iSpindelTool.py:114-136 | draining with no new arrivals gives the in-order fold of the queued reports, ending on an empty queue or crashed with the first error |
| QueueHandler.IterationsAfterCrash | iSpindelTool.py:111-136 | a thread that has left its loop never changes again |
| QueueHandler.StopFreezes | iSpindelTool.py:114 | once the flag is set the table never changes and nothing leaves the queue; one pass leaves the loop |
| QueueHandler.StoppedStaysStopped | iSpindelTool.py:114 | a worker out of its loop keeps its table and status while arrivals pile up |
| QueueHandler.RunIsFold | iSpindelTool.py:111-140 | under any interleaving, the worker has consumed a prefix of everything ever queued, its table is the in-order fold of that prefix, and the rest is still queued |
| QueueHandler.DevicesOnlyGrow | iSpindelTool.py:125-136 | under any interleaving, every shown device stays in its place with the same rows, and new devices only come after it |
| Scenarios.FirstReportFields | test/iSpindelToolTestClient.py:11-12 | the test client's report is the dict `ID`, `name`, `angle` in that order |
| Scenarios.FirstReportIdentity | iSpindelTool.py:125 | the test client's report identifies `iSpindel000.ABCDEF` |
| Scenarios.FirstReportInserted | iSpindelTool.py:126-131 | the first report of the device adds it last with rows `ID`, `name`, `angle`, `time` |
| Scenarios.FirstSighting | iSpindelTool.py:111-131 | a fresh worker given the test client's report shows that device only and keeps running |
| Scenarios.NewParameterRaises | iSpindelTool.py:132-136 | a later report with a new `temperature` key updates `angle`, then raises on `temperature`; no row is added and `time` is not updated |
| Scenarios.NewParameterCrashesWorker | iSpindelTool.py:114-136 | that second report ends the worker, with the first arrival time still shown |
| Scenarios.TestClientExchange | test/iSpindelToolTestClient.py:20-34 | the test client gets exactly one ACK, and its second line changes nothing |
| Scenarios.NotJsonIsRefused | iSpindelTool.py:77-79 | a UTF-8 line that is not JSON gets NAK and queues nothing |

## Left out

- Sockets, `socketserver.TCPServer`, `SocketServerThread` and the threads themselves are left out. One connection is a byte stream in and bytes out (`Handler.Serve`). Thread interleaving is a sequence of events (`QueueHandler.Run`).
- UTF-8 decoding (`bytes.decode`) is a parameter `utf8`. `None` stands for the `UnicodeDecodeError` raised at line 71, outside the `try`, so that connection gets no reply.
- JSON parsing (`json.loads`) is a parameter `decode`. Its grammar, number conversion and `RecursionError` on deep nesting are not modelled. Numbers keep their literal text.
- Python `str()` of a non-string `name` or `ID` is a parameter `show`. The identity only depends on it for non-string values.
- The arrival time `datetime.now().isoformat(' ', 'seconds')` is an opaque string parameter.
- `sleep(1)` on an empty queue is modelled as a pass that changes nothing. Timing is not modelled.
- Logging is left out. Only the evaluation at line 71 matters, and it is kept as the UTF-8 failure.
- The `queue.Empty` branch of lines 119-121 is not modelled. The worker is the only consumer, so a queue seen non-empty is still non-empty at its `get`.
- Tk display is left out:
  - the device label `name [ID]`;
  - the row text;
  - `values=(value)`, which is not a one-element tuple;
  - fonts and layout;
  - `ISpindelGUI` and the main program.

  Only the iids, the order of rows and the JSON value each row is given are modelled; the next two lines say where Tk treats that value differently.
- InsertDevice: the bare value of each report row is passed to Tk's list-valued `-values` option, and Tk's reading of it is not modelled. A JSON `null` leaves the option without a value, and a string that is not a well-formed Tcl list (such as `{`) cannot be parsed; either makes `insert` at line 130 raise, ending the worker with the earlier rows in place. The model inserts the row and shows `Reported(v)` for every value.
- WriteRows: for the same reason, a JSON `null` turns `item` at line 135 into a query that keeps the row's old value, and a string that is not a well-formed Tcl list makes it raise. The model rewrites the row to `Reported(v)` for every value.
- The Treeview's iid namespace is modelled per device, not as one flat namespace. Consider a device iid that coincides with a parameter-row iid of another device: the device `a.b.c` (name `a.b`, ID `c`) against the row `c` of device `a.b` (name `a`, ID `b`). `treeview.exists` finds that row, or `insert` raises a duplicate iid. The model does not treat such identities as colliding.

