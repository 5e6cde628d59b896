# Verified model of asyncowfs

asyncowfs is an async client for `owserver`, the network daemon that gives access to a tree of 1-wire buses, together
with a mock server that answers from a tree of dictionaries. This project models both, and the registry of devices
that the client keeps, and proves what they promise: that a request is answered by its own reply, that the bytes
exchanged amount to plain operations on a tree, and that the registry, its event stream and its poll tasks follow
what the buses list.

`dafny verify dfyconfig.toml` checks everything.

## Structure

| file | what it models |
|---|---|
| `Text.dfy` | Python's slices, join and split, decimal integers |
| `Wire.dfy` | the 24-byte framing of `protocol.py`: encoder, buffered reader, streams cut into chunks |
| `Messages.dfy` | request messages, their payloads, how a reply completes them, the result cell of `util.py` |
| `MockServer.dfy` | the mock server's command interpreter over its tree, and its fault schedules |
| `EndToEnd.dfy` | a request through all layers, compared with the plain operation on the tree |
| `Pipeline.dfy` | the request engine of `server.py` as a step system over whole frames, with one server, lost connections and re-sending |
| `Runs.dfy` | its runs: chat returns its own answer, and nothing raises |
| `Conservation.dfy` | where the messages of the engine are, across reconnects |
| `Transport.dfy` | the same over byte streams in arbitrary pieces, refining the step system |
| `Engine.dfy` | the `Server` object's queues as mutable state, method by method equal to the step system's client; reconnect delays |
| `Registry.dfy` | the registry as a value: ids, devices, buses, event log, scans; the invariant and its preservation |
| `Teardown.dfy` | recursive teardown, `aclose`, and histories of operations |
| `ScanTree.dfy` | what one scan of a fresh bus, and a second one, do |
| `DeviceIds.dfy` | what a device id is, said by the text itself, and that such devices are found |
| `Debounce.dfy` | what a sequence of scans does |
| `ScanServer.dfy` | what a scan of a whole server, and a second one, do |
| `OneId.dfy` | a scan taken apart: what it does to one id is what a small machine over that id does |
| `Relocation.dfy` | what a scan of a tree without repetitions does after devices have come, gone and moved |
| `Repeats.dfy` | exactly which scans raise an exception, when each id is on one bus |
| `Several.dfy` | exactly which scans raise an exception, when ids are on several buses |
| `LeftBehind.dfy` | dictionary entries that are left behind: they stay; runs that show what they lead to, and other exceptions |
| `Dictionaries.dfy` | what the event stream says about the dictionaries |
| `Interleaving.dfy` | the registry between the awaits of scans and teardowns, with other tasks running: which runs keep the journal faithful |
| `Spelling.dfy` | listings with ids in lower case: exactly which scans keep the registry valid |
| `Locating.dfy` | add_device when locating raises for a polling interval |
| `Service.dfy` | service, buses and devices as shared mutable objects, method by method equal to the registry's value |
| `Polling.dfy` | poll tasks of devices and of buses |
| `Accessors.dfy` | value codecs, array elements, generated accessors |
| `Alarm.dfy` | temperature alarms |

Code that changes objects step by step is modelled by classes with the same fields and loops (`Wire.MessageProtocol`,
`Messages.Message`, `MockServer.Mock`, `Engine.Server`, `Service.Registrar`, `Polling.Device`, `Polling.BusPolls`,
`Alarm.Thermometer`). Each method is proved equal to a function on values, and the theorems are about those
functions. Sockets, clocks and task switching are nondeterministic steps: a step system says which interleavings
there are, and the theorems hold for all of them.

## Main results

- **A request gets its own answer.** `Runs.ChatReturnsItsOwnAnswer` and, over bytes, `Transport.ChatOverBytes`:
  requests carry no id, yet in every interleaving of sends, idle NOPs, busy frames, cancellations, disconnects,
  reconnects and re-sends, what `chat` finds is what the plain operation yields for that very request.
- **Nothing is lost or duplicated.** `Conservation.ExactlyOnePlace`, with the exact condition for the abort path
  (`RunConservesExactlyWhen`).
- **Bytes amount to plain operations.** `EndToEnd.ExchangeIsPlain`, `StoredExactlyWhen`, `ReadBack`,
  `OthersUnchanged`, `MissingIsNoEntry`, on top of `Wire.StreamRoundTrip`.
- **The event stream is a faithful journal.** `Teardown.JournalFaithful`, `CloseAfterHistory`; with tasks interleaved
  inside scans and teardowns, exactly in the runs that `Interleaving.JournalBetween` describes; it also tells every
  dictionary, `Dictionaries.DictionariesTold`.
- **A scan finds the tree.** `ScanTree.FreshScanFindsTheTree`, `SecondScanChangesNothing`, and
  `ScanServer.ServerScanFindsTheTrees` for a whole server; over many scans `Debounce.DebounceWindow`.
- **A scan from anywhere.** A scan of the registry is a scan of each id on its own (`OneId.ScanIsPerId`). So, from any
  valid registry: where each listed device is afterwards (`Relocation.RescanFindsTheTree`), and exactly which scans
  raise an exception (`Repeats.ScanSucceedsExactlyWhen`, `Several.ScanSucceedsInOrder`).
- **The objects do what the value does.** `Service.Registrar.ScanOne` and `DelocateBus`, through shared device and
  bus objects.
- **Poll tasks follow the intervals.** `Polling.PollTasksFollow` and `TaskOfRun`: each reads at the value set last;
  `Polling.BusPolls.UpdatePoll`.
- **The formats are what they are.** The encoders and decoders are not only inverse to each other, their text is given
  byte by byte: `Wire.WrittenWords`, `Wire.ReadWords`, `Messages.RequestWords`, `Messages.ProcessedMeaning`,
  `Text.DecimalMeaning`, `DeviceIds.IsIdMeaning` and `PrintedIsFound`, `Accessors.OneEntryClass`. The exchange is the
  plain operation also with a server that answers with the data's length (`EndToEnd.CountingIsPlain`).

## Where the code does not do what one would expect

- A connection that is lost while its tasks are being started overwrites the new deque (asyncowfs/server.py:121-123).
  Messages the writer has already taken are then in no queue, and their callers wait forever:
  `Conservation.AbortLosesMessage`, `LostForever`. The path is harmless if and only if the new deque is empty:
  `Conservation.AbortConservesIffEmpty`, `RunConservesExactlyWhen`.
- The re-send loop (asyncowfs/server.py:113-119) catches every exception, cancellations too, and puts the message back.
  It ends if and only if enough sends succeed (`Engine.RoundsEndIff`); failing ones are retried without end
  (`Runs.FailingRounds`), and until one gets through a lost connection is not followed by another (`Runs.NoReconnect`).
  The step system lets sends succeed and fail in every phase after the start, a connection that is being torn down
  included, because that depends on the version of anyio.
- A negative payload length other than the busy frame's makes the reader cut its buffer from the end, so that the
  result depends on how the bytes arrived: `Wire.NegativeLengthDependsOnChunking`.
- Writing an empty value makes the server split the path off as the value (`data[-0:]`), and an assertion ends the
  connection: the condition on the value in `EndToEnd.StoredExactlyWhen`. Overwriting a directory succeeds.
- `get_device` looks an id up as given and stores it in upper case (asyncowfs/service.py:139-145). A lower-case id of
  a known device makes a second object and a second DeviceAdded: `Registry.GetDeviceJournalledIff`, with an instance
  in `Spelling.LowerCaseBreaks` and the condition for whole scans in `Spelling.ScanValidExactlyWhen`.
- A device that moves stays in the dictionary of its old bus (asyncowfs/bus.py:166-168), and the counter of missed
  scans is shared between buses. Only the converse, that a located device is listed by its bus, is an invariant.
  `Debounce.DebounceWindow` therefore asks that the ids behind a bus's couplers are not the bus's own.
- The entry a device leaves behind stays until its bus lists the device again or is torn down
  (`LeftBehind.EntryStays`), and each scan of each such bus counts the device once more. A device that comes back to a
  bus where it has been before can so be lost in the very scan that lists it: `LeftBehind.ScanLosesWhatItLists` is such
  a run, and `Relocation.RescanFindsTheTree` says exactly when it happens.
- A scan locates the device that it got from `get_device` without looking whether it is still registered
  (asyncowfs/bus.py:99-104, asyncowfs/device.py:416-422). While it awaits the sending of DeviceAdded
  (asyncowfs/service.py:142-144), another task may delete the new device, which only a location would prevent
  (asyncowfs/service.py:198-202). DeviceLocated then follows DeviceDeleted: `Interleaving.DeletedBeforeLocated`,
  `DeletedUnderScan`. The same happens with a bus that is torn down meanwhile. `Interleaving.JournalBetween` is the
  exact condition over whole runs, `DoKeepsIff` that for each action.
- `delete_device` removes whatever is registered under the id of the object it is given. An object that was deleted
  before, and whose id has since been made again and located, removes the located device and announces DeviceDeleted:
  `Registry.DeleteDeviceValid`, `DeleteDeviceJournalledIff` say when it does no harm.
- `hasattr` is false for the direct attribute of an array, which raises an AttributeError when it is looked up in the
  class (asyncowfs/device.py:174-175, 300-303). Such an attribute is overwritten by the next entry of its name, while every
  other one stays: `Accessors.DirectFollow`.
- A listing that repeats an id makes the scan fail with a KeyError (`LeftBehind.RepeatRaises`), but not where the bus
  has a left-behind entry of that id (`RepeatAccepted`): the first occurrence then brings the device here and leaves
  the id among those not seen. A device of a family whose structure the server does not publish, or publishes broken,
  ends the scan too, registered but not located (`UnpublishedRaises`). `Repeats.ScanSucceedsExactlyWhen` and
  `Several.ScanSucceedsInOrder` are the exact conditions.
- A device with an interval for which there is no getter is located and announced, and then add_device raises without
  listing it (asyncowfs/bus.py:166-168, asyncowfs/device.py:416-424): `Locating.AddPolledValidIff`. The bus cannot be
  scanned any more while it lists that device: `Locating.ScanRaisesAfterwards`.
- `old_paths` in `_scan_base` is never filled (asyncowfs/server.py:267), so no bus is ever deregistered by a scan,
  and the buses behind a coupler that has gone stay.
- A new interval for something that the bus polls for all its devices leaves the device's own task as it was, with the
  old interval (asyncowfs/device.py:516-520), until the device is located anew: `Polling.SetIntervalTimelyIff`.
- A negative polling interval starts a task that has no interval, and a positive one without a getter leaves an
  interval without a task, whose device can then not be located any more: `Polling.SetIntervalFollowsIff`,
  `Polling.LocateFollows`.

## Model

| member | source | states |
|---|---|---|
| Text.SplitJoin | asyncowfs/device.py:111-139 | splitting a comma-joined list gives the list back, for every non-empty list of comma-free parts |
| Text.JoinSplit | asyncowfs/protocol.py:327-327 | joining undoes splitting for every byte string, and no part contains the separator |
| Text.ParseDecimal | asyncowfs/device.py:57-76 | `int(str(n))` is `n` for every integer of either sign; its text has no comma, slash or NUL |
| Text.SlicesMeaning | asyncowfs/protocol.py:108-109 | `s[:i]` and `s[i:]` make up s; from 0 up the bound counts from the front, below 0 from the end, and beyond either end it is that end |
| Text.NonEmptyMeaning | asyncowfs/mock/server.py:98-101 | the loop that skips empty parts keeps all others in order |
| Text.DecimalMeaning | asyncowfs/device.py:76-76 | decimal text: digits 0 to 9 whose place values add up to the number, without leading zeros, behind a dash for a negative one |
| Text.ParseIntMeaning | asyncowfs/device.py:59-61 | `int(text)` accepts exactly one or more digits behind at most one dash, and yields their place value |
| Wire.UnpackPack | asyncowfs/protocol.py:120-120 | big-endian two's-complement unpacking undoes packing on every int32 |
| Wire.PackUnpack | asyncowfs/protocol.py:163-163 | packing undoes unpacking on every four bytes, so no two byte strings mean the same number |
| Wire.PackedBytes | asyncowfs/protocol.py:120-120 | the most significant byte comes first, negative numbers are in two's complement |
| Wire.UnpackPackHeader | asyncowfs/protocol.py:120-178 | `!6i` header: unpack undoes pack for all six int32 fields |
| Wire.WrittenWords | asyncowfs/protocol.py:150-179 | the bytes of a write: version 0, payload length or -1, type, flags, length and offset in this order, four bytes each, then the payload |
| Wire.ReadWords | asyncowfs/protocol.py:115-148 | which of these six integers mean a wrong version, a busy server (length -1, data length 0, and an offset that is 0 or has bit 15 set), a payload over 9999 bytes, one that is cut off, or a frame, and what either end gets of it |
| Wire.TakePending | asyncowfs/protocol.py:101-110 | `_read_buf(n)`: the bytes returned and the bytes still to come are together the bytes there were; None exactly when there are fewer than n |
| Wire.ChunkingIrrelevant | asyncowfs/protocol.py:115-148 | what one `__anext__` yields, and what it leaves, depends on the byte stream only and not on how it was cut into chunks, unless the length field is negative |
| Wire.NegativeLengthDependsOnChunking | asyncowfs/protocol.py:125-131 | the excluded case is real, at either end: with any other negative length, the same bytes in other chunks leave other bytes for the next read, and give the server other data |
| Wire.ReadConserves | asyncowfs/protocol.py:101-148 | reading a frame, at either end, consumes a header and a payload from the front, delivers that payload, and loses, duplicates or reorders no byte, negative lengths included |
| Wire.ParseEncoded | asyncowfs/protocol.py:115-179 | reading a written frame yields that frame's content and leaves exactly the bytes behind it |
| Wire.ParseCutOff | asyncowfs/protocol.py:101-148 | a proper prefix of a frame is never taken for a frame |
| Wire.PrefixParsesFirst | asyncowfs/protocol.py:101-148 | if a received prefix of a stream of frames yields anything, it is the first frame, and the rest carries the others |
| Wire.NextEncoded | asyncowfs/protocol.py:115-179 | the same on a buffer and any chunks |
| Wire.Progress | asyncowfs/protocol.py:115-148 | every frame read, busy frames included, shortens the stream |
| Wire.StreamRoundTrip | asyncowfs/protocol.py:101-179 | for every sequence of frames, busy ones included, and every chunking of its bytes, repeated `__anext__` yields exactly that sequence and then stops |
| Wire.MessageProtocol.ReadBuf | asyncowfs/protocol.py:101-110 | the loop over received chunks does what Take says to buffer and stream |
| Wire.MessageProtocol.Next | asyncowfs/protocol.py:115-148 | the method's result and new buffer are those of NextFrame, in every case |
| Wire.MessageProtocol.Write | asyncowfs/protocol.py:150-179 | sends the frame's bytes and nothing else; nothing if a field does not fit |
| Messages.ComponentsOfPath | asyncowfs/protocol.py:257-260 | taking apart what `_path` put together gives the components, commas in them and the empty path included |
| Messages.RequestWords | asyncowfs/protocol.py:206-321 | each request as bytes: command 1, 2, 3 or 7, flags 0x2000126, the length it announces, and the payload |
| Messages.PathText | asyncowfs/protocol.py:257-260 | a path starts with a slash and ends with a NUL, and between them are the components, slashes between |
| Messages.ValueText | asyncowfs/protocol.py:298-302 | bytes go out as they are, a flag as the digit 1 or 0, a number as text that `int` reads as that number |
| Messages.StripNulsMeaning | asyncowfs/mock/server.py:95-95 | all NULs at the end go, and nothing else |
| Messages.ProcessedMeaning | asyncowfs/protocol.py:220-234 | a negative return value is that error; otherwise an outcome exists if and only if the value is 0 or the data's length, and for a listing the data can be read; it is the data, or the listing's names; the data's length gives the same outcome as 0 |
| Messages.AfterPrefix | asyncowfs/protocol.py:330-332 | the part after the last slash of a prefixed name is the name |
| Messages.ListingMeaning | asyncowfs/protocol.py:323-334 | a listing is read if and only if it has no NUL; empty data is no entry, other data one name for each part between commas, namely what follows the part's last slash |
| Messages.ProcessListing | asyncowfs/protocol.py:323-334 | the loop over entries computes Listing; None for an entry with a NUL |
| Messages.ValueEvent.Put | asyncowfs/util.py:23-37 | the value is there before anyone is woken; the last write wins |
| Messages.Message.Cancel | asyncowfs/protocol.py:202-204 | sets the flag and completes the event with Cancelled |
| Messages.Message.ProcessReply | asyncowfs/protocol.py:220-234 | completes the event with the reply's meaning; on an AssertionError nothing is stored |
| MockServer.LookupUpdated | asyncowfs/mock/server.py:137-151 | after a write, a walk to the same path finds the written value |
| MockServer.LookupElsewhere | asyncowfs/mock/server.py:137-151 | a write changes no walk to a path that is not at or below it, up to what a read or listing can see |
| MockServer.Sorted | asyncowfs/mock/server.py:108-108 | every key once, in strictly ascending byte order |
| MockServer.LessMeaning | asyncowfs/mock/server.py:108-108 | the order: at the first difference the smaller byte, or the end, comes first |
| MockServer.ListedPath | asyncowfs/mock/server.py:111-115 | each listed entry is the whole path of what it stands for |
| MockServer.OccursMeaning | asyncowfs/mock/server.py:149-150 | the test that a write through a value ends with: whether the name occurs anywhere in the text |
| MockServer.ServedMeaning | asyncowfs/mock/server.py:92-162 | commands other than 1, 2, 3 and 7 end the connection; every answer has the command's flags, offset 0, a length that its data covers, and type 0, -2 or -21; only a write changes the tree |
| MockServer.Check | asyncowfs/mock/server.py:21-27 | without a schedule nothing is due; otherwise advances the cursor in the list's first place and returns the flag there; the flags stay |
| MockServer.CursorClosedForm | asyncowfs/mock/server.py:21-27 | the k-th check from cursor v reads element 1 + (v + k - 1) mod (n - 1) |
| MockServer.WindowVisitsEachFlagOnce | asyncowfs/mock/server.py:21-27 | every n - 1 consecutive checks, starting anywhere, read every flag exactly once |
| MockServer.Mock.Walk | asyncowfs/mock/server.py:95-106 | the loop over split parts ends where Lookup says, with the components seen |
| MockServer.ParentWalkMeaning | asyncowfs/mock/server.py:137-147 | the write command's walk, one name behind, ends at the parent of the path |
| MockServer.Mock.WalkToParent | asyncowfs/mock/server.py:137-148 | the loop finds the parent and the last name, or no name at all |
| MockServer.Mock.Store | asyncowfs/mock/server.py:148-152 | overwrites an existing entry in place, or answers no-entry, or dies on a missing name |
| MockServer.Mock.Handle | asyncowfs/mock/server.py:92-162 | one command: the reply and the new tree of Serve, or an exception that leaves the tree as it was |
| EndToEnd.RequestArrives | asyncowfs/protocol.py:206-218 | the bytes of a fitting request reach the server's loop as that command, flags, data and length |
| EndToEnd.OversizeRefused | asyncowfs/protocol.py:127-128 | a payload over MAX_LENGTH is refused by either end |
| EndToEnd.ReplyArrives | asyncowfs/protocol.py:220-234 | what the client makes of a reply's bytes is what Understood says of the reply |
| EndToEnd.ListingRoundTrip | asyncowfs/protocol.py:323-334 | `DirMsg._process` of the server's prefixed, comma-joined listing is its names, the empty listing included |
| EndToEnd.WriteSplits | asyncowfs/mock/server.py:134-136 | the server splits path and value where the client joined them; with an empty value it splits off nothing |
| EndToEnd.ExchangeServed | asyncowfs/mock/server.py:84-162 | a fitting request is interpreted as exactly the command that was put in |
| EndToEnd.CompletedGet | asyncowfs/mock/server.py:117-132 | the read command, sent back and decoded, is lookup on the tree |
| EndToEnd.CompletedDir | asyncowfs/mock/server.py:94-116 | the listing command, sent back and decoded, is the sorted keys |
| EndToEnd.CompletedSet | asyncowfs/mock/server.py:133-152 | the write command, sent back and decoded, is the plain overwrite |
| EndToEnd.ExchangeIsPlain | asyncowfs/mock/server.py:92-162 | refinement: every request through all byte-level layers equals the plain operation on the tree, for every tree, size and path, commas in paths and errors included |
| EndToEnd.CountingReply | asyncowfs/protocol.py:230-234 | for every request and reply the client makes the same of a reply whose type is the length of its data as of one whose type is 0 |
| EndToEnd.CountingIsPlain | asyncowfs/protocol.py:220-234 | so with a server that answers with that length, as owserver does, the exchange is the plain operation as well, for every tree and request |
| EndToEnd.LookupLast | asyncowfs/mock/server.py:95-106 | a walk to a longer path goes one step on from where the shorter one ends: to the entry, to no entry, or into a value |
| EndToEnd.StoredExactlyWhen | asyncowfs/mock/server.py:133-152 | a write is stored if and only if the request fits, the value and path are not empty, and the path leads to an existing entry |
| EndToEnd.ReadBack | asyncowfs/mock/server.py:117-152 | a stored value is what the next read of the path returns, or the reply is too long to be received |
| EndToEnd.NumberReadBack | asyncowfs/protocol.py:294-302 | a stored number is read back as text that parses to it |
| EndToEnd.FlagReadBack | asyncowfs/protocol.py:298-299 | a stored flag is read back as one digit, 1 for True and 0 for False |
| EndToEnd.RawReadBack | asyncowfs/protocol.py:298-302 | stored bytes are read back as they were |
| EndToEnd.OthersUnchanged | asyncowfs/mock/server.py:133-152 | a write changes no read and no listing of any path that is not at or below its own |
| EndToEnd.MissingIsNoEntry | asyncowfs/mock/server.py:103-150 | if the walk meets a missing entry, get, dir and set yield exactly the no-entry error and change nothing |
| EndToEnd.DirectoryIsNoValue | asyncowfs/mock/server.py:128-129 | reading a directory is error 21, from which setup_accessors knows a sub-directory |
| Pipeline.HeadOwnsReply | asyncowfs/server.py:81-90 | the reader never pops an empty deque, and the head is the message the reply belongs to |
| Pipeline.StepMatched | asyncowfs/server.py:72-90 | every step keeps `requests` equal to the owners of replies in flight, commands in flight, and the unsent message |
| Pipeline.ServedIsPlain | asyncowfs/mock/server.py:92-162 | what the server answers to a request is the plain operation's result |
| Pipeline.ServedIsProcessed | asyncowfs/protocol.py:220-234 | the client can process whatever the server answers to an admissible request |
| Pipeline.AnsweredExactlyWhen | asyncowfs/mock/server.py:84-162 | the server answers an admissible request with a reply that can be received if and only if the plain operation has a result |
| Pipeline.NeverRaises | asyncowfs/server.py:72-90 | no enabled step pops from an empty deque or fails an assertion |
| Runs.StepKeeps | asyncowfs/server.py:72-207 | the whole invariant is kept by every step |
| Runs.RunKeeps | asyncowfs/server.py:72-207 | it holds in every state of every run |
| Runs.RequestsStay | asyncowfs/server.py:186-193 | along a run messages are only added and never change their request |
| Runs.ChatReturnsItsOwnAnswer | asyncowfs/server.py:186-207 | in every run, with cancellations, busy frames, NOPs, disconnects and reconnects, an outcome other than Cancelled is what the plain operation yields for that very message, on the tree at an earlier moment when the server answered it |
| Runs.ChatAnswersItsRequest | asyncowfs/server.py:186-209 | what is found for a submitted request is what the plain operation yields for that request, on the tree of some moment after its submission |
| Runs.StepRecords | asyncowfs/server.py:76-214 | a step makes at most one message, and changes at most the one that is cancelled or at the head of the deque |
| Runs.QueueIsFifo | asyncowfs/server.py:186-209 | in every run, what the writer has taken and what is in the queue is what has entered it, in order |
| Runs.TakenInOrder | asyncowfs/server.py:186-209 | of two submitted messages the first is taken first, unless the second one has been sent again |
| Runs.RunsAreSafe | asyncowfs/server.py:72-90 | in every reachable state no enabled step raises, and `requests` is matched |
| Runs.FailingRounds | asyncowfs/server.py:116-119 | from every reachable state with a message still to be re-sent, the run can go on with any number of failing rounds, and nothing has changed |
| Runs.NoReconnect | asyncowfs/server.py:112-119 | a connection lost while messages are still to be re-sent is not followed by another, and the backlog stays, as long as no re-send gets through |
| Conservation.EnqueueConserves | asyncowfs/server.py:186-204 | a new message, NOPs included, is in exactly one place |
| Conservation.TakeConserves | asyncowfs/server.py:200-206 | taking from the queue moves one message |
| Conservation.PopConserves | asyncowfs/server.py:87-90 | a reply moves one message to the answered ones |
| Conservation.ResendConserves | asyncowfs/server.py:113-119 | re-sending moves one message, to the queue or, if cancelled, to the dropped ones |
| Conservation.StartConserves | asyncowfs/server.py:101-101 | a new connection turns the deque into the backlog |
| Conservation.AbortConservesIffEmpty | asyncowfs/server.py:121-123 | the abort path loses no message if and only if the new deque is empty |
| Conservation.AbortLosesMessage | asyncowfs/server.py:95-123 | a run in which it does lose one: it is in no place, has no outcome and was not cancelled; LostForever says that it stays so |
| Conservation.StepConserves | asyncowfs/server.py:87-119 | every other step keeps every message in exactly one place |
| Conservation.RunConserves | asyncowfs/server.py:87-119 | so does every run whose aborts find the new deque empty |
| Conservation.RunConservesExactlyWhen | asyncowfs/server.py:87-123 | and no other run does: all messages are in exactly one place throughout if and only if every abort finds the new deque empty |
| Conservation.LostStays | asyncowfs/server.py:72-207 | a message in no place is in none after any step, and gets no outcome but its caller's cancellation |
| Conservation.LostForever | asyncowfs/server.py:72-207 | so a lost message is never answered, however a run goes on |
| Conservation.ExactlyOnePlace | asyncowfs/server.py:87-119 | then each message is in exactly one of queue, deque, backlog, answered and dropped, once; dropped ones were cancelled |
| Transport.StreamHead | asyncowfs/protocol.py:101-148 | what a partly filled buffer parses to is the first frame its stream carries |
| Transport.ServerHead | asyncowfs/mock/server.py:84-84 | the server only ever reads commands that were sent in full |
| Transport.SimServerRead | asyncowfs/mock/server.py:84-162 | a command read from bytes and answered in bytes is the frame-level answer step |
| Transport.SimClientRead | asyncowfs/server.py:78-90 | a frame the client reads from bytes is the frame-level read step |
| Transport.SimTake | asyncowfs/server.py:199-207 | a taken message's whole frame becomes outgoing bytes |
| Transport.MoveSimulates | asyncowfs/server.py:72-207 | every move over bytes succeeds and is one step, or none, of the system over frames |
| Transport.WiredRunRefines | asyncowfs/server.py:72-207 | every run over byte streams cut in arbitrary pieces goes side by side with a run over frames |
| Transport.ChatOverBytes | asyncowfs/server.py:186-207 | over bytes, too, chat's outcome is the plain operation's result for its own request, which the server read from its buffer at an earlier move |
| Transport.ServerBufferSound | asyncowfs/protocol.py:115-148 | the server's buffer is never badly framed: what is complete in it is the request of a message, never a wrong version, an over-long payload or a busy frame |
| Transport.ServerReadsInRun | asyncowfs/mock/server.py:84-162 | in every run over bytes, the server's turn on what is complete in its buffer fails if and only if the plain operation of that request has no result on its tree: the interpreter dies, or the reply is over-long |
| Transport.WiredRunsAreSafe | asyncowfs/server.py:72-90 | over bytes no enabled move raises; ServerReadsInRun says when the server's move is enabled |
| Engine.Server.constructor | asyncowfs/server.py:35-52 | an engine without messages, with the first delay |
| Engine.Server.NewMessage | asyncowfs/protocol.py:189-197 | a new message gets the next number and an unset event, and enters no queue |
| Engine.Server.Enqueue | asyncowfs/server.py:186-187 | the new message object enters the write queue, and nothing else changes |
| Engine.Server.WriterTake | asyncowfs/server.py:199-206 | the next message, or a NOP if there is none, is appended to `requests` |
| Engine.Server.ReaderPop | asyncowfs/server.py:86-90 | pops the head and completes it with the reply |
| Engine.Server.CancelMessage | asyncowfs/protocol.py:202-204 | cancels one message, which keeps its place |
| Engine.Server.StartConnection | asyncowfs/server.py:101-101 | the deque becomes the backlog, and an empty one is put in its place |
| Engine.Server.AbortStart | asyncowfs/server.py:121-123 | overwrites the deque with the backlog |
| Engine.Server.ResendBacklog | asyncowfs/server.py:112-119 | for whatever outcomes of its sends, the loop does what Rounds says, and it has ended exactly when the backlog is empty |
| Engine.Server.CancelRequests | asyncowfs/server.py:228-229 | cancels exactly what is in the deque |
| Engine.RoundsMeaning | asyncowfs/server.py:112-119 | how far the loop gets depends on the number of successful sends only: as many live messages are at the end of the write queue in order, the cancelled ones before the next live one are dropped, the others stay in the backlog |
| Engine.RoundsEndIff | asyncowfs/server.py:112-119 | the loop ends if and only if as many sends succeed as there are live messages in the backlog |
| Engine.ReconnectResends | asyncowfs/server.py:101-119 | after a reconnect whose loop ends, the messages still to be answered are at the end of the write queue, in their old order and without the cancelled ones |
| Engine.AbortRestores | asyncowfs/server.py:101-123 | an abort before the writer has taken anything leaves what there was |
| Engine.FailuresChangeNothing | asyncowfs/server.py:116-119 | any number of failing sends, cancellations included, leave everything as it was |
| Engine.CancelEachMeaning | asyncowfs/server.py:228-229 | exactly the listed messages are cancelled |
| Engine.Server.FailureDelay | asyncowfs/server.py:175-177 | the delay before a retry, and the one for the next |
| Engine.Server.Connected | asyncowfs/server.py:131-131 | a success sets the delay to 0.1 |
| Engine.DelayClosedForm | asyncowfs/server.py:131-177 | after k failures the delay is the start times 1.5 to the power of min(k, bound); it is at least 0.1, below 15, and stops growing exactly at ten seconds, after 12 failures since a success or 4 from the start |
| Engine.DelayOfHistory | asyncowfs/server.py:131-177 | over any history of successes and failures the delay is that of the failures since the last success, or since the start; it is at least 0.1 and below 15 |
| Registry.WithEntry | asyncowfs/bus.py:168-168 | `devices[id] = dev`: the device replaces the one of its id; all others stay; ids stay distinct |
| Registry.WithoutId | asyncowfs/bus.py:171-171 | `del devices[id]`: exactly that id goes |
| Registry.FindEntry | asyncowfs/bus.py:114-114 | a dictionary lookup: the listed device of that id, or none if no listed device has it |
| Registry.EnsureStructRaisesIff | asyncowfs/service.py:112-131 | ensure_struct raises if and only if the family is not set up and its structure is missing or breaks the accessor loop; only that family is then set up |
| Registry.GetDeviceMeaning | asyncowfs/service.py:139-145 | an id that is not registered gets one new object, located nowhere and with counter 0; one that is gets none |
| Registry.GetDeviceValid | asyncowfs/service.py:139-145 | get_device keeps the registry's invariant if and only if the id is registered as given, or its upper-case form is not registered; then the returned object is the registered one |
| Registry.GetDeviceJournalledIff | asyncowfs/service.py:139-145 | for any id, the event log stays a faithful journal if and only if the id is registered as given, or its upper-case form is not registered |
| Registry.LocateJournalledIff | asyncowfs/device.py:416-422 | for any device object and any bus, the event log stays a faithful journal through locate if and only if the device is there already, or the bus is live and the object is the registered one of its id |
| Registry.AddDeviceValid | asyncowfs/bus.py:166-168 | add_device of any device object at a live bus keeps the invariant (registered ids, locations, dictionaries, bus tree, journal), and the journal alone, if and only if the object is the registered one of its id; Locating has the case that locating raises |
| Registry.AddDeviceMeaning | asyncowfs/bus.py:166-168 | add_device changes the device's bus and the bus's entry of its id, and nothing else |
| Registry.DelocateValid | asyncowfs/device.py:429-441 | losing a device keeps it, at the bus where it is and at any other |
| Registry.GetSubBusValid | asyncowfs/bus.py:77-86 | a sub-bus is live afterwards, and the invariant is kept |
| Registry.GetTopBusValid | asyncowfs/server.py:54-62 | the same for a top-level bus |
| Registry.DeleteDeviceJournalledIff | asyncowfs/service.py:190-202 | a deletion that does not raise keeps the event log a faithful journal if and only if the registered device of the id, which need not be the object given, is located nowhere |
| Registry.DeleteDeviceValid | asyncowfs/service.py:190-202 | delete_device of any device object raises exactly if the object is located or its id is not registered; otherwise the invariant is kept if and only if the registered device of that id is located nowhere, and so always for the registered object |
| Registry.ReadyValid | asyncowfs/service.py:112-145 | get_device and ensure_struct keep the invariant; ensure_struct fails exactly for a class that is neither set up nor can be, and otherwise sets up that class only |
| Registry.FoundValid | asyncowfs/bus.py:99-105 | one listed device, also when the scan breaks off there, at ensure_struct or after it; Spelling.FoundSpelled says that other spellings never keep it |
| Registry.MissedAllValid | asyncowfs/bus.py:113-118 | counting and losing the devices not seen keeps the invariant |
| Registry.ScanValid | asyncowfs/bus.py:88-121 | a scan through any nesting of couplers keeps the invariant and removes no bus, wherever it breaks off, ensure_struct included, for upper-case ids; Spelling.ScanValidExactlyWhen has the others |
| Registry.ScanBaseValid | asyncowfs/server.py:266-282 | so does a scan of the whole server |
| Teardown.BusEventsBalance | asyncowfs/event.py:57-83 | in a faithful journal each bus has been deleted as often as added, plus one if it is live |
| Teardown.BusDeletedLast | asyncowfs/bus.py:59-69 | when a bus is announced as deleted, no bus below it is live and no device is located at it |
| Teardown.DropBusValid | asyncowfs/bus.py:59-69 | dropping an empty bus keeps the invariant and removes exactly that bus |
| Teardown.DelocateEachLeaves | asyncowfs/bus.py:65-67 | after the loop none of the listed devices is located at the bus, and no other location has changed |
| Teardown.TearSubs | asyncowfs/bus.py:61-64 | after the loop over sub-buses exactly the buses strictly below are gone, with exactly their locations |
| Teardown.TearDown | asyncowfs/bus.py:59-69 | a torn-down bus takes with it exactly the buses at and below it and the locations there; everything else stays |
| Teardown.CloseServer | asyncowfs/server.py:216-227 | after aclose no bus is live and no device is located |
| Teardown.CloseBalances | asyncowfs/server.py:216-227 | and every bus has been announced as deleted exactly as often as added |
| Teardown.ApplyValid | asyncowfs/service.py:133-202 | every operation of a history keeps the invariant, a get_device that raises NotADevice and a delete_device that raises included |
| Teardown.JournalFaithful | asyncowfs/service.py:179-184 | in every reachable state, replaying the events gives the registered ids, each device's current bus and the live buses |
| Teardown.CloseAfterHistory | asyncowfs/server.py:216-227 | closing after any history leaves nothing located and no bus live, with balanced announcements |
| ScanTree.FoundNew | asyncowfs/bus.py:99-105 | listing an id that the bus does not have, of a class that can be set up, puts it at the end of the dictionary, located here, and touches no other device |
| ScanTree.PortNew | asyncowfs/bus.py:107-109 | a coupler's port becomes a new, empty, live bus |
| ScanTree.ScanLoads | asyncowfs/bus.py:99-100 | from any registry a scan sets up only classes whose structure could be loaded before, and succeeds only if all families that are listed are set up or can be |
| ScanTree.ScanFresh | asyncowfs/bus.py:88-121 | one scan of a fresh bus over any good tree succeeds if and only if the structures of its families can be loaded, and then leaves every bus of it in step with its directory |
| ScanTree.PairsOfTree | asyncowfs/bus.py:72-75 | for a registry in step, the (bus, id) pairs listed below a bus are the tree's device entries, each located there |
| ScanTree.FreshScanFindsTheTree | asyncowfs/bus.py:88-121 | one scan of a fresh bus raises an exception if and only if some structure cannot be loaded; otherwise the listed (bus, id) pairs are exactly the device entries of the remote tree through any nesting of couplers, and each device is located at its bus |
| DeviceIds.UpperMeaning | asyncowfs/device.py:346-346 | upper case, letter by letter of the alphabet |
| DeviceIds.IsIdMeaning | asyncowfs/device.py:36-41 | a name is an id if and only if it is three non-empty strings of the 22 hexadecimal digits, joined by dots |
| DeviceIds.NotADeviceIff | asyncowfs/service.py:139-145 | get_device raises NotADevice if and only if the name is neither registered nor of that form |
| DeviceIds.HexMeaning | asyncowfs/device.py:38-38 | a number printed in hexadecimal, in either case, is a numeral of that value; its upper-case form is the one printed in capitals |
| DeviceIds.LeadingZero | asyncowfs/device.py:38-38 | zeros in front do not change the value |
| DeviceIds.PrintedIsId | asyncowfs/device.py:36-41 | for all three numbers, the printed id is an id in either case, its family is the first number, and it is a coupler if and only if that is 31 |
| DeviceIds.PrintedIsFound | asyncowfs/bus.py:88-121 | a successful scan of a fresh bus over a good tree has every device whose printed id is in a directory, behind any couplers, located at that directory's bus and listed there |
| DeviceIds.ExampleIsFound | asyncowfs/bus.py:88-121 | an instance: the bus of the mock server's example, with device 10.345678.90 |
| ScanTree.ScanAgain | asyncowfs/bus.py:88-121 | scanning a tree the registry is in step with changes nothing |
| ScanTree.SecondScanChangesNothing | asyncowfs/bus.py:88-121 | a second scan changes no location, no counter and no class and emits no event, or it raises as the first one did |
| Debounce.DeepScan | asyncowfs/bus.py:88-121 | a scan of other devices leaves devices of other ids, and buses elsewhere, exactly as they are |
| Debounce.AgedFound | asyncowfs/bus.py:99-105 | a listed device is located here with its counter at 0, and is no longer pending |
| Debounce.AgedMissed | asyncowfs/bus.py:113-118 | a device not listed grows one scan older, or is lost after more than two |
| Debounce.AgedScan | asyncowfs/bus.py:88-118 | one successful scan: listed ids are new, others grow older by one or are lost |
| Debounce.AgesWindow | asyncowfs/bus.py:113-118 | folding that over any listings gives exactly the last four listings, with the number of scans since |
| Debounce.DebounceWindow | asyncowfs/bus.py:88-118 | after any sequence of successful scans a bus lists exactly the ids of its last four listings, each located here with the scans since on its counter; every other id it ever listed is located nowhere |
| Debounce.OtherScanUndisturbed | asyncowfs/bus.py:88-121 | scans of other buses in between do not matter |
| ScanServer.ScanBaseFresh | asyncowfs/server.py:266-282 | one scan of a server whose buses are all new succeeds if and only if the structures can be loaded, whatever else is registered; it then leaves every bus in step with its directory, and touches no other bus and no other device |
| ScanServer.ServerScanFindsTheTrees | asyncowfs/server.py:266-282 | if and only if the structures can be loaded, it succeeds, and the (bus, id) pairs listed by buses that are new are exactly the device entries of the server's trees, each located there |
| ScanServer.SecondServerScan | asyncowfs/server.py:266-282 | a second scan of the server changes nothing and emits no event, or raises as the first one did |
| OneId.FoundView | asyncowfs/bus.py:99-105 | what handling one listed name does to each id: location, counter, which dictionaries have the id and which the device; an exception exactly for a class that cannot be set up, or a repeated id of a device that is here |
| OneId.MissedView | asyncowfs/bus.py:113-118 | the same for an id that was not seen |
| OneId.ScanView | asyncowfs/bus.py:88-121 | a scan that succeeds does to each id what a small machine over that id alone does |
| OneId.ScanIsPerId | asyncowfs/bus.py:88-121 | from any valid registry, over any listing of upper-case ids: a scan succeeds if and only if that machine does for every id, and then does to each id what the machine does |
| Relocation.UnlistedScan | asyncowfs/bus.py:88-121 | an id that the tree does not have makes no exception, and is afterwards where it was or, if it was in the tree, nowhere |
| Relocation.CountedScan | asyncowfs/bus.py:113-118 | each scanned bus that has the device of such an id in its dictionary, while the device is elsewhere, counts it once, up to 3 |
| Relocation.ListedScan | asyncowfs/bus.py:88-121 | where a scan of a good tree leaves the device of an id that the tree has, whatever was before; it fails for that id exactly if its class cannot be set up |
| Relocation.GoodScanSucceeds | asyncowfs/bus.py:88-121 | from any valid registry, a scan of a readable tree without repeated ids raises an exception if and only if the structure of some family cannot be loaded |
| Relocation.RescanFindsTheTree | asyncowfs/bus.py:88-121 | from any valid registry, if the structures can be loaded: afterwards each id of the tree is located at the bus that lists it, or nowhere; and nowhere if and only if that bus had a left-behind entry of it and at least three buses behind the couplers from that entry onward have the device in their dictionaries |
| Repeats.ScanFits | asyncowfs/bus.py:101-104 | the same as ScanSucceedsExactlyWhen for one id, and when its left-behind entry survives the scan |
| Repeats.ScanSucceedsExactlyWhen | asyncowfs/bus.py:88-121 | for trees with each id on one bus, repetitions included, a scan raises no exception if and only if all directories are readable, all structures can be loaded, and each bus lists each id once, or twice where it has a left-behind entry of it, at every scan of that bus |
| Several.OrderScan | asyncowfs/bus.py:88-121 | for one id, listed by any buses any number of times: a scan that meets no bus twice fails for it exactly when a bus meets it where it already is more often than its earlier entry allows, and where it is afterwards |
| Several.ScanSucceedsInOrder | asyncowfs/bus.py:88-121 | for trees without repeated couplers, ids on any number of buses: a scan raises no exception if and only if all directories are readable, all structures can be loaded, and no bus meets an id where it already is more than once, or at all if the bus had no entry of it |
| Several.CounterDecides | asyncowfs/bus.py:88-121 | where couplers are repeated, no condition on the order of meetings and the entries is exact: one listing, met in the same order from the same place with the same entry, is accepted or not depending on the counter of missed scans alone |
| LeftBehind.EntryStays | asyncowfs/bus.py:166-171 | in every history, an entry that a device has left behind stays until its bus lists the id again or a device of the id is added there |
| LeftBehind.ScanLosesWhatItLists | asyncowfs/bus.py:88-121 | a history of six operations, the last of which is a successful scan of a good tree that leaves an id it lists located nowhere |
| LeftBehind.TwiceSucceedsIff | asyncowfs/bus.py:101-104 | a listing of one id twice is accepted if and only if its class can be set up and the bus has a left-behind entry of it |
| LeftBehind.RepeatRaises | asyncowfs/bus.py:101-104 | a history after which that listing raises, although all structures can be loaded |
| LeftBehind.RepeatAccepted | asyncowfs/bus.py:101-104 | a history after which it does not |
| LeftBehind.UnpublishedRaises | asyncowfs/bus.py:99-100 | on a server without structures, the first scan of one new device raises; the device is then registered and located nowhere |
| Dictionaries.DictionariesTold | asyncowfs/bus.py:166-171 | in every reachable state of every history, the event log determines exactly which ids each bus's dictionary has, left-behind entries included |
| Dictionaries.EntryToldIff | asyncowfs/event.py:57-83 | namely those whose last DeviceLocated at the bus, since the bus was added, was not next followed by DeviceNotFound |
| Interleaving.JournalBetween | asyncowfs/bus.py:99-118 | in any run of the actions of any number of tasks, also between locating a device and entering it, the event log is a faithful journal after each action if and only if each action is in place when it happens: a device to be located is there already or registered, and its bus live; no registered device is deleted while located; no id gets a second object; no bus is announced deleted before what is below it and at it is gone |
| Interleaving.DoKeepsIff | asyncowfs/bus.py:99-118 | the same for a single action, with what holds between actions: it is kept if and only if the action is in place |
| Interleaving.DropJournalledIff | asyncowfs/bus.py:59-69 | announcing a bus deleted keeps the journal if and only if it has no sub-bus and no device is located at it |
| Interleaving.DeletedBeforeLocated | asyncowfs/bus.py:99-104 | from every state, for every live bus and new id: when another task deletes the device between get_device and locate, nothing is raised, the journal is faithful until then, and locating breaks it |
| Interleaving.DeletedUnderScan | asyncowfs/service.py:142-202 | an instance of that from the start: three actions after opening one bus |
| Interleaving.ScanActs | asyncowfs/bus.py:88-121 | every scan, wherever it breaks off, is a sequence of such actions, each in place if no other task interferes |
| Interleaving.TearActs | asyncowfs/bus.py:59-69 | so is every teardown of a bus |
| Interleaving.CloseActs | asyncowfs/server.py:216-227 | and so is aclose |
| Interleaving.ValidIffEntered | asyncowfs/bus.py:166-168 | the full invariant holds in between exactly when every located device has entered its bus's dictionary |
| Spelling.FoundSpelled | asyncowfs/bus.py:99-105 | a listed name keeps the registry valid if it is registered as spelled or not at all, and otherwise breaks the journal for good |
| Spelling.ScanValidExactlyWhen | asyncowfs/bus.py:88-121 | a scan of any listing, lower-case ids included and wherever it breaks off, keeps the invariant if and only if each name it has looked up was then registered as spelled or not at all; a completed scan has looked up all names listed, one that breaks off some of the first |
| Spelling.ScanBaseValidExactlyWhen | asyncowfs/server.py:266-282 | the same for a scan of the whole server |
| Spelling.LowerCaseBreaks | asyncowfs/service.py:139-145 | an instance: asking for a registered device in lower case makes a second object and breaks the journal |
| Locating.AddPolledValidIff | asyncowfs/bus.py:166-168 | with polling intervals: add_device raises if and only if the device is elsewhere and has an interval without a getter; the journal survives if and only if the object is the registered one of its id; the invariant does if and only if, besides, it did not raise or the bus already had the device in its dictionary |
| Locating.LocateValidIff | asyncowfs/device.py:416-422 | setting a device's bus without the dictionary entry keeps the invariant if and only if the object is the registered one of its id and the entry was there |
| Locating.ScanRaisesAfterwards | asyncowfs/bus.py:99-104 | after such an exception every scan of the bus that lists the device among devices other than couplers raises, unless the bus has an old entry of its id |
| Service.Registrar.GetDevice | asyncowfs/service.py:133-145 | the object returned and the new dictionaries are those of Registry.GetDevice, or NotADevice is raised and nothing changes |
| Service.Registrar.EnsureStruct | asyncowfs/service.py:112-131 | sets up the class of the device's family by running the accessor loop on the published structure, or raises as Registry.EnsureStruct says |
| Service.Registrar.Locate | asyncowfs/device.py:416-422 | sets the device's bus and announces it, unless it is there already |
| Service.Registrar.AddDevice | asyncowfs/bus.py:166-168 | location first, then the dictionary; the old bus keeps its entry |
| Service.Registrar.Delocate | asyncowfs/device.py:429-441 | only at the device's own bus |
| Service.Registrar.GetSubBus | asyncowfs/bus.py:77-86 | the listed bus object, or a new one that is announced |
| Service.Registrar.GetTopBus | asyncowfs/server.py:54-62 | the same at the top |
| Service.Registrar.Find | asyncowfs/bus.py:99-105 | the loop's work on one name, with shared device objects: get_device, ensure_struct, then the location |
| Service.Registrar.Miss | asyncowfs/bus.py:113-118 | the loop's work on one id that was not seen |
| Service.Registrar.ScanOne | asyncowfs/bus.py:88-121 | the recursive scan over the objects does exactly what Registry.Scan does to their value, and reports the same success |
| Service.Registrar.ScanBase | asyncowfs/server.py:266-282 | the same for the whole server |
| Service.Registrar.DelocateBus | asyncowfs/bus.py:59-69 | the recursive teardown over the objects does exactly what Teardown.TearDown does to their value |
| Service.Registrar.Close | asyncowfs/server.py:224-227 | afterwards there is no bus, and every device object's bus is null |
| Service.Registrar.DeleteDevice | asyncowfs/service.py:190-202 | for any device object ever made: raises for a located one and for an id that is not registered; otherwise whatever is registered under its id goes, which is announced, and nothing else changes |
| Polling.LocateFollows | asyncowfs/device.py:416-424 | locating succeeds exactly when every interval has a getter, in whatever order; then there is one task for each interval |
| Polling.LocateRestarts | asyncowfs/device.py:416-424 | a device found where it is keeps its tasks; one found elsewhere has new ones only |
| Polling.DelocateFollows | asyncowfs/device.py:429-441 | losing the device cancels every task it ever had and keeps the intervals; at another bus nothing changes |
| Polling.SetIntervalFollowsIff | asyncowfs/device.py:506-541 | a located device keeps polling for exactly its intervals if and only if the value is 0 or is positive just when there is a getter; for what the bus polls, if and only if the interval's presence does not change |
| Polling.SetIntervalMeaning | asyncowfs/device.py:506-520 | afterwards the interval is the new value if that is positive and gone otherwise, and no other has changed; when it raises |
| Polling.SetIntervalTimelyIff | asyncowfs/device.py:506-520 | the tasks read at the intervals afterwards if and only if it is not a new positive value for something that the bus polls and that had another interval |
| Polling.OpFollows | asyncowfs/device.py:416-544 | every sensible operation keeps one task for each interval while located, none otherwise |
| Polling.PollTasksFollow | asyncowfs/device.py:416-544 | over any run: exactly one live task for each interval while located, which reads that attribute at that interval; none otherwise, all earlier ones cancelled |
| Polling.LiveTasksOfRun | asyncowfs/device.py:416-544 | so the number of live tasks is the number of intervals, or zero |
| Polling.IntervalsOfRun | asyncowfs/device.py:506-514 | after any run an interval is the value set last, if that is positive |
| Polling.TaskOfRun | asyncowfs/device.py:416-544 | after any run a located device has a live task for an attribute if and only if the value set last is positive, and that task reads the attribute at that value |
| Polling.Device.SetPollTask | asyncowfs/device.py:522-544 | replaces one task; the new one reads the attribute at the value given |
| Polling.Device.LocateOn | asyncowfs/device.py:416-424 | the loop over the intervals does what LocateAt says, in some order of theirs |
| Polling.Device.DelocateAt | asyncowfs/device.py:429-441 | the loop cancels all tasks |
| Polling.Device.SetPollingInterval | asyncowfs/device.py:506-520 | changes the interval and, if located, the task |
| Polling.BusPolls.GatherAll | asyncowfs/bus.py:125-143 | the nested loops gather exactly the wanted items, with the least interval and the least spread of each |
| Polling.BusPolls.UpdatePoll | asyncowfs/bus.py:123-153 | afterwards there is a task for exactly the wanted items, kept ones are the same, each new one is one new task for that item, exactly the obsolete ones are cancelled, and intervals are minima |
| Accessors.ScalarRoundTrip | asyncowfs/device.py:53-76 | reading what was written gives the value back, for integers, flags and bytes |
| Accessors.FlagText | asyncowfs/device.py:60-74 | a flag is written as 1 or 0, and read as true from any number but 0 |
| Accessors.ListRoundTripIff | asyncowfs/device.py:108-139 | a list comes back if and only if it is not empty and no element is written with a comma; for integers and flags, if and only if it is not empty |
| Accessors.ListText | asyncowfs/device.py:108-139 | a list is its elements' texts between commas, and is read part by part, in order |
| Accessors.ElementPathsDistinct | asyncowfs/device.py:144-214 | two indices of an array have the same request path only if they are equal, in number and in letter form, and never that of the whole array |
| Accessors.ElementText | asyncowfs/device.py:144-214 | the request path: a dot and the index in digits, the letter at its place of the alphabet, or ALL |
| Accessors.SetupAccessors | asyncowfs/device.py:229-315 | the recursive loop makes the class that Setup describes, direct attributes with their hasattr checks included, or breaks off |
| Accessors.SetupSucceedsIff | asyncowfs/device.py:229-275 | it breaks off if and only if some description, at any depth, is broken; what attributes the class had before makes no difference |
| Accessors.FunctionsFollow | asyncowfs/device.py:264-315 | a class's get_ and set_ functions are exactly what its folder's last providing entries say |
| Accessors.DirectFollow | asyncowfs/device.py:287-311 | a class has a direct attribute of a name if and only if a readable entry provides it, the class had no such attribute before, and no generated function or sub-directory class has the name; it comes from the first providing entry that is not an array's element access, or else from the last providing one |
| Accessors.AccessorsFollow | asyncowfs/device.py:217-315 | for every structure tree: walking generated sub-directories and taking a getter (setter) gives exactly what looking the names up in the tree gives, and direct attributes are those of the folder reached |
| Accessors.DescriptionMeaning | asyncowfs/device.py:267-276 | a description is broken if and only if it has fewer than five parts or the second, third or fifth is no number; type, count and mode are the first, second and fourth |
| Accessors.PlainProvides | asyncowfs/device.py:277-295 | what an entry whose name ends neither in .0 nor in .A provides, for its type, count and mode as published: a getter for "ro" and "rw", a setter for "wo" and "rw", if the count is 0 |
| Accessors.ArrayProvides | asyncowfs/device.py:277-315 | the same for one that ends in .0 or .A: element access under the name without that, and access to the whole with _all behind it |
| Accessors.OneEntryClass | asyncowfs/device.py:229-295 | the class of one such entry has a get_ function if and only if the mode is "ro" or "rw", a set_ function if and only if it is "wo" or "rw", of the published type, and no other |
| Accessors.OneArrayClass | asyncowfs/device.py:229-315 | the same for one array entry: the functions for elements and for the whole |
| Accessors.GeneratedMeaning | asyncowfs/device.py:249-315 | the generated names are get_, set_ or _cls_ followed by the name |
| Accessors.RequestPath | asyncowfs/device.py:85-315 | a direct attribute, get_ or set_ function reached through sub-directories belongs to an entry published there, and its request goes to that entry's path, for an array to the same path with the index or ALL after a dot; index 0 gives the published entry itself |
| Alarm.Thermometer.PollAlarm | asyncowfs/device.py:602-615 | afterwards low <= t <= high; a bound changes only if t was beyond it, and then to strictly beyond t; the reasons hold the old bounds |
| Alarm.TruncatedMeaning | asyncowfs/device.py:609-613 | the whole part is on the same side of zero, not farther from it, and less than one away |
| Alarm.NewBoundsBeyond | asyncowfs/device.py:608-614 | truncation toward zero never uses up the margin, for temperatures of either sign; the bounds are the whole parts of two above and one below |
| Alarm.PollTwice | asyncowfs/device.py:602-615 | a second alarm at the same temperature changes nothing |

## Left out

- Several servers in one service: the registry has one server's buses; a device would move between servers as it
  moves between buses.
- The event queue's capacity and a listener that attaches late: the log starts with the registry and is unbounded.
- `Device.locate` raising while it restarts poll tasks: the registry's scans, and with them the exact conditions for
  exceptions, are about devices whose intervals all have getters. `Locating` has one `add_device` of any other device,
  and what follows from it.
- Tasks that run while an event is being queued: a change of the registry and its event are one action, in
  `Interleaving` too. A location and the dictionary entry that follows it are two.
- The iteration order of Python sets (ids not seen, items to poll): the scan takes the dictionary's order. `Polling`
  allows any order.
- Bus objects that are gone: buses are paths here, and a bus leaves its owner's dictionary when it is announced
  deleted, while the code empties the dictionaries at the end of the enclosing teardown, which only `aclose` starts. In
  `Interleaving` a task that holds a removed bus can still locate devices at its path; what else it does there
  (`get_bus` returning None, or making a sub-bus of it, and entries in its dictionary) is not modelled.
- Loading a structure takes several requests: here it happens at once, from a structure that does not change during
  one scan, and no other task meets a class that is half set up.
- `update_poll` at the end of a scan: it makes tasks, does not touch the registry, and is taken not to raise.
- Server._scan, the periodic loop: it holds the lock that `scan_now` then waits for.
- The write queue's capacity of 100, and liveness: nothing here says that a request is eventually answered.
- Replies longer than the client accepts, and struct.error in a writer: they end a connection in `EndToEnd`; the step
  systems admit only requests whose frames fit, and a server that answers with frames that fit.
- The timeouts of 10 and 15 seconds: the idle NOP and the lost connection can happen at any time.
- The reader catches only ClosedResourceError: other exceptions end the run there. The step systems prove that none
  of them is raised by a reply from this server.
- Aliasing inside the mock server's tree: the tree is a value; a dictionary reachable by two paths is not modelled.
- Text beyond ASCII, floats as text, and Python's permissive `int(x, 16)`: ids are three hexadecimal numbers between
  dots, without signs, spaces or underscores.
- Values of the real-number types f, g, p and t, and `_IdxObj.set`, which sends its value unconverted.
- The `fields` table of a generated class, and the set of sub-directory names that all classes share: sub-directories
  belong to their class here. A class is set up from its beginning, not again after an attempt that broke off.
- Polling intervals set with a tuple as name: the interval is stored under the joined name and the task under the
  tuple.
- The poll task's own loop, `VoltageDevice`, the error class table, and the commented-out simultaneous polling: thin.
- Repeats.ScanSucceedsExactlyWhen: speaks of trees in which no id is listed by two different buses, and of upper-case
  ids.
- Several.ScanSucceedsInOrder: speaks of trees without repeated couplers, and of upper-case ids; for trees that have
  both, `OneId.ScanIsPerId` has the condition id by id, and `CounterDecides` says why order and entries are not enough.
- Debounce.DebounceWindow: speaks of successful scans only; a scan that breaks off leaves counters as they are for
  the ids it did not reach.
