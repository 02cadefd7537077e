# DuetRRF output device and plugin, modelled in Dafny

This project models the Cura plugin that sends sliced G-code to a RepRapFirmware
(Duet) board over its `rr_*` HTTP interface. It covers two parts:

- **The output device** (`DuetRRFOutputDevice.py`). Each printer instance gets
  three devices: print, simulate and upload. A device runs one session at a
  time. The session is a chain of HTTP requests. Each reply's `finished`
  signal is wired to the next handler:
  - connect, then upload the buffered G-code;
  - print mode: `M32` to start the file, then disconnect;
  - simulate mode: `M37 S1`, `M32`, status polls until the board stops
    reporting `P`/`M`, then `M37 S0`, `M37`, `rr_reply` and disconnect;
  - upload mode: disconnect right after the upload.
  Every handler first checks the stage and does nothing on a stale callback.
  A network error emits `writeError` and cleans up.
- **The plugin** (`DuetRRFPlugin.py`). It keeps the registry of named
  instances (URL, board password, HTTP credentials). It also registers and
  unregisters the three output devices of each instance.

Module layout:

- `wrappers.dfy`: `Option`.
- `protocol.dfy`: the pure parts: device ids and priorities, URL and file-name
  normalisation (including POSIX `os.path.splitext`), request assembly, upload
  percentage, the G-code buffer and its progress signals, and
  `ExpectedCalls`, the request sequence a successful session issues in each
  mode.
- `output_device.dfy`: class `DuetRRFOutputDevice`. Its fields are the
  device's state (`stage`, `fileName`, `stream`, `request`, `reply`). Two ghost
  fields record its visible behaviour: `log`, the requests issued, and
  `signals`, the notifications emitted. Each handler is a method. It returns
  `Ignored` on a stale callback, `Done`, or `Raised(e)` for the exception
  Python would raise.
- `sessions.dfy`: whole sessions, driven the way Qt delivers completions. Their
  contracts tie `log` to `ExpectedCalls` and `signals` to the buffering
  progress.
- `plugin.dfy`: the instance registry as a `map`. Class `DuetRRFPlugin` has
  the registry and the ghost set of registered device ids.

Behaviour of the code worth noting:

- A status body that is not UTF-8, is not JSON, is JSON but not an object, or
  has no `"status"` key raises from the handler. No further request is sent.
- A still-simulating reply whose `fractionPrinted` `float` cannot convert
  (`"n/a"`, `null`, a list) raises too, before the next poll is scheduled, so
  polling stops. The conversion runs only while a message is set. Clicking
  "Open Browser" on any earlier session's message clears it, and then the
  reply polls again whatever `fractionPrinted` holds.
- Simulate mode sends `M37 S1` and then `M32 /gcodes/<file>` before polling.
- `writeSuccess` and `writeError` are emitted before cleanup.
- `requestWrite` leaves the stage at ready. The stage becomes `Writing` when
  the file name is accepted in the dialog.
- Upload progress is reported on a 0..100 scale. Buffering progress is the
  fraction `i / lines`.
- The network-error handler checks no stage. An error on the fire-and-forget
  disconnect after a finished session therefore still emits `writeError`
  (`Sessions.ErrorAfterSuccess`).
- `onUploadDone` closes the buffer but sets a misspelt attribute
  (`self.stream = None`) instead of releasing it. The buffer stays in place,
  closed, until cleanup. A second upload attempt would raise `ValueError`
  (`OnConnected`).

## Model

| member | source | states |
|---|---|---|
| Protocol.DeviceId | DuetRRFOutputDevice.py:46-57 | a device id is the instance name followed by a non-empty mode suffix |
| Protocol.DeviceIdInjective | DuetRRFOutputDevice.py:46-57 | two equal device ids have the same instance name and the same mode |
| Protocol.Priority | DuetRRFOutputDevice.py:46-57 | print has priority 30, upload 10, simulate the remaining 20 |
| Protocol.NormaliseUrl | DuetRRFOutputDevice.py:69-71 | the stored URL ends in `/`, is the given URL or it plus `/`, and is left alone if it already ended in `/` |
| Protocol.NormaliseUrlIdempotent | DuetRRFOutputDevice.py:69-71 | normalising a normalised URL changes nothing |
| Protocol.SplitExtRoot | DuetRRFOutputDevice.py:118 | the root is a prefix of the path; it is shorter exactly when the last path component has a dot after a non-dot character, and then the rest is a dot followed by a dot-free, separator-free extension |
| Protocol.SuppliedFileName | DuetRRFOutputDevice.py:117-121 | the proposed file name ends in `.gcode`; with no name or an empty one it is the job name plus `.gcode` |
| Protocol.SuppliedExtensionReplaced | DuetRRFOutputDevice.py:117-118 | a supplied `stem.ext` becomes `stem.gcode` for any stem whose last path component has a non-dot character (`a.b.stl`, `dir/x.stl`) |
| Protocol.SuppliedNameWithoutExtension | DuetRRFOutputDevice.py:117-118 | a supplied name without an extension gets `.gcode` appended |
| Protocol.LeadingDotIsNoExtension | DuetRRFOutputDevice.py:118 | a name whose only dot is a leading one, such as `.rc`, has no extension, so it becomes `.rc.gcode` |
| Protocol.AcceptedFileName | DuetRRFOutputDevice.py:141-143 | the accepted name is unchanged if it contains a dot; otherwise `.gcode` is appended (the `.gcode` test adds nothing to the dot test) |
| Protocol.AcceptedFileNameIdempotent | DuetRRFOutputDevice.py:141-143 | the accepted name contains a dot, and accepting it again changes nothing |
| Protocol.EncodeQuery | DuetRRFOutputDevice.py:91 | the encoded query is empty exactly when there are no pairs |
| Protocol.RequestUrl | DuetRRFOutputDevice.py:91-94 | the URL is base + `rr_` + command, plus `?` and the encoded query exactly when the query is non-empty |
| Protocol.Authorization | DuetRRFOutputDevice.py:99-100 | credentials are sent iff both user and password are non-empty, and then they are those two |
| Protocol.Payload | DuetRRFOutputDevice.py:102 | a body is posted iff data is given and non-empty, and then it is that data |
| Protocol.MethodOf | DuetRRFOutputDevice.py:102-107 | the request is a POST exactly when there is a body to post, otherwise a GET |
| Protocol.BuildRequest | DuetRRFOutputDevice.py:90-107 | the body is exactly `Payload(data)`, the verb `MethodOf(data)` and the credentials `Authorization(user, password)`, so a POST iff a non-empty body is attached; the URL is `RequestUrl` |
| Protocol.CallOf | DuetRRFOutputDevice.py:90-111 | the logged call has the given command and query, the body `Payload(data)` and the verb `MethodOf(data)`, so it is a POST iff it carries a body |
| Protocol.FloatError | DuetRRFOutputDevice.py:284 | `float` of a decoded value succeeds exactly for numbers, booleans and strings that are float literals; any other string raises `ValueError`, null, lists and objects raise `TypeError` |
| Protocol.ProgressError | DuetRRFOutputDevice.py:283-284 | a reply without `fractionPrinted` raises nothing; with one, it raises what `float` of it raises |
| Protocol.Trim | DuetRRFOutputDevice.py:284 | `float` ignores surrounding white space: the trimmed text is a slice of the text with only white space before and after it, starts and ends with a non-space, and is the text itself when it has no white space |
| Protocol.TrimUnique | DuetRRFOutputDevice.py:284 | a slice with non-space ends and only white space around it is what trimming gives |
| Protocol.TrimDropsPadding | DuetRRFOutputDevice.py:284 | trimming white space, then text with non-space ends, then white space gives exactly that text (`" 1 "` becomes `"1"`) |
| Protocol.DigitsAreFloatLiteral | DuetRRFOutputDevice.py:284 | a non-empty digit string such as `0` or `42` converts |
| Protocol.DecimalIsFloatLiteral | DuetRRFOutputDevice.py:284 | digits, a dot and optional digits, such as `0.25` or `1.`, convert |
| Protocol.NumeralAlphabet | DuetRRFOutputDevice.py:284 | a numeral holds only digits, `_`, `.`, `e`, `E` and signs |
| Protocol.ForeignCharIsNoFloatLiteral | DuetRRFOutputDevice.py:284 | a string with a character that is not white space, not part of a numeral and not a letter of `inf`, `infinity` or `nan` does not convert |
| Protocol.NonNumericFractionsRaise | DuetRRFOutputDevice.py:284 | `float("n/a")` raises `ValueError` and `float(None)` raises `TypeError` |
| Protocol.UploadPercent | DuetRRFOutputDevice.py:348-350 | progress is reported iff the total is positive, and it is the floor of `sent * 100 / total` |
| Protocol.UploadPercentBounds | DuetRRFOutputDevice.py:348-350 | upload progress lies in 0..100 and is 100 exactly when all bytes are sent |
| Protocol.UploadPercentMonotone | DuetRRFOutputDevice.py:348-350 | sending more bytes never reports less progress |
| Protocol.ConcatAppend | DuetRRFOutputDevice.py:168-170 | writing two runs of lines to the buffer is writing their concatenation |
| Protocol.BufferProgressIncreasing | DuetRRFOutputDevice.py:165-174 | every buffering progress signal is `i / lines` with 1 <= i <= lines, and the fractions strictly increase |
| Protocol.SessionsShareConnectUpload | DuetRRFOutputDevice.py:178-190 | every mode first connects, then uploads to `0:/gcodes/<file>` (a POST iff the buffer is non-empty), and ends with a disconnect |
| Protocol.UploadSendsNoGcode | DuetRRFOutputDevice.py:212-223 | an upload-only session executes no G-code |
| Protocol.PrintStartsTheUploadedFile | DuetRRFOutputDevice.py:225-241 | a print session issues four calls; the third one is `M32 /gcodes/<file>` |
| Protocol.SimulatePollCount | DuetRRFOutputDevice.py:261-288 | a simulation asks for the status once more than the number of "still simulating" replies |
| OutputDevice.DuetRRFOutputDevice.constructor | DuetRRFOutputDevice.py:36-80 | a new device is ready with nothing pending; its URL is normalised; its id and priority follow its mode |
| OutputDevice.DuetRRFOutputDevice.Send | DuetRRFOutputDevice.py:90-111 | the request and reply are replaced by the built request and one wired to `next`; the call is logged; the session state is untouched; every handler below states its request through the same `Issued` predicate, so the URL, method, credentials and body are those of the logged call |
| OutputDevice.DuetRRFOutputDevice.RequestWrite | DuetRRFOutputDevice.py:113-121 | raises `DeviceBusy` iff a session is running, and then changes nothing; otherwise proposes `SuppliedFileName` |
| OutputDevice.DuetRRFOutputDevice.OnFilenameAccepted | DuetRRFOutputDevice.py:140-178 | the stage becomes writing with the accepted name; the buffer holds the lines in order; `writeStarted` and the buffering progress are emitted; connect is sent, wired to `OnConnected` |
| OutputDevice.DuetRRFOutputDevice.BufferGcode | DuetRRFOutputDevice.py:164-174 | the buffer ends holding the lines in order and the emitted progress is `BufferProgress`; nothing is sent |
| OutputDevice.DuetRRFOutputDevice.OnConnected | DuetRRFOutputDevice.py:180-190 | ignored unless writing; raises `ValueError` on a closed buffer; otherwise posts the buffer as `0:/gcodes/<file>`, wired to `OnUploadDone` |
| OutputDevice.DuetRRFOutputDevice.OnUploadDone | DuetRRFOutputDevice.py:192-223 | ignored unless writing; closes the buffer; simulate sends `M37 S1`, print goes on to `M32`, upload disconnects, emits `writeSuccess` and cleans up |
| OutputDevice.DuetRRFOutputDevice.OnReadyToPrint | DuetRRFOutputDevice.py:225-230 | ignored unless writing; sends `M32 /gcodes/<file>`, wired to `OnPrintStarted` |
| OutputDevice.DuetRRFOutputDevice.OnPrintStarted | DuetRRFOutputDevice.py:232-251 | ignored unless writing; simulate starts polling the status; otherwise disconnects, emits `writeSuccess` and cleans up |
| OutputDevice.DuetRRFOutputDevice.OnSimulatedPrintFinished | DuetRRFOutputDevice.py:253-259 | ignored unless writing; sends `M37 S0`, wired to `OnSimulationStopped` |
| OutputDevice.DuetRRFOutputDevice.OnCheckStatus | DuetRRFOutputDevice.py:261-267 | ignored unless writing; requests status type 3, wired to `OnStatusReceived` |
| OutputDevice.DuetRRFOutputDevice.OnStatusReceived | DuetRRFOutputDevice.py:269-288 | ignored unless writing; a body that is not UTF-8 raises `UnicodeDecodeError`, a non-JSON body `JSONDecodeError`, a JSON value that is not an object `TypeError`, an object without `status` `KeyError`; on `P` or `M`, when a message is set (`messageSet`), a `fractionPrinted` that `float` rejects raises its `ValueError` or `TypeError`; each of these changes nothing; otherwise `P` or `M` polls again and any other status value sends `M37 S0` |
| OutputDevice.DuetRRFOutputDevice.OnSimulationStopped | DuetRRFOutputDevice.py:290-296 | ignored unless writing; sends `M37`, wired to `OnReporting` |
| OutputDevice.DuetRRFOutputDevice.OnReporting | DuetRRFOutputDevice.py:298-304 | ignored unless writing; requests `rr_reply`, wired to `OnReported` |
| OutputDevice.DuetRRFOutputDevice.OnReported | DuetRRFOutputDevice.py:306-325 | ignored unless writing; disconnects, emits `writeSuccess` and cleans up |
| OutputDevice.DuetRRFOutputDevice.CleanupRequest | DuetRRFOutputDevice.py:332-339 | afterwards nothing is pending: stage ready, no request, reply, buffer or file name; nothing is sent or emitted |
| OutputDevice.DuetRRFOutputDevice.OnUploadProgress | DuetRRFOutputDevice.py:348-350 | emits the integer percentage floor(sent * 100 / total) as the progress value iff the total is positive, and changes nothing else |
| OutputDevice.DuetRRFOutputDevice.OnNetworkError | DuetRRFOutputDevice.py:352-366 | in any stage, emits exactly one `writeError`, sends nothing, and then cleans up |
| Sessions.PrintSession | DuetRRFOutputDevice.py:178-251 | a print session issues exactly `ExpectedCalls(Print, ...)` and emits `writeStarted`, the buffering progress and `writeSuccess`, ending cleaned up |
| Sessions.UploadSession | DuetRRFOutputDevice.py:178-223 | an upload session issues exactly `ExpectedCalls(Upload, ...)` with the same notifications, ending cleaned up |
| Sessions.UploadPhase | DuetRRFOutputDevice.py:113-190 | every mode's session starts by buffering the lines, connecting and posting the buffer as `0:/gcodes/<file>`, wired to `OnUploadDone` |
| Sessions.StartPolling | DuetRRFOutputDevice.py:192-239 | in simulate mode an acknowledged upload leads to `M37 S1`, `M32 /gcodes/<file>` and the first status poll |
| Sessions.SimulateSession | DuetRRFOutputDevice.py:178-325 | a simulation whose polls return `codes` issues `ExpectedCalls(Simulate, ...)` with one status poll per code, emits the same notifications and ends cleaned up |
| Sessions.StartSimulation | DuetRRFOutputDevice.py:178-267 | up to the first status poll, a simulation issues connect, upload, `M37 S1`, `M32`, status, in that order |
| Sessions.PollUntilStopped | DuetRRFOutputDevice.py:269-288 | each "still simulating" reply adds one status poll; the first other code sends `M37 S0`; no notification is emitted |
| Sessions.FinishSimulation | DuetRRFOutputDevice.py:290-325 | after `M37 S0`, a simulation sends `M37`, `rr_reply` and disconnect, emits `writeSuccess` and cleans up |
| Sessions.ConnectRefused | DuetRRFOutputDevice.py:178-182 | a failed connect emits `writeError`; no upload follows, even if `finished` still fires |
| Sessions.BusyWhileWriting | DuetRRFOutputDevice.py:113-115 | a second write during a session raises `DeviceBusy`; stage, file name, buffer, request in flight, log and signals are those the accepted session left |
| Sessions.CleanupTwice | DuetRRFOutputDevice.py:332-339 | cleanup is idempotent and emits nothing |
| Sessions.ErrorAfterSuccess | DuetRRFOutputDevice.py:352-366 | a network error after a finished print still emits `writeError`, so the last two signals are `writeSuccess`, `writeError` |
| Plugin.ValidName | DuetRRFPlugin.py:124-134 | an empty name is refused; keeping the old name is accepted; any other name is accepted iff no instance has it |
| Plugin.InstanceUrl | DuetRRFPlugin.py:72-76 | a URL is returned iff the instance exists, and it is the stored one |
| Plugin.InstanceDuetPassword | DuetRRFPlugin.py:78-82 | a board password is returned iff the instance exists, and it is the stored one |
| Plugin.InstanceHTTPUser | DuetRRFPlugin.py:84-88 | an HTTP user is returned iff the instance exists, and it is the stored one |
| Plugin.InstanceHTTPPassword | DuetRRFPlugin.py:90-94 | an HTTP password is returned iff the instance exists, and it is the stored one |
| Plugin.ServerList | DuetRRFPlugin.py:67-70 | the server list holds every instance name exactly once |
| Plugin.SavedInstances | DuetRRFPlugin.py:99-108 | a save stores the instance under the new name, drops the old name on a rename, and keeps every other instance |
| Plugin.LookupAfterSave | DuetRRFPlugin.py:72-108 | after a save, every lookup of the saved name returns the saved settings |
| Plugin.ValidNameProtectsOthers | DuetRRFPlugin.py:96-134 | saving under a name `validName` accepted never overwrites an instance other than the one being renamed |
| Plugin.RemoveUndoesSave | DuetRRFPlugin.py:103-120 | adding a new instance and removing it again gives back the registry |
| Plugin.DeviceIds | DuetRRFPlugin.py:43-45 | an instance's devices are exactly its print, simulate and upload ids |
| Plugin.DeviceIdsDisjoint | DuetRRFPlugin.py:43-45 | two different instances never share a device id |
| Plugin.SavedDevicesAsWritten | DuetRRFPlugin.py:99-111 | as written, a save registers the saved instance's three devices and adds nothing else; on a rename it removes the id `oldName` unless the new name registers it again, and keeps every other registered device, so every device of the old name stays |
| Plugin.SavedDevices | DuetRRFPlugin.py:99-111 | corrected, a save registers the saved instance's three devices, adds nothing else, removes the old name's three devices on a rename and keeps every other registered device |
| Plugin.RenameLeavesStaleDevices | DuetRRFPlugin.py:99-100 | as written, renaming `a` to `b` leaves `a-print` registered with no instance behind it |
| Plugin.RenameRemovesAnotherInstancesDevice | DuetRRFPlugin.py:99-100 | as written, renaming an instance named `a-print` (a name `validName` accepts beside `a`) to `b` unregisters instance `a`'s print device; the corrected bookkeeping keeps it |
| Plugin.SaveKeepsDevicesRegistered | DuetRRFPlugin.py:96-111 | with the old instance's three ids removed on a rename, every registered device belongs to an instance and the saved instance's three devices are registered |
| Plugin.DuetRRFPlugin.constructor | DuetRRFPlugin.py:22-31 | the plugin starts with the stored registry and no registered devices |
| Plugin.DuetRRFPlugin.Start | DuetRRFPlugin.py:33-38 | registers the three devices of every instance; the registry is unchanged |
| Plugin.DuetRRFPlugin.Stop | DuetRRFPlugin.py:40-45 | unregisters the three devices of every instance; the registry is unchanged |
| Plugin.DuetRRFPlugin.SaveInstance | DuetRRFPlugin.py:96-113 | the registry becomes `SavedInstances`; the devices follow `SavedDevices`, the corrected bookkeeping of "## Findings", so every registered device keeps an instance |
| Plugin.DuetRRFPlugin.RemoveInstance | DuetRRFPlugin.py:115-122 | unregisters the three devices, then deletes the instance; raises `KeyError` iff the name is absent, leaving the registry unchanged |

## Left out

- Qt networking is modelled only as requests and wiring. The network manager,
  header bytes (`User-Agent`, `Accept`, `Connection`, `Content-Type`) and base64
  encoding of the credentials are left out. Replies are delivered by calling
  the wired handler.
- Messages, dialogs, logging and translations are UI. This covers the upload
  dialog and `onFilenameChanged` (the accepted text is a parameter),
  `_onMessageActionTriggered`, the settings dialog and `_createDialog` /
  `_showDialog`.
- The clock is not modelled. The timestamp is a parameter. Whether the 50 ms
  yield deadline passed at each buffered line is the `ticks` parameter.
- `QCoreApplication.processEvents` during buffering is not modelled, nor any
  reply that might be delivered during it.
- The one-second `QTimer.singleShot` before a re-poll is modelled as a direct
  call of `OnCheckStatus`.
- JSON decoding of the status body is not modelled. The body arrives already
  decoded as `StatusBody`, whose values keep the text of strings and only the
  kind of every other value. The progress value `float` computes is only
  shown in a message and is left out with the floating point it needs. Only
  whether `float` raises, and which exception, is modelled.
- Protocol.FloatError: a JSON number always converts. `float` of an integer
  too large for a double (a 400-digit literal) raises `OverflowError`; the
  model keeps only the kind of a number, not its size.
- OutputDevice.DuetRRFOutputDevice.OnStatusReceived: whether a message is set
  is the `messageSet` parameter. The messages themselves, and the "Open
  Browser" action that clears them, are user interface and are not modelled.
- The sessions in `Sessions` deliver no `uploadProgress` event while the
  upload is posted. Their notifications are those of an upload that reports
  no progress. `OnUploadProgress` alone covers those events, and it changes
  no request.
- Protocol.FloatLiteral: Python's `float` also accepts non-ASCII decimal
  digits and Unicode white space. The model accepts only ASCII digits and the
  six ASCII white-space characters, so such strings are modelled as raising
  `ValueError`.
- `urlencode` percent-escaping is not modelled. Keys and values are joined
  verbatim as `k=v&k=v`.
- The G-code comes from the scene's per-build-plate dictionary. Here it is the
  `gcode` parameter.
- `os.path.splitext` is modelled for POSIX paths only.
- Preferences storage (`json.dumps` into `duetrrf/instances`) and the
  `serverListChanged` notification are left out. The constructor takes the
  stored registry.
- Plugin.ServerList: the order of the names is not modelled, only that each
  name appears exactly once.
- The host's output-device manager is modelled only as the set of registered
  ids. What it does when an id is added twice is not part of this model.
- Plugin.DuetRRFPlugin.SaveInstance: the class applies the fix recorded under
  "## Findings". On a rename it removes the old name's three device ids. The
  code removes only the id `oldName`. That is never a device of the old
  instance, but it is instance `a`'s print device when the old name is
  `a-print`. The class
  invariant `Valid()` (every registered device belongs to an instance) holds
  for the fixed program only. The behaviour as written is
  `Plugin.SavedDevicesAsWritten`.
- OutputDevice.DuetRRFOutputDevice.OnUploadProgress: the reply's progress is
  not tied to the size of the uploaded buffer. Any byte counts may be
  reported.
- OutputDevice.DuetRRFOutputDevice.OnFilenameAccepted: the buffer is modelled
  as a string value. `StringIO` writes and `seek(0)` are not modelled as I/O.

## Findings

| source | as written | input that shows it | evidently intended | confidence | as-written member | corrected member |
|---|---|---|---|---|---|---|
| DuetRRFPlugin.py:99-100 | on a rename, `saveInstance` removes the output device with id `oldName`; devices are registered as `oldName-print`, `oldName-simulate` and `oldName-upload`, so none of the old instance's devices is removed, and when the old name is itself another instance's device id, that device is removed instead | rename instance `a` to `b`: `a-print`, `a-simulate` and `a-upload` stay registered, though instance `a` is gone; with instances `a` and `a-print`, rename `a-print` to `b`: instance `a`'s device `a-print` is unregistered | remove the three per-mode devices of the old name, as `removeInstance` does | not executed | Plugin.SavedDevicesAsWritten, Plugin.RenameLeavesStaleDevices, Plugin.RenameRemovesAnotherInstancesDevice | Plugin.SavedDevices, Plugin.SaveKeepsDevicesRegistered |
