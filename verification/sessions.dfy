/**
 * Whole sessions, driven the way Qt delivers completions: each step fires the
 * handler that the previous request wired to its reply. The contracts tie the
 * issued requests to `Protocol.ExpectedCalls` and list the notifications.
 * The sessions deliver no `uploadProgress` event while the upload is posted,
 * so their notifications are those of an upload that reports no progress;
 * `OnUploadProgress` changes only the notifications, never the requests.
 */
module Sessions {
  import opened Wrappers
  import opened Protocol
  import opened OutputDevice

  /** Print mode: connect, upload, `M32`, disconnect; then `writeSuccess` and cleanup. */
  method PrintSession(d: DuetRRFOutputDevice, supplied: Option<string>, jobName: string, accepted: string,
                      gcode: seq<string>, ticks: seq<bool>, connectTime: string, uploadTime: string)
    requires d.Valid() && d.stage == Ready && d.deviceType == Print
    modifies d
    ensures d.Valid() && d.Cleaned()
    ensures d.log == old(d.log)
      + ExpectedCalls(Print, d.duetPassword, AcceptedFileName(accepted), Concat(gcode), connectTime, uploadTime, 0)
    ensures d.signals == old(d.signals) + [WriteStarted] + BufferProgress(|gcode|, ticks, |gcode|) + [WriteSuccess]
  {
    UploadPhase(d, supplied, jobName, accepted, gcode, ticks, connectTime, uploadTime);
    var e := d.OnUploadDone();
    e := d.OnPrintStarted();
  }

  /** Upload-only mode: connect, upload, disconnect; no G-code is executed. */
  method UploadSession(d: DuetRRFOutputDevice, supplied: Option<string>, jobName: string, accepted: string,
                       gcode: seq<string>, ticks: seq<bool>, connectTime: string, uploadTime: string)
    requires d.Valid() && d.stage == Ready && d.deviceType == Upload
    modifies d
    ensures d.Valid() && d.Cleaned()
    ensures d.log == old(d.log)
      + ExpectedCalls(Upload, d.duetPassword, AcceptedFileName(accepted), Concat(gcode), connectTime, uploadTime, 0)
    ensures d.signals == old(d.signals) + [WriteStarted] + BufferProgress(|gcode|, ticks, |gcode|) + [WriteSuccess]
  {
    UploadPhase(d, supplied, jobName, accepted, gcode, ticks, connectTime, uploadTime);
    var e := d.OnUploadDone();
  }

  /** The part every mode shares: the write is requested, the name accepted, the
      G-code buffered, the connect acknowledged and the upload posted (with no
      progress reported for it). */
  method UploadPhase(d: DuetRRFOutputDevice, supplied: Option<string>, jobName: string, accepted: string,
                     gcode: seq<string>, ticks: seq<bool>, connectTime: string, uploadTime: string)
    requires d.Valid() && d.stage == Ready
    modifies d
    ensures d.Valid() && d.stage == Writing && d.fileName == Some(AcceptedFileName(accepted))
    ensures d.stream == Some(Stream(Concat(gcode), false))
    ensures d.Issued(old(d.log) + [ConnectCall(d.duetPassword, connectTime)],
                     UploadCall(AcceptedFileName(accepted), uploadTime, Concat(gcode)), Some(Callback.OnUploadDone))
    ensures d.signals == old(d.signals) + [WriteStarted] + BufferProgress(|gcode|, ticks, |gcode|)
  {
    var e := d.RequestWrite(supplied, jobName);
    d.OnFilenameAccepted(accepted, gcode, ticks, connectTime);
    e := d.OnConnected(uploadTime);
  }

  /** Simulate mode: `codes` are the status codes the polls return, every one but the
      last saying the simulation still runs. */
  method SimulateSession(d: DuetRRFOutputDevice, supplied: Option<string>, jobName: string, accepted: string,
                         gcode: seq<string>, ticks: seq<bool>, connectTime: string, uploadTime: string,
                         codes: seq<string>)
    requires d.Valid() && d.stage == Ready && d.deviceType == Simulate
    requires |codes| > 0 && !StillSimulating(codes[|codes| - 1])
    requires forall i :: 0 <= i < |codes| - 1 ==> StillSimulating(codes[i])
    modifies d
    ensures d.Valid() && d.Cleaned()
    ensures d.log == old(d.log)
      + ExpectedCalls(Simulate, d.duetPassword, AcceptedFileName(accepted), Concat(gcode),
                      connectTime, uploadTime, |codes| - 1)
    ensures d.signals == old(d.signals) + [WriteStarted] + BufferProgress(|gcode|, ticks, |gcode|) + [WriteSuccess]
  {
    var file := AcceptedFileName(accepted);
    StartSimulation(d, supplied, jobName, accepted, gcode, ticks, connectTime, uploadTime);
    ghost var started := d.log;
    PollUntilStopped(d, codes);
    ghost var stopped := d.log;
    FinishSimulation(d);
    SimulateLogComposes(old(d.log), started, stopped, d.log, d.duetPassword, file, Concat(gcode),
                        connectTime, uploadTime, |codes| - 1);
  }

  /** Glues the three phases of a simulation's log into `ExpectedCalls`. */
  lemma SimulateLogComposes(initial: seq<Call>, started: seq<Call>, stopped: seq<Call>, final: seq<Call>,
                            password: string, file: string, buffer: string, t1: string, t2: string, polls: nat)
    requires started == initial + [ConnectCall(password, t1), UploadCall(file, t2, buffer),
                                   GcodeCall("M37 S1"), GcodeCall(StartPrintCode(file))] + [StatusCall]
    requires stopped == started + Repeat(StatusCall, polls) + [GcodeCall("M37 S0")]
    requires final == stopped + [GcodeCall("M37"), ReplyCall, DisconnectCall]
    ensures final == initial + ExpectedCalls(Simulate, password, file, buffer, t1, t2, polls)
  {
    SimulateCallsSplit(password, file, buffer, t1, t2, polls);
  }

  /** Simulate mode after `M37 S0` was acknowledged: `M37`, reply, disconnect, success. */
  method FinishSimulation(d: DuetRRFOutputDevice)
    requires d.Valid() && d.stage == Writing
    modifies d
    ensures d.Valid() && d.Cleaned()
    ensures d.log == old(d.log) + [GcodeCall("M37"), ReplyCall, DisconnectCall]
    ensures d.signals == old(d.signals) + [WriteSuccess]
  {
    var e := d.OnSimulationStopped();
    assert d.reply.value.next == Some(Callback.OnReporting);
    e := d.OnReporting();
    assert d.reply.value.next == Some(Callback.OnReported);
    e := d.OnReported();
  }

  /** Simulate mode up to the first status poll: connect, upload, `M37 S1`, `M32`, status. */
  method StartSimulation(d: DuetRRFOutputDevice, supplied: Option<string>, jobName: string, accepted: string,
                         gcode: seq<string>, ticks: seq<bool>, connectTime: string, uploadTime: string)
    requires d.Valid() && d.stage == Ready && d.deviceType == Simulate
    modifies d
    ensures d.Valid() && d.stage == Writing && d.fileName == Some(AcceptedFileName(accepted))
    ensures d.Issued(old(d.log)
      + [ConnectCall(d.duetPassword, connectTime), UploadCall(AcceptedFileName(accepted), uploadTime, Concat(gcode)),
         GcodeCall("M37 S1"), GcodeCall(StartPrintCode(AcceptedFileName(accepted)))],
      StatusCall, Some(Callback.OnStatusReceived))
    ensures d.signals == old(d.signals) + [WriteStarted] + BufferProgress(|gcode|, ticks, |gcode|)
  {
    var file := AcceptedFileName(accepted);
    UploadPhase(d, supplied, jobName, accepted, gcode, ticks, connectTime, uploadTime);
    ghost var uploaded := d.log;
    StartPolling(d);
    AppendFour(old(d.log), ConnectCall(d.duetPassword, connectTime), UploadCall(file, uploadTime, Concat(gcode)),
               GcodeCall("M37 S1"), GcodeCall(StartPrintCode(file)));
  }

  /** Appending two calls and then two more is appending the four. */
  lemma AppendFour(initial: seq<Call>, a: Call, b: Call, c: Call, d: Call)
    ensures (initial + [a]) + [b] + [c, d] == initial + [a, b, c, d]
  {
  }

  /** Simulate mode once the upload is acknowledged: `M37 S1`, `M32`, then the first status poll. */
  method StartPolling(d: DuetRRFOutputDevice)
    requires d.Valid() && d.stage == Writing && d.deviceType == Simulate
    requires d.reply.Some? && d.reply.value.next == Some(Callback.OnUploadDone)
    modifies d
    ensures d.Valid() && d.stage == Writing && d.fileName == old(d.fileName)
    ensures d.stream == Some(old(d.stream).value.(closed := true))
    ensures d.Issued(old(d.log) + [GcodeCall("M37 S1"), GcodeCall(StartPrintCode(old(d.fileName).value))],
                     StatusCall, Some(Callback.OnStatusReceived))
    ensures d.signals == old(d.signals)
  {
    var e := d.OnUploadDone();
    e := d.OnReadyToPrint();
    e := d.OnPrintStarted();
  }

  /** The polling phase: one more status request per "still simulating" reply,
      then `M37 S0` once the device reports anything else. The replies carry only
      `status`, so no progress value is converted. */
  method PollUntilStopped(d: DuetRRFOutputDevice, codes: seq<string>)
    requires d.Valid() && d.stage == Writing
    requires d.reply.Some? && d.reply.value.next == Some(Callback.OnStatusReceived)
    requires |codes| > 0 && !StillSimulating(codes[|codes| - 1])
    requires forall i :: 0 <= i < |codes| - 1 ==> StillSimulating(codes[i])
    modifies d
    ensures d.Valid() && d.stage == Writing && d.fileName == old(d.fileName) && d.stream == old(d.stream)
    ensures d.Issued(old(d.log) + Repeat(StatusCall, |codes| - 1), GcodeCall("M37 S0"), Some(Callback.OnSimulationStopped))
    ensures d.signals == old(d.signals)
  {
    var i := 0;
    while i < |codes| - 1
      invariant 0 <= i <= |codes| - 1
      invariant d.Valid() && d.stage == Writing
      invariant d.fileName == old(d.fileName) && d.stream == old(d.stream)
      invariant d.reply.Some? && d.reply.value.next == Some(Callback.OnStatusReceived)
      invariant d.log == old(d.log) + Repeat(StatusCall, i)
      invariant d.signals == old(d.signals)
    {
      var e := d.OnStatusReceived(Object(map["status" := JsonString(codes[i])]), true);
      i := i + 1;
    }
    var e := d.OnStatusReceived(Object(map["status" := JsonString(codes[i])]), true);
  }

  /** The connect request fails: `writeError`, no upload, and the late `finished` is ignored. */
  method ConnectRefused(d: DuetRRFOutputDevice, accepted: string, gcode: seq<string>, ticks: seq<bool>,
                        connectTime: string, uploadTime: string, errorCode: int)
    requires d.Valid() && d.stage == Ready
    modifies d
    ensures d.Valid() && d.Cleaned()
    ensures d.log == old(d.log) + [ConnectCall(d.duetPassword, connectTime)]
    ensures d.signals == old(d.signals) + [WriteStarted] + BufferProgress(|gcode|, ticks, |gcode|) + [WriteError]
  {
    d.OnFilenameAccepted(accepted, gcode, ticks, connectTime);
    d.OnNetworkError(errorCode);
    var e := d.OnConnected(uploadTime);
    assert e == Ignored;
  }

  /** While a session runs, a second write is refused and the session is untouched. */
  method BusyWhileWriting(d: DuetRRFOutputDevice, accepted: string, gcode: seq<string>, ticks: seq<bool>,
                          connectTime: string, supplied: Option<string>, jobName: string)
    returns (e: Effect)
    requires d.Valid() && d.stage == Ready
    modifies d
    ensures e == Raised(DeviceBusy)
    ensures d.Valid() && d.stage == Writing && d.fileName == Some(AcceptedFileName(accepted))
    ensures d.stream == Some(Stream(Concat(gcode), false))
    ensures d.Issued(old(d.log), ConnectCall(d.duetPassword, connectTime), Some(Callback.OnConnected))
    ensures d.signals == old(d.signals) + [WriteStarted] + BufferProgress(|gcode|, ticks, |gcode|)
  {
    d.OnFilenameAccepted(accepted, gcode, ticks, connectTime);
    e := d.RequestWrite(supplied, jobName);
  }

  /** Cleanup twice in a row leaves the same state as once, and emits nothing. */
  method CleanupTwice(d: DuetRRFOutputDevice)
    requires d.Valid()
    modifies d
    ensures d.Valid() && d.Cleaned()
    ensures d.log == old(d.log) && d.signals == old(d.signals)
  {
    d.CleanupRequest();
    d.CleanupRequest();
  }

  /** The network-error handler checks no stage, so an error on the fire-and-forget
      disconnect of a finished print still emits `writeError`, after `writeSuccess`. */
  method ErrorAfterSuccess(d: DuetRRFOutputDevice, accepted: string, gcode: seq<string>, ticks: seq<bool>,
                           connectTime: string, uploadTime: string, errorCode: int)
    requires d.Valid() && d.stage == Ready && d.deviceType == Print
    modifies d
    ensures d.Valid() && d.Cleaned()
    ensures |d.signals| >= 2 && d.signals[|d.signals| - 2..] == [WriteSuccess, WriteError]
  {
    PrintSession(d, None, "", accepted, gcode, ticks, connectTime, uploadTime);
    d.OnNetworkError(errorCode);
  }
}
