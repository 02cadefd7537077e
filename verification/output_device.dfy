/**
 * One DuetRRF output device: the upload / print / simulate session sequencer.
 * Every network completion is a method the caller fires; each one checks the
 * stage and then issues the next `rr_*` command through `Send`.
 */
module OutputDevice {
  import opened Wrappers
  import opened Protocol

  /** Python's `StringIO` buffer: what was written to it and whether it was closed. */
  datatype Stream = Stream(contents: string, closed: bool)

  /** The reply slot: the request in flight and the handler wired to its `finished` signal. */
  datatype Reply = Reply(request: Request, next: Option<Callback>)

  class DuetRRFOutputDevice {
    const deviceType: DeviceType
    const name: string
    const id: string
    const priority: int
    const url: string
    const duetPassword: string
    const httpUser: Option<string>
    const httpPassword: Option<string>

    var stage: Stage
    var fileName: Option<string>
    var stream: Option<Stream>
    var request: Option<Request>
    var reply: Option<Reply>
    /** Every request issued, in order. */
    ghost var log: seq<Call>
    /** Every notification emitted, in order. */
    ghost var signals: seq<Signal>

    ghost predicate Valid()
      reads this
    {
      && EndsWith(url, "/")
      && id == DeviceId(name, deviceType)
      && priority == Priority(deviceType)
      && (reply.None? <==> request.None?)
      && (reply.Some? ==> request == Some(reply.value.request))
      && (stage == Writing ==> fileName.Some? && stream.Some?)
      && (stage == Ready ==> stream.None?)
    }

    /** The state `_cleanupRequest` leaves behind. */
    ghost predicate Cleaned()
      reads this
    {
      stage == Ready && fileName.None? && stream.None? && request.None? && reply.None?
    }

    /** `c` was appended to `prior`, the request in the slot is the one `c` describes,
        and its reply is wired to `next`. */
    ghost predicate Issued(prior: seq<Call>, c: Call, next: Option<Callback>)
      reads this
    {
      && log == prior + [c]
      && request == Some(BuildRequest(url, c.command, c.query, httpUser, httpPassword, c.body))
      && reply == Some(Reply(request.value, next))
    }

    /** The session ended well: a final disconnect, `writeSuccess`, then cleanup. */
    ghost predicate Succeeded(priorLog: seq<Call>, priorSignals: seq<Signal>)
      reads this
    {
      log == priorLog + [DisconnectCall] && signals == priorSignals + [WriteSuccess] && Cleaned()
    }

    constructor (name: string, url: string, duetPassword: string,
                 httpUser: Option<string>, httpPassword: Option<string>, deviceType: DeviceType)
      ensures Valid() && Cleaned()
      ensures this.name == name && this.url == NormaliseUrl(url) && this.deviceType == deviceType
      ensures this.duetPassword == duetPassword && this.httpUser == httpUser && this.httpPassword == httpPassword
      ensures id == DeviceId(name, deviceType) && priority == Priority(deviceType)
      ensures log == [] && signals == []
    {
      this.deviceType := deviceType;
      this.name := name;
      this.id := DeviceId(name, deviceType);
      this.priority := Priority(deviceType);
      this.url := NormaliseUrl(url);
      this.duetPassword := duetPassword;
      this.httpUser := httpUser;
      this.httpPassword := httpPassword;
      stage := Ready;
      fileName := None;
      stream := None;
      request := None;
      reply := None;
      log := [];
      signals := [];
    }

    /** Builds and issues one request, overwriting the request/reply slot. */
    method Send(command: string, query: Query, next: Option<Callback>, data: Option<string>)
      requires Valid()
      modifies this
      ensures Valid()
      ensures request == Some(BuildRequest(url, command, query, httpUser, httpPassword, data))
      ensures reply == Some(Reply(request.value, next))
      ensures Issued(old(log), CallOf(command, query, data), next)
      ensures stage == old(stage) && fileName == old(fileName) && stream == old(stream)
      ensures signals == old(signals)
    {
      var r := BuildRequest(url, command, query, httpUser, httpPassword, data);
      request := Some(r);
      reply := Some(Reply(r, next));
      log := log + [CallOf(command, query, data)];
    }

    /** Asks to write a file: refused while a session runs, otherwise records the proposed name. */
    method RequestWrite(supplied: Option<string>, jobName: string) returns (e: Effect)
      requires Valid()
      modifies this
      ensures Valid()
      ensures e == Raised(DeviceBusy) <==> old(stage) == Writing
      ensures e == Raised(DeviceBusy) ==> unchanged(this)
      ensures old(stage) == Ready ==>
        e == Done && fileName == Some(SuppliedFileName(supplied, jobName))
        && stage == Ready && stream == old(stream) && request == old(request) && reply == old(reply)
        && log == old(log) && signals == old(signals)
    {
      if stage != Ready {
        return Raised(DeviceBusy);
      }
      fileName := Some(SuppliedFileName(supplied, jobName));
      e := Done;
    }

    /** The name dialog was accepted: opens the session, buffers the G-code and connects.
        `ticks[i]` says whether the 50 ms yield deadline had passed at line `i`. */
    method OnFilenameAccepted(text: string, gcode: seq<string>, ticks: seq<bool>, now: string)
      requires Valid()
      modifies this
      ensures Valid()
      ensures stage == Writing && fileName == Some(AcceptedFileName(text))
      ensures stream == Some(Stream(Concat(gcode), false))
      ensures signals == old(signals) + [WriteStarted] + BufferProgress(|gcode|, ticks, |gcode|)
      ensures Issued(old(log), ConnectCall(duetPassword, now), Some(Callback.OnConnected))
    {
      fileName := Some(AcceptedFileName(text));
      stream := Some(Stream("", false));
      stage := Writing;
      signals := signals + [WriteStarted];
      BufferGcode(gcode, ticks);
      Send("connect", [("password", duetPassword), ("time", now)], Some(Callback.OnConnected), None);
    }

    /** The buffering loop: writes the lines to the empty open buffer in order,
        reporting `i / lines` whenever the yield deadline has passed. */
    method BufferGcode(gcode: seq<string>, ticks: seq<bool>)
      requires Valid() && stage == Writing && stream == Some(Stream("", false))
      modifies this
      ensures Valid() && stage == Writing && fileName == old(fileName)
      ensures stream == Some(Stream(Concat(gcode), false))
      ensures signals == old(signals) + BufferProgress(|gcode|, ticks, |gcode|)
      ensures log == old(log) && request == old(request) && reply == old(reply)
    {
      var i := 0;
      while i < |gcode|
        invariant 0 <= i <= |gcode|
        invariant Valid() && stage == Writing && fileName == old(fileName)
        invariant stream == Some(Stream(Concat(gcode[..i]), false))
        invariant signals == old(signals) + BufferProgress(|gcode|, ticks, i)
        invariant log == old(log) && request == old(request) && reply == old(reply)
      {
        i := i + 1;
        assert gcode[..i][..i - 1] == gcode[..i - 1];
        stream := Some(Stream(stream.value.contents + gcode[i - 1], false));
        if i - 1 < |ticks| && ticks[i - 1] {
          signals := signals + [WriteProgress(i, |gcode|)];
        }
      }
      assert gcode[..i] == gcode;
    }

    /** Connected: uploads the buffer to `0:/gcodes/<file>`. */
    method OnConnected(now: string) returns (e: Effect)
      requires Valid()
      modifies this
      ensures Valid()
      ensures e == Ignored <==> old(stage) == Ready
      ensures e == Ignored ==> unchanged(this)
      ensures old(stage) == Writing && old(stream).value.closed ==> e == Raised(ValueError) && unchanged(this)
      ensures old(stage) == Writing && !old(stream).value.closed ==>
        e == Done && stage == Writing && fileName == old(fileName) && stream == old(stream)
        && signals == old(signals)
        && Issued(old(log), UploadCall(old(fileName).value, now, old(stream).value.contents), Some(Callback.OnUploadDone))
    {
      if stage != Writing {
        return Ignored;
      }
      if stream.value.closed {
        return Raised(ValueError);
      }
      Send("upload", [("name", "0:/gcodes/" + fileName.value), ("time", now)],
           Some(Callback.OnUploadDone), Some(stream.value.contents));
      e := Done;
    }

    /** Upload finished: closes the buffer, then branches on the mode. */
    method OnUploadDone() returns (e: Effect)
      requires Valid()
      modifies this
      ensures Valid()
      ensures e == Ignored <==> old(stage) == Ready
      ensures e == Ignored ==> unchanged(this)
      ensures old(stage) == Writing ==> e == Done
      ensures old(stage) == Writing && deviceType != Upload ==>
        stage == Writing && fileName == old(fileName)
        && stream == Some(old(stream).value.(closed := true)) && signals == old(signals)
      ensures old(stage) == Writing && deviceType == Simulate ==>
        Issued(old(log), GcodeCall("M37 S1"), Some(Callback.OnReadyToPrint))
      ensures old(stage) == Writing && deviceType == Print ==>
        Issued(old(log), GcodeCall(StartPrintCode(old(fileName).value)), Some(Callback.OnPrintStarted))
      ensures old(stage) == Writing && deviceType == Upload ==> Succeeded(old(log), old(signals))
    {
      if stage != Writing {
        return Ignored;
      }
      stream := Some(stream.value.(closed := true));
      match deviceType
      case Simulate =>
        Send("gcode", [("gcode", "M37 S1")], Some(Callback.OnReadyToPrint), None);
        e := Done;
      case Print =>
        e := OnReadyToPrint();
      case Upload =>
        Send("disconnect", [], None, None);
        signals := signals + [WriteSuccess];
        CleanupRequest();
        e := Done;
    }

    /** Starts printing the uploaded file with `M32`. */
    method OnReadyToPrint() returns (e: Effect)
      requires Valid()
      modifies this
      ensures Valid()
      ensures e == Ignored <==> old(stage) == Ready
      ensures e == Ignored ==> unchanged(this)
      ensures old(stage) == Writing ==>
        e == Done && stage == Writing && fileName == old(fileName) && stream == old(stream)
        && signals == old(signals)
        && Issued(old(log), GcodeCall(StartPrintCode(old(fileName).value)), Some(Callback.OnPrintStarted))
    {
      if stage != Writing {
        return Ignored;
      }
      Send("gcode", [("gcode", "M32 /gcodes/" + fileName.value)], Some(Callback.OnPrintStarted), None);
      e := Done;
    }

    /** Print acknowledged: a simulation starts polling; otherwise the session succeeds. */
    method OnPrintStarted() returns (e: Effect)
      requires Valid()
      modifies this
      ensures Valid()
      ensures e == Ignored <==> old(stage) == Ready
      ensures e == Ignored ==> unchanged(this)
      ensures old(stage) == Writing ==> e == Done
      ensures old(stage) == Writing && deviceType == Simulate ==>
        stage == Writing && fileName == old(fileName) && stream == old(stream) && signals == old(signals)
        && Issued(old(log), StatusCall, Some(Callback.OnStatusReceived))
      ensures old(stage) == Writing && deviceType != Simulate ==> Succeeded(old(log), old(signals))
    {
      if stage != Writing {
        return Ignored;
      }
      if deviceType == Simulate {
        e := OnCheckStatus();
      } else {
        Send("disconnect", [], None, None);
        signals := signals + [WriteSuccess];
        CleanupRequest();
        e := Done;
      }
    }

    /** The simulation ended: stops simulation mode with `M37 S0`. */
    method OnSimulatedPrintFinished() returns (e: Effect)
      requires Valid()
      modifies this
      ensures Valid()
      ensures e == Ignored <==> old(stage) == Ready
      ensures e == Ignored ==> unchanged(this)
      ensures old(stage) == Writing ==>
        e == Done && stage == Writing && fileName == old(fileName) && stream == old(stream)
        && signals == old(signals)
        && Issued(old(log), GcodeCall("M37 S0"), Some(Callback.OnSimulationStopped))
    {
      if stage != Writing {
        return Ignored;
      }
      Send("gcode", [("gcode", "M37 S0")], Some(Callback.OnSimulationStopped), None);
      e := Done;
    }

    /** Polls the device status (`type=3`). */
    method OnCheckStatus() returns (e: Effect)
      requires Valid()
      modifies this
      ensures Valid()
      ensures e == Ignored <==> old(stage) == Ready
      ensures e == Ignored ==> unchanged(this)
      ensures old(stage) == Writing ==>
        e == Done && stage == Writing && fileName == old(fileName) && stream == old(stream)
        && signals == old(signals)
        && Issued(old(log), StatusCall, Some(Callback.OnStatusReceived))
    {
      if stage != Writing {
        return Ignored;
      }
      Send("status", [("type", "3")], Some(Callback.OnStatusReceived), None);
      e := Done;
    }

    /** A status reply arrived: poll again while `P` or `M`, otherwise stop the simulation.
        A body that is not UTF-8 or not JSON, or that lacks `status`, raises before
        anything changes. While still simulating, `fractionPrinted` is converted
        only when a message is set (`messageSet`, user-interface state that an
        earlier message's "Open Browser" action can clear), and a value `float`
        rejects raises too. */
    method OnStatusReceived(body: StatusBody, messageSet: bool) returns (e: Effect)
      requires Valid()
      modifies this
      ensures Valid()
      ensures e == Ignored <==> old(stage) == Ready
      ensures e == Ignored ==> unchanged(this)
      ensures old(stage) == Writing && body.NotUtf8? ==> e == Raised(UnicodeDecodeError) && unchanged(this)
      ensures old(stage) == Writing && body.Malformed? ==> e == Raised(JsonDecodeError) && unchanged(this)
      ensures old(stage) == Writing && body.NotObject? ==> e == Raised(TypeError) && unchanged(this)
      ensures old(stage) == Writing && body.Object? && "status" !in body.fields ==>
        e == Raised(KeyError) && unchanged(this)
      ensures (old(stage) == Writing && body.Object? && "status" in body.fields && messageSet &&
               StillSimulatingValue(body.fields["status"]) && ProgressError(body.fields).Some?) ==>
        e == Raised(ProgressError(body.fields).value) && unchanged(this)
      ensures (old(stage) == Writing && body.Object? && "status" in body.fields &&
               !(messageSet && StillSimulatingValue(body.fields["status"]) && ProgressError(body.fields).Some?)) ==>
        e == Done && stage == Writing && fileName == old(fileName) && stream == old(stream)
        && signals == old(signals)
        && if StillSimulatingValue(body.fields["status"])
           then Issued(old(log), StatusCall, Some(Callback.OnStatusReceived))
           else Issued(old(log), GcodeCall("M37 S0"), Some(Callback.OnSimulationStopped))
    {
      if stage != Writing {
        return Ignored;
      }
      match body
      case NotUtf8 =>
        return Raised(UnicodeDecodeError);
      case Malformed =>
        return Raised(JsonDecodeError);
      case NotObject =>
        return Raised(TypeError);
      case Object(fields) =>
        if "status" !in fields {
          return Raised(KeyError);
        }
        if StillSimulatingValue(fields["status"]) {
          var progress := ProgressError(fields);
          if messageSet && progress.Some? {
            return Raised(progress.value);
          }
          e := OnCheckStatus();
        } else {
          e := OnSimulatedPrintFinished();
        }
    }

    /** Simulation mode left: asks for the report with `M37`. */
    method OnSimulationStopped() returns (e: Effect)
      requires Valid()
      modifies this
      ensures Valid()
      ensures e == Ignored <==> old(stage) == Ready
      ensures e == Ignored ==> unchanged(this)
      ensures old(stage) == Writing ==>
        e == Done && stage == Writing && fileName == old(fileName) && stream == old(stream)
        && signals == old(signals)
        && Issued(old(log), GcodeCall("M37"), Some(Callback.OnReporting))
    {
      if stage != Writing {
        return Ignored;
      }
      Send("gcode", [("gcode", "M37")], Some(Callback.OnReporting), None);
      e := Done;
    }

    /** Fetches the device's textual reply. */
    method OnReporting() returns (e: Effect)
      requires Valid()
      modifies this
      ensures Valid()
      ensures e == Ignored <==> old(stage) == Ready
      ensures e == Ignored ==> unchanged(this)
      ensures old(stage) == Writing ==>
        e == Done && stage == Writing && fileName == old(fileName) && stream == old(stream)
        && signals == old(signals)
        && Issued(old(log), ReplyCall, Some(Callback.OnReported))
    {
      if stage != Writing {
        return Ignored;
      }
      Send("reply", [], Some(Callback.OnReported), None);
      e := Done;
    }

    /** The report arrived: disconnects and the simulation session succeeds. */
    method OnReported() returns (e: Effect)
      requires Valid()
      modifies this
      ensures Valid()
      ensures e == Ignored <==> old(stage) == Ready
      ensures e == Ignored ==> unchanged(this)
      ensures old(stage) == Writing ==> e == Done && Succeeded(old(log), old(signals))
    {
      if stage != Writing {
        return Ignored;
      }
      Send("disconnect", [], None, None);
      signals := signals + [WriteSuccess];
      CleanupRequest();
      e := Done;
    }

    /** Ends the session whatever its state: releases the buffer and the request slot. */
    method CleanupRequest()
      requires Valid()
      modifies this
      ensures Valid() && Cleaned()
      ensures log == old(log) && signals == old(signals)
    {
      reply := None;
      request := None;
      stream := None;
      stage := Ready;
      fileName := None;
    }

    /** Upload progress of a POST, reported as an integer percentage when the total is known. */
    method OnUploadProgress(bytesSent: int, bytesTotal: int)
      requires Valid()
      modifies this
      ensures Valid()
      ensures signals == old(signals) + match UploadPercent(bytesSent, bytesTotal)
                                        case Some(p) => [WriteProgress(p, 1)]
                                        case None => []
      ensures stage == old(stage) && fileName == old(fileName) && stream == old(stream)
      ensures request == old(request) && reply == old(reply) && log == old(log)
    {
      if bytesTotal > 0 {
        signals := signals + [WriteProgress(TruncDiv(bytesSent * 100, bytesTotal), 1)];
      }
    }

    /** A transport error on any reply: `writeError`, then cleanup. The stage is not checked. */
    method OnNetworkError(errorCode: int)
      requires Valid()
      modifies this
      ensures Valid() && Cleaned()
      ensures signals == old(signals) + [WriteError] && log == old(log)
    {
      signals := signals + [WriteError];
      CleanupRequest();
    }
  }
}
