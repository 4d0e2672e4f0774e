/**
 * The connection session of serial.go, run sequentially: the Serial object
 * with its stored status and configuration, the port it owns and the flag
 * that stops its read loop.  The physical port is a scripted stand-in
 * (a list of read results and a log of writes), the wall-clock budget of
 * the handshake is a number of read attempts, the port mutex is a no-op,
 * and every call into the GUI, as well as every `go f()`, is an entry in
 * an event log.
 */
module Session {
  import opened GoLib
  import opened FrameCodec

  // ---------------------------------------------------------------------
  // The port

  /** The error half of a Read: nil, io.EOF, or any other I/O error. */
  datatype ReadErr = NoErr | Eof | IoError(msg: string)

  /** What one port.Read(buf) delivered: the bytes read and the error. */
  datatype ReadResult = ReadResult(data: seq<byte>, err: ReadErr)

  /** A read whose timeout expired with nothing to read. */
  const TimedOut := ReadResult([], Eof)

  /** The result of the next read: the next scripted one, or a timeout once the script has run out. */
  function NextRead(script: seq<ReadResult>): ReadResult {
    if script == [] then TimedOut else script[0]
  }

  function AfterRead(script: seq<ReadResult>): seq<ReadResult> {
    if script == [] then [] else script[1..]
  }

  /** The result of the i-th read from now on. */
  function ReadAt(script: seq<ReadResult>, i: nat): ReadResult {
    if i < |script| then script[i] else TimedOut
  }

  /** The reads left after k of them. */
  function Drop(script: seq<ReadResult>, k: nat): seq<ReadResult> {
    if k <= |script| then script[k..] else []
  }

  lemma DropStep(script: seq<ReadResult>, k: nat)
    ensures NextRead(Drop(script, k)) == ReadAt(script, k)
    ensures AfterRead(Drop(script, k)) == Drop(script, k + 1)
  {
  }

  /** A scripted serial port. */
  class Port {
    var script: seq<ReadResult>
    var writeError: Option<string>
    var written: seq<seq<byte>>
    var closeCount: nat

    /** A port whose reads follow `script` and whose writes all fail with `writeError`, if given. */
    constructor (script: seq<ReadResult>, writeError: Option<string>)
      ensures this.script == script && this.writeError == writeError
      ensures written == [] && closeCount == 0
    {
      this.script := script;
      this.writeError := writeError;
      written := [];
      closeCount := 0;
    }

    method Read() returns (r: ReadResult)
      modifies this
      ensures r == NextRead(old(script)) && script == AfterRead(old(script))
      ensures writeError == old(writeError) && written == old(written) && closeCount == old(closeCount)
    {
      r := NextRead(script);
      script := AfterRead(script);
    }

    method Write(b: seq<byte>) returns (err: Option<string>)
      modifies this
      ensures err == writeError
      ensures written == if err.None? then old(written) + [b] else old(written)
      ensures script == old(script) && writeError == old(writeError) && closeCount == old(closeCount)
    {
      err := writeError;
      if err.None? {
        written := written + [b];
      }
    }

    method Close()
      modifies this
      ensures closeCount == old(closeCount) + 1
      ensures script == old(script) && writeError == old(writeError) && written == old(written)
    {
      closeCount := closeCount + 1;
    }
  }

  /** The outcome of serial.OpenPort. */
  datatype OpenResult = Opened(port: Port) | OpenFailed(msg: string)

  // ---------------------------------------------------------------------
  // What the session tells the GUI

  datatype Event =
    | ShowError(message: string, main: bool)
    | ShowMessage(text: string)
    | UpdateStatusPage
    | UpdateConfigPages
    | UpdateActionButtons(enable: bool)
    | CloseMainWindow(selectPort: bool)
    | UpdateConfig(portName: string)
    | QueryConfigStarted   // go ser.queryConfig()
    | ReadPortStarted      // go ser.readPort()

  const ApplySuccessText := "Config successfully applied"
  const HandshakeFailureText := "Couldn't got fan controller status"
  const QueryCommand := "FCQ\r\n"

  /** An error message counts as blank when trimming its spaces leaves nothing. */
  predicate Blank(message: string) {
    |TrimSpaces(message)| == 0
  }

  /** The GUI calls the read loop makes for a decoded frame. */
  function Reaction(f: Frame): seq<Event> {
    match f
    case StatusFrame(_) => [UpdateStatusPage]
    case ConfigFrame(_) => [UpdateConfigPages]
    case SuccessApply => [UpdateActionButtons(false), QueryConfigStarted, ShowMessage(ApplySuccessText)]
    case ErrorMessage(m) => if Blank(m) then [] else [UpdateActionButtons(true), ShowError(m, true)]
    case NoFrame => []
  }

  /** A device error is shown exactly when it has a character other than a space. */
  lemma ErrorShownIffNotBlank(m: string)
    ensures ShowError(m, true) in Reaction(ErrorMessage(m)) <==> !AllSpaces(m)
    ensures AllSpaces(m) ==> Reaction(ErrorMessage(m)) == []
  {
    TrimSpacesEmpty(m);
  }

  /** Only an apply acknowledgement asks for the configuration again. */
  lemma QueryOnlyAfterAck(f: Frame)
    ensures QueryConfigStarted in Reaction(f) <==> f.SuccessApply?
  {
  }

  // ---------------------------------------------------------------------
  // The handshake, as a function of the scripted reads

  /** How checkPort takes one read: it fails, it brings a status frame, or it decides nothing. */
  datatype Verdict = Failed(msg: string) | GotStatus | Undecided

  /** An I/O error fails the handshake (what was read is discarded); a non-empty read that decodes to a status ends it. */
  function Classify(r: ReadResult): Verdict {
    if r.err.IoError? then Failed(r.err.msg)
    else if |r.data| > 0 && Decode(r.data).StatusFrame? then GotStatus
    else Undecided
  }

  /** The verdict of each scripted read, in order. */
  function Verdicts(script: seq<ReadResult>): (vs: seq<Verdict>)
    ensures |vs| == |script|
  {
    seq(|script|, i requires 0 <= i < |script| => Classify(script[i]))
  }

  /** The verdict of the i-th read; reads past the script time out and decide nothing. */
  function VerdictAt(vs: seq<Verdict>, i: nat): Verdict {
    if i < |vs| then vs[i] else Undecided
  }

  function Tail(vs: seq<Verdict>): seq<Verdict> {
    if vs == [] then [] else vs[1..]
  }

  /** checkPort's result for the verdicts of its reads and a budget of `fuel` reads. */
  function HandshakeOf(vs: seq<Verdict>, fuel: nat): Option<string>
    decreases fuel
  {
    if fuel == 0 then Some(HandshakeFailureText)
    else
      match VerdictAt(vs, 0)
      case Failed(m) => Some(m)
      case GotStatus => None
      case Undecided => HandshakeOf(Tail(vs), fuel - 1)
  }

  /** What checkPort returns on a port with the given reads: None for success, the error text otherwise. */
  function Handshake(script: seq<ReadResult>, fuel: nat): Option<string> {
    HandshakeOf(Verdicts(script), fuel)
  }

  /** How many reads checkPort makes. */
  function HandshakeLength(vs: seq<Verdict>, fuel: nat): (n: nat)
    ensures n <= fuel
    decreases fuel
  {
    if fuel == 0 then 0
    else if !VerdictAt(vs, 0).Undecided? then 1
    else 1 + HandshakeLength(Tail(vs), fuel - 1)
  }

  /** The reads checkPort leaves unread. */
  function HandshakeRest(script: seq<ReadResult>, fuel: nat): seq<ReadResult> {
    Drop(script, HandshakeLength(Verdicts(script), fuel))
  }

  /** The k-th read of a script, and what is left after it. */
  lemma DropVerdict(script: seq<ReadResult>, k: nat)
    ensures Classify(NextRead(Drop(script, k))) == VerdictAt(Verdicts(script), k)
    ensures AfterRead(Drop(script, k)) == Drop(script, k + 1)
  {
    if k < |script| {
      assert NextRead(Drop(script, k)) == script[k];
    } else {
      assert Classify(TimedOut) == Undecided;
    }
  }

  lemma VerdictAtTail(vs: seq<Verdict>, i: nat)
    ensures VerdictAt(Tail(vs), i) == VerdictAt(vs, i + 1)
  {
  }

  /**
   * The handshake is decided by the first read within the budget that fails
   * or brings a status frame: it fails with that read's error, or succeeds.
   */
  lemma {:induction false} HandshakeOutcome(vs: seq<Verdict>, fuel: nat, i: nat)
    requires i < fuel && !VerdictAt(vs, i).Undecided?
    requires forall j :: 0 <= j < i ==> VerdictAt(vs, j).Undecided?
    ensures VerdictAt(vs, i).Failed? ==> HandshakeOf(vs, fuel) == Some(VerdictAt(vs, i).msg)
    ensures VerdictAt(vs, i).GotStatus? ==> HandshakeOf(vs, fuel) == None
    ensures HandshakeLength(vs, fuel) == i + 1
    decreases i
  {
    if i > 0 {
      assert VerdictAt(vs, 0).Undecided?;
      forall j | 0 <= j < i - 1 ensures VerdictAt(Tail(vs), j).Undecided? {
        VerdictAtTail(vs, j);
      }
      VerdictAtTail(vs, i - 1);
      HandshakeOutcome(Tail(vs), fuel - 1, i - 1);
    }
  }

  /** When no read within the budget fails or brings a status frame, the handshake fails with its own message. */
  lemma {:induction false} HandshakeTimeout(vs: seq<Verdict>, fuel: nat)
    requires forall j :: 0 <= j < fuel ==> VerdictAt(vs, j).Undecided?
    ensures HandshakeOf(vs, fuel) == Some(HandshakeFailureText)
    ensures HandshakeLength(vs, fuel) == fuel
    decreases fuel
  {
    if fuel > 0 {
      assert VerdictAt(vs, 0).Undecided?;
      forall j | 0 <= j < fuel - 1 ensures VerdictAt(Tail(vs), j).Undecided? {
        VerdictAtTail(vs, j);
      }
      HandshakeTimeout(Tail(vs), fuel - 1);
    }
  }

  /** A port that never fails and never sends a status frame never passes the handshake, whatever the budget. */
  lemma SilentPortFails(script: seq<ReadResult>, fuel: nat)
    requires forall j :: 0 <= j < |script| ==> Classify(script[j]).Undecided?
    ensures Handshake(script, fuel) == Some(HandshakeFailureText)
  {
    var vs := Verdicts(script);
    forall j | 0 <= j < fuel ensures VerdictAt(vs, j).Undecided? {
      if j < |script| {
        assert vs[j] == Classify(script[j]);
      }
    }
    HandshakeTimeout(vs, fuel);
  }

  // ---------------------------------------------------------------------
  // The session

  class Serial {
    var port: Port?
    var status: Option<Status>
    var config: Option<Config>
    var stopReadPort: bool
    var events: seq<Event>

    /** NewSerial: no port, nothing stored. */
    constructor ()
      ensures port == null && status == None && config == None && !stopReadPort && events == []
    {
      port := null;
      status := None;
      config := None;
      stopReadPort := false;
      events := [];
    }

    /** GetConfig: the stored configuration, or Go's zero Config when there is none. */
    function GetConfig(): (c: Config)
      reads this
      ensures config.Some? ==> c == config.value
      ensures config.None? ==> c == ZeroConfig
    {
      if config.Some? then config.value else ZeroConfig
    }

    /** GetStatus: the stored status, or Go's zero Status when there is none. */
    function GetStatus(): (s: Status)
      reads this
      ensures status.Some? ==> s == status.value
      ensures status.None? ==> s == ZeroStatus
    {
      if status.Some? then status.value else ZeroStatus
    }

    /** StopRead: raise the stop flag, forget status and config, close and drop the port. */
    method StopRead()
      modifies this, port
      ensures stopReadPort && status == None && config == None && port == null
      ensures events == old(events)
      ensures old(port) != null ==>
        && old(port).closeCount == old(port.closeCount) + 1
        && old(port).script == old(port.script)
        && old(port).written == old(port.written)
        && old(port).writeError == old(port.writeError)
    {
      stopReadPort := true;
      config := None;
      status := None;
      if port != null {
        port.Close();
      }
      port := null;
    }

    /** ApplyConfig: write the FCS command and its line ending; a failed write is shown and gives false. */
    method ApplyConfig(c: Config) returns (ok: bool)
      requires port != null
      modifies this, port
      ensures port == old(port) && status == old(status) && config == old(config)
      ensures stopReadPort == old(stopReadPort)
      ensures port.script == old(port.script) && port.writeError == old(port.writeError)
      ensures port.closeCount == old(port.closeCount)
      ensures ok <==> port.writeError.None?
      ensures port.written == if ok then old(port.written) + [StringToBytes(ConfigToStr(c) + CRLF)]
                              else old(port.written)
      ensures events == if ok then old(events) else old(events) + [ShowError(port.writeError.value, true)]
    {
      var configStr := ConfigToStr(c) + CRLF;
      var err := port.Write(StringToBytes(configStr));
      if err.Some? {
        events := events + [ShowError(err.value, true)];
        return false;
      }
      return true;
    }

    /** queryConfig: write FCQ and its line ending; a failed write is shown and gives false. */
    method QueryConfig() returns (ok: bool)
      requires port != null
      modifies this, port
      ensures port == old(port) && status == old(status) && config == old(config)
      ensures stopReadPort == old(stopReadPort)
      ensures port.script == old(port.script) && port.writeError == old(port.writeError)
      ensures port.closeCount == old(port.closeCount)
      ensures ok <==> port.writeError.None?
      ensures port.written == if ok then old(port.written) + [StringToBytes(QueryCommand)] else old(port.written)
      ensures events == if ok then old(events) else old(events) + [ShowError(port.writeError.value, true)]
    {
      var err := port.Write(StringToBytes(QueryCommand));
      if err.Some? {
        events := events + [ShowError(err.value, true)];
        return false;
      }
      return true;
    }

    /** The dispatch of one decoded frame in readPort. */
    method Dispatch(f: Frame)
      modifies this
      ensures port == old(port) && stopReadPort == old(stopReadPort)
      ensures status == if f.StatusFrame? then Some(f.status) else old(status)
      ensures config == if f.ConfigFrame? then Some(f.config) else old(config)
      ensures events == old(events) + Reaction(f)
    {
      match f {
        case StatusFrame(s) =>
          status := Some(s);
          events := events + [UpdateStatusPage];
        case ConfigFrame(c) =>
          config := Some(c);
          events := events + [UpdateConfigPages];
        case SuccessApply =>
          events := events + [UpdateActionButtons(false), QueryConfigStarted, ShowMessage(ApplySuccessText)];
        case ErrorMessage(m) =>
          if |TrimSpaces(m)| > 0 {
            events := events + [UpdateActionButtons(true), ShowError(m, true)];
          }
        case NoFrame =>
      }
    }

    /**
     * One iteration of readPort's loop.  It returns true when the loop ends:
     * the stop flag was up, or a read failed with an error other than EOF,
     * which is shown and closes the main window (and with it the session).
     * Otherwise a non-empty read is decoded and dispatched.
     */
    method ReadPortStep() returns (exit: bool)
      requires stopReadPort || port != null
      modifies this, port
      ensures old(stopReadPort) ==>
        && exit && stopReadPort && port == old(port) && status == old(status)
        && config == old(config) && events == old(events)
      ensures old(stopReadPort) && old(port) != null ==>
        && port.script == old(port.script) && port.written == old(port.written)
        && port.closeCount == old(port.closeCount) && port.writeError == old(port.writeError)
      ensures !old(stopReadPort) ==> old(port).script == AfterRead(old(port.script))
      ensures !old(stopReadPort) && NextRead(old(port.script)).err.IoError? ==>
        && exit && stopReadPort && port == null && status == None && config == None
        && old(port).closeCount == old(port.closeCount) + 1
        && old(port).written == old(port.written) && old(port).writeError == old(port.writeError)
        && events == old(events) + [ShowError(NextRead(old(port.script)).err.msg, true), CloseMainWindow(true)]
      ensures !old(stopReadPort) && !NextRead(old(port.script)).err.IoError? ==>
        var r := NextRead(old(port.script));
        var f := if |r.data| > 0 then Decode(r.data) else NoFrame;
        && !exit && !stopReadPort && port == old(port)
        && port.closeCount == old(port.closeCount) && port.written == old(port.written)
        && port.writeError == old(port.writeError)
        && status == (if f.StatusFrame? then Some(f.status) else old(status))
        && config == (if f.ConfigFrame? then Some(f.config) else old(config))
        && events == old(events) + Reaction(f)
    {
      if stopReadPort {
        return true;
      }
      var r := port.Read();
      if r.err.IoError? {
        events := events + [ShowError(r.err.msg, true), CloseMainWindow(true)];
        StopRead();
        return true;
      } else if |r.data| > 0 {
        var f := ParseData(r.data);
        Dispatch(f);
      }
      return false;
    }

    /**
     * readPort, run for at most `fuel` iterations: it lowers the stop flag,
     * then loops until a read fails.  It ends early exactly when one of the
     * reads within the budget fails, and then the session is stopped.
     */
    method ReadPort(fuel: nat) returns (exited: bool)
      requires port != null
      modifies this, port
      ensures exited <==> exists i :: 0 <= i < fuel && ReadAt(old(port.script), i).err.IoError?
      ensures exited ==> stopReadPort && port == null && status == None && config == None
      ensures !exited ==> port == old(port) && !stopReadPort
      ensures old(port).written == old(port.written) && old(port).writeError == old(port.writeError)
      ensures old(port).closeCount == old(port.closeCount) + (if exited then 1 else 0)
      ensures exited ==>
        exists i :: 0 <= i < fuel && ReadAt(old(port.script), i).err.IoError?
          && (forall j :: 0 <= j < i ==> !ReadAt(old(port.script), j).err.IoError?)
          && |events| >= 2
          && events[|events| - 2..] == [ShowError(ReadAt(old(port.script), i).err.msg, true), CloseMainWindow(true)]
    {
      stopReadPort := false;
      ghost var p := port;
      ghost var s0 := port.script;
      var k := 0;
      while k < fuel
        invariant 0 <= k <= fuel
        invariant port == p && !stopReadPort
        invariant p.script == Drop(s0, k)
        invariant forall i :: 0 <= i < k ==> !ReadAt(s0, i).err.IoError?
        invariant p.written == old(port.written) && p.writeError == old(port.writeError)
        invariant p.closeCount == old(port.closeCount)
      {
        DropStep(s0, k);
        var exit := ReadPortStep();
        if exit {
          assert ReadAt(s0, k).err.IoError?;
          return true;
        }
        k := k + 1;
      }
      return false;
    }

    /** One read of checkPort's loop and what it decides. */
    method HandshakeRead() returns (v: Verdict)
      requires port != null
      modifies port
      ensures v == Classify(NextRead(old(port.script)))
      ensures port.script == AfterRead(old(port.script))
      ensures port.written == old(port.written) && port.closeCount == old(port.closeCount)
      ensures port.writeError == old(port.writeError)
    {
      var r := port.Read();
      if r.err.IoError? {
        return Failed(r.err.msg);
      } else if |r.data| > 0 {
        var f := ParseData(r.data);
        if f.StatusFrame? {
          return GotStatus;
        }
      }
      return Undecided;
    }

    /**
     * checkPort, with the three-second budget given as a number of reads:
     * it succeeds (None) at the first read that decodes to a status frame,
     * fails with the error of a read that fails other than with EOF, and
     * otherwise fails once the budget is spent.  The status is not stored.
     */
    method CheckPort(fuel: nat) returns (err: Option<string>)
      requires port != null
      modifies port
      ensures err == Handshake(old(port.script), fuel)
      ensures port.script == HandshakeRest(old(port.script), fuel)
      ensures port.written == old(port.written) && port.closeCount == old(port.closeCount)
      ensures port.writeError == old(port.writeError)
    {
      ghost var s0 := port.script;
      ghost var vs := Verdicts(s0);
      var k: nat := 0;
      while k < fuel
        invariant k <= fuel
        invariant port.script == Drop(s0, k)
        invariant forall j :: 0 <= j < k ==> VerdictAt(vs, j).Undecided?
        invariant port.written == old(port.written) && port.closeCount == old(port.closeCount)
        invariant port.writeError == old(port.writeError)
      {
        DropVerdict(s0, k);
        var v := HandshakeRead();
        match v {
          case Failed(msg) =>
            HandshakeOutcome(vs, fuel, k);
            return Some(msg);
          case GotStatus =>
            HandshakeOutcome(vs, fuel, k);
            return None;
          case Undecided =>
        }
        k := k + 1;
      }
      HandshakeTimeout(vs, fuel);
      return Some(HandshakeFailureText);
    }

    /**
     * ConnectToController: open the port, run the handshake, and on success
     * refresh the pages, record the port in the GUI's list, and start the
     * configuration query and the read loop.  A failed open leaves no port;
     * a failed handshake closes the port and leaves no port.
     */
    method ConnectToController(portName: string, open: OpenResult, fuel: nat) returns (ok: bool)
      modifies this, if open.Opened? then {open.port} else {}
      ensures status == old(status) && config == old(config) && stopReadPort == old(stopReadPort)
      ensures open.OpenFailed? ==> !ok && port == null && events == old(events) + [ShowError(open.msg, false)]
      ensures open.Opened? ==>
        var p := open.port;
        var e := Handshake(old(p.script), fuel);
        && p.script == HandshakeRest(old(p.script), fuel)
        && p.written == old(p.written) && p.writeError == old(p.writeError)
        && (e.Some? ==> && !ok && port == null && p.closeCount == old(p.closeCount) + 1
                        && events == old(events) + [ShowError(e.value, false)])
        && (e.None? ==> && ok && port == p && p.closeCount == old(p.closeCount)
                        && events == old(events) + [UpdateStatusPage, UpdateConfigPages, UpdateConfig(portName),
                                                    QueryConfigStarted, ReadPortStarted])
    {
      match open {
        case OpenFailed(msg) =>
          port := null;
          events := events + [ShowError(msg, false)];
          return false;
        case Opened(p) =>
          port := p;
          var err := CheckPort(fuel);
          if err.Some? {
            p.Close();
            port := null;
            events := events + [ShowError(err.value, false)];
            return false;
          }
          events := events + [UpdateStatusPage, UpdateConfigPages, UpdateConfig(portName)];
          events := events + [QueryConfigStarted, ReadPortStarted];
          return true;
      }
    }
  }

  /** Stopping twice closes the port once, and the second stop changes nothing. */
  method StopReadTwice(s: Serial)
    requires s.port != null
    modifies s, s.port
    ensures old(s.port).closeCount == old(s.port.closeCount) + 1
    ensures s.port == null && s.stopReadPort && s.status == None && s.config == None
  {
    s.StopRead();
    s.StopRead();
  }
}
