/** The thread-based serial sender of `bms_serial.py`: a list of configured
    port names, the list of ports currently open, a sweep that opens the
    missing ones, and the loop that broadcasts one packet per tick, drops the
    ports whose write fails, and sweeps again every 5000 ms of counted time.
    It reports through the in-app log. One pass of `_run_loop` is one method
    call; the loop is repeated calls. */
module BmsSerial {
  import opened Wrappers
  import opened Text
  import opened Lists
  import opened Pyserial
  import opened Sweep
  import opened Logger

  /** The counted time after which the loop sweeps again. */
  const SweepInterval := 5000

  /** The frequency (ms per tick) before `start` sets one. */
  const DefaultFrequency := 250

  /** What `init_ports` logs for the attempt to open `name` that had outcome `r`. */
  function ConnectMessage(name: string, r: OpenResult): (e: LogEntry)
    ensures r.Opened? <==> e.kind == INFO
    ensures e.kind != STATUS
  {
    match r
    case Opened => LogEntry(INFO, "Connected to " + name)
    case Failed(m) =>
      match Classify(m)
      case DeviceNotFound => LogEntry(WARNING, "Cannot connect to " + name + ": Device not found. Retrying in 5 seconds")
      case PermissionDenied => LogEntry(WARNING, "Cannot connect to " + name + ": Permission denied. Retrying in 5 seconds")
      case OtherFailure => LogEntry(ERROR, "Error connecting to " + name + ": \"" + m + "\"")
  }

  /** A failed open is a warning when the device is missing or not
      accessible, and an error otherwise. */
  lemma ConnectMessageKind(name: string, m: string)
    ensures ConnectMessage(name, Failed(m)).kind == WARNING <==> Classify(m) != OtherFailure
    ensures ConnectMessage(name, Failed(m)).kind == ERROR <==> Classify(m) == OtherFailure
  {
  }

  /** The messages a sweep over `attempts` logs, one per attempt, in order. */
  function SweepLog(attempts: seq<string>, open: nat -> OpenResult): (r: seq<LogEntry>)
    ensures |r| == |attempts|
  {
    if attempts == [] then []
    else
      var n := |attempts| - 1;
      SweepLog(attempts[..n], open) + [ConnectMessage(attempts[n], open(n))]
  }

  /** Message `i` of a sweep reports attempt `i`. */
  lemma {:induction false} SweepLogAt(attempts: seq<string>, open: nat -> OpenResult, i: int)
    requires 0 <= i < |attempts|
    ensures SweepLog(attempts, open)[i] == ConnectMessage(attempts[i], open(i))
  {
    var n := |attempts| - 1;
    if i < n {
      SweepLogAt(attempts[..n], open, i);
    }
  }

  lemma SweepLogStep(attempts: seq<string>, open: nat -> OpenResult, k: nat)
    requires k < |attempts|
    ensures SweepLog(attempts[..k + 1], open) == SweepLog(attempts[..k], open) + [ConnectMessage(attempts[k], open(k))]
  {
    assert attempts[..k + 1][..k] == attempts[..k];
  }

  /** The message logged for a port whose write raised with text `error`. */
  function WriteErrorMessage(port: SerialPort, error: string): LogEntry {
    LogEntry(ERROR, WriteErrorText(port, error))
  }

  function WriteErrorText(port: SerialPort, error: string): string {
    "Error writing to " + port.port + ": " + error
  }

  /** The messages a write pass over `ports` logs: one error per failed write, in order. */
  function WriteLog(ports: seq<SerialPort>, writeErrors: map<SerialPort, string>): (r: seq<LogEntry>)
    ensures |r| == |Within(ports, writeErrors.Keys)|
  {
    if ports == [] then []
    else
      var n := |ports| - 1;
      var p := ports[n];
      WriteLog(ports[..n], writeErrors) + (if p in writeErrors then [WriteErrorMessage(p, writeErrors[p])] else [])
  }

  /** `logger.error(...)` for a port whose write raised, after the errors `done` of the earlier ports. */
  method LogWriteFailure(log: Log, port: SerialPort, error: string,
                         ghost q0: seq<LogEntry>, ghost r0: seq<LogEntry>, ghost done: seq<LogEntry>)
    requires log.queue == q0 + done && log.records == r0 + done
    modifies log`queue, log`records
    ensures log.queue == q0 + (done + [WriteErrorMessage(port, error)])
    ensures log.records == r0 + (done + [WriteErrorMessage(port, error)])
  {
    AppendAssoc(q0, done, [WriteErrorMessage(port, error)]);
    AppendAssoc(r0, done, [WriteErrorMessage(port, error)]);
    log.LogError(WriteErrorText(port, error));
  }

  /** Extending a write pass by port `i` adds that port's error, if it failed. */
  lemma WriteLogPrefix(ports: seq<SerialPort>, writeErrors: map<SerialPort, string>, i: nat)
    requires i < |ports|
    ensures WriteLog(ports[..i + 1], writeErrors) == WriteLog(ports[..i], writeErrors)
      + (if ports[i] in writeErrors then [WriteErrorMessage(ports[i], writeErrors[ports[i]])] else [])
    ensures Within(ports[..i + 1], writeErrors.Keys) == Within(ports[..i], writeErrors.Keys)
      + (if ports[i] in writeErrors.Keys then [ports[i]] else [])
  {
    assert ports[..i + 1][..i] == ports[..i];
    assert ports[..i + 1][i] == ports[i];
  }

  /** Every message of a write pass is an error, one per port whose write failed. */
  lemma {:induction false} WriteLogErrors(ports: seq<SerialPort>, writeErrors: map<SerialPort, string>, i: int)
    requires 0 <= i < |WriteLog(ports, writeErrors)|
    ensures WriteLog(ports, writeErrors)[i].kind == ERROR
  {
    var n := |ports| - 1;
    if i < |WriteLog(ports[..n], writeErrors)| {
      WriteLogErrors(ports[..n], writeErrors, i);
    }
  }

  /** The sweep counter after one tick, `time_passed` before it being `t`. */
  function ResetStep(t: int, frequency: int): int {
    if t >= SweepInterval then 0 else t + frequency
  }

  /** The counter after `k` ticks from `t`. */
  function ResetIter(t: int, frequency: int, k: nat): int {
    if k == 0 then t else ResetStep(ResetIter(t, frequency, k - 1), frequency)
  }

  /** With a positive frequency the counter stays in `0 .. 5000 + frequency`. */
  lemma ResetStepBounds(t: int, frequency: int)
    requires frequency > 0 && 0 <= t < SweepInterval + frequency
    ensures 0 <= ResetStep(t, frequency) < SweepInterval + frequency
  {
  }

  lemma {:induction false} ResetIterBounds(frequency: int, k: nat)
    requires frequency > 0
    ensures 0 <= ResetIter(0, frequency, k) < SweepInterval + frequency
  {
    if k > 0 {
      ResetIterBounds(frequency, k - 1);
      ResetStepBounds(ResetIter(0, frequency, k - 1), frequency);
    }
  }

  /** The number of `+frequency` steps that bring the counter from 0 to 5000 or more. */
  function StepsToSweep(frequency: int): (r: nat)
    requires frequency > 0
    ensures r >= 1
    ensures r * frequency >= SweepInterval
    ensures (r - 1) * frequency < SweepInterval
  {
    var k := (SweepInterval - 1 + frequency) / frequency;
    assert k * frequency <= SweepInterval - 1 + frequency;
    assert k * frequency > SweepInterval - 1;
    (SweepInterval - 1 + frequency) / frequency
  }

  lemma BelowSweep(m: nat, frequency: int)
    requires frequency > 0 && m < StepsToSweep(frequency)
    ensures m * frequency < SweepInterval
  {
    var k := StepsToSweep(frequency);
    assert m * frequency <= (k - 1) * frequency;
  }

  /** Ticks compose: `a + b` ticks are `a` ticks and then `b` more. */
  lemma {:induction false} ResetIterAdd(t: int, frequency: int, a: nat, b: nat)
    ensures ResetIter(t, frequency, a + b) == ResetIter(ResetIter(t, frequency, a), frequency, b)
  {
    if b > 0 {
      ResetIterAdd(t, frequency, a, b - 1);
    }
  }

  /** Within one cycle the counter grows by `frequency` per tick. */
  lemma {:induction false} ResetIterRamp(frequency: int, k: nat)
    requires frequency > 0 && k <= StepsToSweep(frequency)
    ensures ResetIter(0, frequency, k) == k * frequency
  {
    if k > 0 {
      ResetIterRamp(frequency, k - 1);
      BelowSweep(k - 1, frequency);
      assert (k - 1) * frequency + frequency == k * frequency;
    }
  }

  /** After `K + 1` ticks the counter is back at 0, `K` being `StepsToSweep(frequency)`. */
  lemma ResetIterCycle(frequency: int)
    requires frequency > 0
    ensures ResetIter(0, frequency, StepsToSweep(frequency) + 1) == 0
  {
    ResetIterRamp(frequency, StepsToSweep(frequency));
  }

  lemma {:induction false} ResetIterCycles(frequency: int, n: nat, r: nat)
    requires frequency > 0
    ensures ResetIter(0, frequency, n * (StepsToSweep(frequency) + 1) + r) == ResetIter(0, frequency, r)
  {
    var p := StepsToSweep(frequency) + 1;
    if n > 0 {
      assert n * p + r == p + ((n - 1) * p + r);
      ResetIterAdd(0, frequency, p, (n - 1) * p + r);
      ResetIterCycle(frequency);
      ResetIterCycles(frequency, n - 1, r);
    }
  }

  /** The counter's closed form: from 0, after `j` ticks it is `(j mod (K + 1)) * frequency`. */
  lemma ResetIterClosedForm(frequency: int, j: nat)
    requires frequency > 0
    ensures ResetIter(0, frequency, j) == (j % (StepsToSweep(frequency) + 1)) * frequency
  {
    var p := StepsToSweep(frequency) + 1;
    var q, r := j / p, j % p;
    QuotientRemainder(j, p);
    ResetIterCycles(frequency, q, r);
    ResetIterRamp(frequency, r);
  }

  /** Tick `j` (counting from the first, with the counter at 0) sweeps exactly
      when `j` is `K` modulo `K + 1`: the first sweep is at tick `K` and each
      later one comes `K + 1` ticks after the one before. */
  lemma SweepAt(frequency: int, j: nat)
    requires frequency > 0
    ensures ResetIter(0, frequency, j) >= SweepInterval <==> j % (StepsToSweep(frequency) + 1) == StepsToSweep(frequency)
  {
    var k := StepsToSweep(frequency);
    ResetIterClosedForm(frequency, j);
    if j % (k + 1) < k {
      BelowSweep(j % (k + 1), frequency);
    }
  }

  lemma QuotientRemainder(j: nat, p: nat)
    requires p > 0
    ensures j == (j / p) * p + j % p && 0 <= j % p < p
  {
  }

  /** A record of `list_ports.comports()` that has both a vendor and a product id. */
  predicate PortIsValid(p: PortInfo) {
    p.pid.Some? && p.vid.Some?
  }

  /** `detect_serial_ports`: the device names of the valid records, in enumeration order. */
  function DetectSerialPorts(ports: seq<PortInfo>): (r: seq<string>)
    ensures |r| <= |ports|
    ensures forall i :: 0 <= i < |ports| && PortIsValid(ports[i]) ==> ports[i].device in r
  {
    if ports == [] then []
    else
      var n := |ports| - 1;
      DetectSerialPorts(ports[..n]) + (if PortIsValid(ports[n]) then [ports[n].device] else [])
  }

  /** Every detected name is the device of a valid record. */
  lemma {:induction false} DetectedAreValid(ports: seq<PortInfo>, name: string)
    requires name in DetectSerialPorts(ports)
    ensures exists i :: 0 <= i < |ports| && PortIsValid(ports[i]) && ports[i].device == name
  {
    var n := |ports| - 1;
    if name in DetectSerialPorts(ports[..n]) {
      DetectedAreValid(ports[..n], name);
      var i :| 0 <= i < n && PortIsValid(ports[..n][i]) && ports[..n][i].device == name;
      assert ports[i] == ports[..n][i];
    } else {
      assert PortIsValid(ports[n]) && ports[n].device == name;
    }
  }

  /** Detection keeps the enumeration order: detecting over a concatenation
      detects over each part. */
  lemma {:induction false} DetectConcat(a: seq<PortInfo>, b: seq<PortInfo>)
    ensures DetectSerialPorts(a + b) == DetectSerialPorts(a) + DetectSerialPorts(b)
  {
    if b == [] {
      assert a + b == a;
    } else {
      assert (a + b)[..|a + b| - 1] == a + b[..|b| - 1];
      DetectConcat(a, b[..|b| - 1]);
    }
  }

  /** One record is detected exactly when it is valid. */
  lemma DetectSingle(p: PortInfo)
    ensures DetectSerialPorts([p]) == if PortIsValid(p) then [p.device] else []
  {
    assert [p][..0] == [];
  }

  /** `bms_serial.SerialSender`. `timePassed` is `_run_loop`'s local
      `time_passed`, and `loopStarted` says that `_run_loop` made its first sweep. */
  class SerialSender {
    var portNames: seq<string>
    var serialPorts: seq<SerialPort>
    var running: bool
    var frequency: int
    var timePassed: int
    var loopStarted: bool

    /** No port object is listed twice and every listed port is open. */
    ghost predicate Valid()
      reads this`serialPorts, serialPorts`isOpen
    {
      NoDup(serialPorts) && AllOpen(serialPorts)
    }

    constructor (portNames: seq<string>)
      ensures Valid()
      ensures this.portNames == portNames && serialPorts == []
      ensures !running && frequency == DefaultFrequency
      ensures timePassed == 0 && !loopStarted
    {
      this.portNames := portNames;
      serialPorts := [];
      running := false;
      frequency := DefaultFrequency;
      timePassed := 0;
      loopStarted := false;
    }

    /** `init_ports`: attempt every configured name that no open port has,
        in configured order; attempt `i` has outcome `open(i)`. The open
        ports stay as they are and in order, each port that opens is
        appended, and one message per attempt is logged. */
    method InitPorts(open: nat -> OpenResult, log: Log)
      requires Valid()
      modifies this`serialPorts, log`queue, log`records
      ensures Valid()
      ensures |serialPorts| >= |old(serialPorts)| && serialPorts[..|old(serialPorts)|] == old(serialPorts)
      ensures PortNames(serialPorts)
           == PortNames(old(serialPorts)) + Succeeded(Pending(portNames, PortNames(old(serialPorts))), open)
      ensures log.queue == old(log.queue) + SweepLog(Pending(portNames, PortNames(old(serialPorts))), open)
      ensures log.records == old(log.records) + SweepLog(Pending(portNames, PortNames(old(serialPorts))), open)
    {
      var pending := Pending(portNames, PortNames(serialPorts));
      ghost var before := serialPorts;
      ghost var added: seq<SerialPort> := [];
      ghost var q0, r0 := log.queue, log.records;
      var k := 0;
      while k < |pending|
        invariant 0 <= k <= |pending|
        invariant SweepReached(pending, k, open, log, before, added, q0, r0)
      {
        added := SweepStep(pending, k, open, log, before, added, q0, r0);
        k := k + 1;
      }
      assert pending[..k] == pending;
      PortNamesConcat(before, added);
      assert serialPorts[..|before|] == before;
    }

    /** `init_ports` has made the first `k` attempts of `pending`: the ports
        it opened, `added`, follow the earlier ones, and each attempt has
        logged its message. */
    ghost predicate SweepReached(pending: seq<string>, k: nat, open: nat -> OpenResult, log: Log,
                                 before: seq<SerialPort>, added: seq<SerialPort>, q0: seq<LogEntry>, r0: seq<LogEntry>)
      reads this`serialPorts, serialPorts`isOpen, log`queue, log`records
    {
      k <= |pending| && Valid()
      && serialPorts == before + added
      && PortNames(added) == Succeeded(pending[..k], open)
      && log.queue == q0 + SweepLog(pending[..k], open)
      && log.records == r0 + SweepLog(pending[..k], open)
    }

    /** One turn of `init_ports`'s loop, stated as the step from the first `k`
        attempts to the first `k + 1`: `added` are the ports opened so far. */
    method SweepStep(pending: seq<string>, k: nat, open: nat -> OpenResult, log: Log,
                     ghost before: seq<SerialPort>, ghost added: seq<SerialPort>,
                     ghost q0: seq<LogEntry>, ghost r0: seq<LogEntry>)
      returns (ghost added': seq<SerialPort>)
      requires k < |pending| && SweepReached(pending, k, open, log, before, added, q0, r0)
      modifies this`serialPorts, log`queue, log`records
      ensures SweepReached(pending, k + 1, open, log, before, added', q0, r0)
    {
      var name := pending[k];
      SweepLogStep(pending, open, k);
      SucceededSplit(pending, open, k);
      AppendAssoc(q0, SweepLog(pending[..k], open), [ConnectMessage(name, open(k))]);
      AppendAssoc(r0, SweepLog(pending[..k], open), [ConnectMessage(name, open(k))]);
      ghost var prev := serialPorts;
      TryOpen(name, open(k), log);
      added' := added;
      if open(k).Opened? {
        var port := serialPorts[|prev|];
        assert serialPorts == prev + [port];
        PortNamesAppend(added, port);
        AppendAssoc(before, added, [port]);
        added' := added + [port];
      }
    }

    /** The body of `init_ports`'s loop for one name whose open had outcome `r`. */
    method TryOpen(name: string, r: OpenResult, log: Log)
      requires Valid()
      modifies this`serialPorts, log`queue, log`records
      ensures Valid()
      ensures r.Failed? ==> serialPorts == old(serialPorts)
      ensures r.Opened? ==>
        |serialPorts| == |old(serialPorts)| + 1 && serialPorts == old(serialPorts) + [serialPorts[|old(serialPorts)|]]
        && var port := serialPorts[|old(serialPorts)|];
           fresh(port) && port.port == name && port.baudrate == BaudRate && port.received == []
      ensures log.queue == old(log.queue) + [ConnectMessage(name, r)]
      ensures log.records == old(log.records) + [ConnectMessage(name, r)]
    {
      match r {
        case Opened =>
          var port := new SerialPort(name, BaudRate);
          serialPorts := serialPorts + [port];
          log.LogInfo("Connected to " + name);
        case Failed(e) =>
          if Contains(e, "FileNotFoundError") {
            log.LogWarning("Cannot connect to " + name + ": Device not found. Retrying in 5 seconds");
          } else if Contains(e, "PermissionError") {
            log.LogWarning("Cannot connect to " + name + ": Permission denied. Retrying in 5 seconds");
          } else {
            log.LogError("Error connecting to " + name + ": \"" + e + "\"");
          }
      }
    }

    /** `start`: log, record the frequency and mark the sender running. The
        thread it starts runs `BeginRunLoop` and then `RunLoopIteration`. */
    method Start(frequency: int, log: Log)
      modifies this`frequency, this`running, this`loopStarted, log`queue, log`records
      ensures this.frequency == frequency && running && !loopStarted
      ensures log.queue == old(log.queue) + [LogEntry(INFO, "Starting serial communication")]
      ensures log.records == old(log.records) + [LogEntry(INFO, "Starting serial communication")]
    {
      log.LogInfo("Starting serial communication");
      this.frequency := frequency;
      running := true;
      loopStarted := false;
    }

    /** The start of `_run_loop`: the counter starts at 0 and the first sweep
        runs before any write. */
    method BeginRunLoop(open: nat -> OpenResult, log: Log)
      requires Valid()
      modifies this`timePassed, this`loopStarted, this`serialPorts, log`queue, log`records
      ensures Valid() && timePassed == 0 && loopStarted
      ensures PortNames(serialPorts)
           == PortNames(old(serialPorts)) + Succeeded(Pending(portNames, PortNames(old(serialPorts))), open)
      ensures |serialPorts| >= |old(serialPorts)| && serialPorts[..|old(serialPorts)|] == old(serialPorts)
      ensures log.queue == old(log.queue) + SweepLog(Pending(portNames, PortNames(old(serialPorts))), open)
      ensures log.records == old(log.records) + SweepLog(Pending(portNames, PortNames(old(serialPorts))), open)
    {
      timePassed := 0;
      InitPorts(open, log);
      loopStarted := true;
    }

    /** The write pass of one tick: `data` is written to every open port in
        order; a port whose write raises (it is in `writeErrors`, with the
        text of the exception) is logged and collected, in order. */
    method WritePass(data: Packet, writeErrors: map<SerialPort, string>, log: Log) returns (toRemove: seq<SerialPort>)
      requires Valid()
      modifies serialPorts, log`queue, log`records
      ensures Valid()
      ensures toRemove == Within(serialPorts, writeErrors.Keys)
      ensures DeliveredUpTo(serialPorts, old(Received(serialPorts)), |serialPorts|, data, writeErrors.Keys)
      ensures log.queue == old(log.queue) + WriteLog(serialPorts, writeErrors)
      ensures log.records == old(log.records) + WriteLog(serialPorts, writeErrors)
    {
      ghost var q0, r0 := log.queue, log.records;
      ghost var before := Received(serialPorts);
      toRemove := [];
      var i := 0;
      while i < |serialPorts|
        invariant 0 <= i <= |serialPorts|
        invariant PassReached(i, data, writeErrors, toRemove, log, q0, r0, before)
      {
        toRemove := WriteStep(data, writeErrors, log, i, toRemove, q0, r0, before);
        i := i + 1;
      }
      assert serialPorts[..i] == serialPorts;
    }

    /** The write pass has handled ports `0 .. i-1`: the failing ones among
        them are collected and logged, in order, and the others have received `data`. */
    ghost predicate PassReached(i: nat, data: Packet, writeErrors: map<SerialPort, string>, toRemove: seq<SerialPort>,
                                log: Log, q0: seq<LogEntry>, r0: seq<LogEntry>, before: seq<seq<Packet>>)
      reads this`serialPorts, serialPorts`isOpen, serialPorts`received, log`queue, log`records
    {
      i <= |serialPorts| && Valid()
      && toRemove == Within(serialPorts[..i], writeErrors.Keys)
      && DeliveredUpTo(serialPorts, before, i, data, writeErrors.Keys)
      && log.queue == q0 + WriteLog(serialPorts[..i], writeErrors)
      && log.records == r0 + WriteLog(serialPorts[..i], writeErrors)
    }

    /** One turn of the write pass: the write to port `i`, after ports `0 .. i-1`. */
    method WriteStep(data: Packet, writeErrors: map<SerialPort, string>, log: Log, i: nat,
                     toRemove: seq<SerialPort>, ghost q0: seq<LogEntry>, ghost r0: seq<LogEntry>,
                     ghost before: seq<seq<Packet>>)
      returns (toRemove': seq<SerialPort>)
      requires i < |serialPorts| && PassReached(i, data, writeErrors, toRemove, log, q0, r0, before)
      modifies {serialPorts[i]}`received, log`queue, log`records
      ensures PassReached(i + 1, data, writeErrors, toRemove', log, q0, r0, before)
    {
      var port := serialPorts[i];
      WriteLogPrefix(serialPorts, writeErrors, i);
      var ok := DeliverTo(serialPorts, i, data, writeErrors.Keys, before);
      toRemove' := toRemove;
      if !ok {
        LogWriteFailure(log, port, writeErrors[port], q0, r0, WriteLog(serialPorts[..i], writeErrors));
        toRemove' := toRemove + [port];
      } else {
        assert WriteLog(serialPorts[..i + 1], writeErrors) == WriteLog(serialPorts[..i], writeErrors) + [];
        assert toRemove' == Within(serialPorts[..i], writeErrors.Keys) + [];
      }
    }

    /** The prune pass of one tick: each collected port is closed (a close
        that raises, i.e. a port in `closeFails`, is ignored) and removed
        from the list. */
    method PrunePass(toRemove: seq<SerialPort>, closeFails: set<SerialPort>)
      requires Valid() && NoDup(toRemove) && forall i :: 0 <= i < |toRemove| ==> toRemove[i] in serialPorts
      modifies this`serialPorts, toRemove`isOpen
      ensures serialPorts == Without(old(serialPorts), Elems(toRemove))
      ensures Valid()
      ensures OpenAfterPrune(old(serialPorts), Elems(toRemove), closeFails)
    {
      ghost var ports0 := serialPorts;
      var k := 0;
      WithoutNone(ports0, Elems(toRemove[..0]));
      while k < |toRemove|
        invariant 0 <= k <= |toRemove|
        invariant PruneReached(toRemove, closeFails, k, ports0)
      {
        PruneStep(toRemove, closeFails, k, ports0);
        k := k + 1;
      }
      assert toRemove[..k] == toRemove;
      OpenAfterPruneKept(ports0, Elems(toRemove), closeFails);
    }

    /** The prune pass has closed and removed `toRemove[0 .. k-1]` from `ports0`. */
    ghost predicate PruneReached(toRemove: seq<SerialPort>, closeFails: set<SerialPort>, k: nat,
                                 ports0: seq<SerialPort>)
      reads this, ports0
    {
      k <= |toRemove| && NoDup(ports0) && NoDup(toRemove)
      && (forall i :: 0 <= i < |toRemove| ==> toRemove[i] in ports0)
      && serialPorts == Without(ports0, Elems(toRemove[..k])) && NoDup(serialPorts)
      && OpenAfterPrune(ports0, Elems(toRemove[..k]), closeFails)
    }

    /** One turn of the prune pass: close and remove `toRemove[k]`. */
    method PruneStep(toRemove: seq<SerialPort>, closeFails: set<SerialPort>, k: nat,
                     ghost ports0: seq<SerialPort>)
      requires k < |toRemove| && PruneReached(toRemove, closeFails, k, ports0)
      modifies this`serialPorts, {toRemove[k]}`isOpen
      ensures PruneReached(toRemove, closeFails, k + 1, ports0)
    {
      var port := toRemove[k];
      ghost var removed := Elems(toRemove[..k]);
      assert Elems(toRemove[..k + 1]) == removed + {port};
      assert port !in removed;
      RemoveFirstStep(ports0, removed, port);
      WithoutNoDup(ports0, removed + {port});
      serialPorts := RemoveFirst(serialPorts, port);
      CloseIn(ports0, port, removed, closeFails);
    }

    /** One pass of `_run_loop`'s `while self.running` loop: broadcast
        `data`, drop the ports whose write failed, then either sweep and
        reset the counter (once it reached 5000) or count `frequency` more.
        When the sender is not running the loop has ended and nothing changes. */
    method RunLoopIteration(data: Packet, writeErrors: map<SerialPort, string>, closeFails: set<SerialPort>,
                            open: nat -> OpenResult, log: Log)
      requires Valid() && loopStarted
      modifies this`serialPorts, this`timePassed, serialPorts, log`queue, log`records
      ensures Valid()
      ensures !old(running) ==> unchanged(this) && unchanged(log) && unchanged(serialPorts)
      ensures old(running) ==> timePassed == ResetStep(old(timePassed), frequency)
      ensures old(running) ==>
        var kept := Without(old(serialPorts), writeErrors.Keys);
        var swept := old(timePassed) >= SweepInterval;
        |serialPorts| >= |kept| && serialPorts[..|kept|] == kept
        && PortNames(serialPorts) == PortNames(kept) + (if swept then Succeeded(Pending(portNames, PortNames(kept)), open) else [])
        && log.queue == old(log.queue) + WriteLog(old(serialPorts), writeErrors)
                        + (if swept then SweepLog(Pending(portNames, PortNames(kept)), open) else [])
        && log.records == old(log.records) + WriteLog(old(serialPorts), writeErrors)
                          + (if swept then SweepLog(Pending(portNames, PortNames(kept)), open) else [])
      ensures old(running) ==> DeliveredUpTo(old(serialPorts), old(Received(serialPorts)), |old(serialPorts)|, data, writeErrors.Keys)
      ensures old(running) ==> OpenAfterPrune(old(serialPorts), writeErrors.Keys, closeFails)
    {
      if !running {
        return;
      }
      ghost var q0, r0 := log.queue, log.records;
      WriteAndPrune(data, writeErrors, closeFails, log);
      ghost var kept := serialPorts;
      CounterStep(open, log, old(serialPorts));
      ghost var swept := if old(timePassed) >= SweepInterval then SweepLog(Pending(portNames, PortNames(kept)), open) else [];
      AppendAssoc(q0, WriteLog(old(serialPorts), writeErrors), swept);
      AppendAssoc(r0, WriteLog(old(serialPorts), writeErrors), swept);
    }

    /** The end of one pass: once the counter reached 5000 it is reset and a
        sweep runs; otherwise it grows by `frequency`. No port that exists
        already, such as those in `known`, is touched. */
    method CounterStep(open: nat -> OpenResult, log: Log, ghost known: seq<SerialPort>)
      requires Valid()
      modifies this`serialPorts, this`timePassed, log`queue, log`records
      ensures Valid() && unchanged(known)
      ensures timePassed == ResetStep(old(timePassed), frequency)
      ensures |serialPorts| >= |old(serialPorts)| && serialPorts[..|old(serialPorts)|] == old(serialPorts)
      ensures var swept := old(timePassed) >= SweepInterval;
        PortNames(serialPorts) == PortNames(old(serialPorts))
          + (if swept then Succeeded(Pending(portNames, PortNames(old(serialPorts))), open) else [])
        && log.queue == old(log.queue) + (if swept then SweepLog(Pending(portNames, PortNames(old(serialPorts))), open) else [])
        && log.records == old(log.records) + (if swept then SweepLog(Pending(portNames, PortNames(old(serialPorts))), open) else [])
    {
      if timePassed >= SweepInterval {
        timePassed := 0;
        InitPorts(open, log);
      } else {
        timePassed := timePassed + frequency;
        assert serialPorts[..|serialPorts|] == serialPorts;
        assert log.queue == log.queue + [];
        assert log.records == log.records + [];
        assert PortNames(serialPorts) == PortNames(serialPorts) + [];
      }
    }

    /** The write pass followed by the prune pass: the ports whose write
        failed are closed (or left as they are when the close raises) and
        dropped, the others stay open and in order and received `data`. */
    method WriteAndPrune(data: Packet, writeErrors: map<SerialPort, string>, closeFails: set<SerialPort>, log: Log)
      requires Valid()
      modifies this`serialPorts, serialPorts, log`queue, log`records
      ensures Valid()
      ensures serialPorts == Without(old(serialPorts), writeErrors.Keys)
      ensures log.queue == old(log.queue) + WriteLog(old(serialPorts), writeErrors)
      ensures log.records == old(log.records) + WriteLog(old(serialPorts), writeErrors)
      ensures DeliveredUpTo(old(serialPorts), old(Received(serialPorts)), |old(serialPorts)|, data, writeErrors.Keys)
      ensures OpenAfterPrune(old(serialPorts), writeErrors.Keys, closeFails)
    {
      ghost var ports0 := serialPorts;
      var toRemove := WritePass(data, writeErrors, log);
      WithinNoDup(serialPorts, writeErrors.Keys);
      forall i | 0 <= i < |toRemove| ensures toRemove[i] in serialPorts {
        WithinMember(serialPorts, writeErrors.Keys, toRemove[i]);
      }
      PrunePass(toRemove, closeFails);
      WithoutWithin(ports0, writeErrors.Keys);
      OpenAfterPruneWithin(ports0, writeErrors.Keys, closeFails);
    }

    /** `stop`: log, mark the sender stopped, close every open port (a close
        that raises is ignored) and empty the list, whatever the closes did. */
    method Stop(closeFails: set<SerialPort>, log: Log)
      requires Valid()
      modifies this`running, this`serialPorts, serialPorts`isOpen, log`queue, log`records
      ensures !running && serialPorts == [] && Valid()
      ensures forall i :: 0 <= i < |old(serialPorts)| ==>
        old(serialPorts)[i].isOpen == (old(serialPorts[i].isOpen) && old(serialPorts)[i] in closeFails)
      ensures log.queue == old(log.queue) + [LogEntry(INFO, StoppingMessage)]
      ensures log.records == old(log.records) + [LogEntry(INFO, StoppingMessage)]
    {
      log.LogInfo(StoppingMessage);
      running := false;
      var i := 0;
      while i < |serialPorts|
        invariant 0 <= i <= |serialPorts| && serialPorts == old(serialPorts) && !running
        invariant log.queue == old(log.queue) + [LogEntry(INFO, StoppingMessage)]
        invariant log.records == old(log.records) + [LogEntry(INFO, StoppingMessage)]
        invariant forall j :: 0 <= j < i ==>
          serialPorts[j].isOpen == (old(serialPorts[j].isOpen) && serialPorts[j] in closeFails)
        invariant forall j :: i <= j < |serialPorts| ==> serialPorts[j].isOpen == old(serialPorts[j].isOpen)
      {
        serialPorts[i].Close(serialPorts[i] in closeFails);
        i := i + 1;
      }
      serialPorts := [];
    }
  }
}
