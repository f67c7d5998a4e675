/** The asyncio serial sender of `serialsender.py`, the variant the GUI uses:
    the same configured names and open ports as the thread-based sender, but
    it reports on standard output, drops a failed port without closing it,
    and its sweep counter carries the time past 5000 ms over instead of
    resetting it. One pass of `send`'s `while True` loop is one method call;
    the loop is repeated calls. */
module SerialSender {
  import opened Text
  import opened Lists
  import opened Pyserial
  import opened Sweep

  /** The counted time after which the loop sweeps again. */
  const SweepInterval := 5000

  /** The frequency (ms per tick) `start` uses when it is given none. */
  const DefaultFrequency := 250

  /** Standard output, as the sequence of `write` calls it receives, oldest
      first. `print(s)` writes `s` and then the line end as a second call. */
  class Stdout {
    var writes: seq<string>

    constructor ()
      ensures writes == []
    {
      writes := [];
    }

    /** `sys.stdout.write(s)`. */
    method Write(s: string)
      modifies this`writes
      ensures writes == old(writes) + [s]
    {
      writes := writes + [s];
    }

    /** `print(s)`. */
    method Print(s: string)
      modifies this`writes
      ensures writes == old(writes) + [s, "\n"]
    {
      writes := writes + [s, "\n"];
    }
  }

  const ConnectErrorPrefix := "Error connecting to "

  /** What `init_ports` prints after "Error connecting to NAME: " for an open
      that raised with text `m`. */
  function ConnectFailure(m: string): string {
    match Classify(m)
    case DeviceNotFound => "Serial device does not exist. Retrying in 5 seconds."
    case PermissionDenied => "No permission. Retrying in 5 seconds."
    case OtherFailure => "\"" + m + "\". Retrying in 5 seconds"
  }

  /** What `init_ports` prints for the attempt to open `name` that had outcome `r`. */
  function ConnectLine(name: string, r: OpenResult): string {
    match r
    case Opened => "Connected to " + name
    case Failed(m) => ConnectErrorPrefix + name + ": " + ConnectFailure(m)
  }

  /** Every failed open, and only a failed open, prints a line that starts
      with "Error connecting to " and the name; the successful one prints
      "Connected to " and the name. */
  lemma ConnectLineReports(name: string, r: OpenResult)
    ensures r.Failed? <==> ConnectErrorPrefix + name + ": " <= ConnectLine(name, r)
    ensures r.Opened? ==> ConnectLine(name, r) == "Connected to " + name
  {
    var p := ConnectErrorPrefix + name + ": ";
    if r.Opened? {
      assert ConnectLine(name, r)[0] == 'C' && p[0] == 'E';
    } else {
      assert ConnectLine(name, r) == p + ConnectFailure(r.message);
    }
  }

  /** What `print(line)` for each of `lines` in turn writes. */
  function Printed(lines: seq<string>): (r: seq<string>)
    ensures |r| == 2 * |lines|
  {
    if lines == [] then [] else Printed(lines[..|lines| - 1]) + [lines[|lines| - 1], "\n"]
  }

  lemma {:induction false} PrintedAt(lines: seq<string>, i: int)
    requires 0 <= i < |lines|
    ensures Printed(lines)[2 * i] == lines[i] && Printed(lines)[2 * i + 1] == "\n"
  {
    var n := |lines| - 1;
    var pre := Printed(lines[..n]);
    assert Printed(lines) == pre + [lines[n], "\n"];
    if i < n {
      PrintedAt(lines[..n], i);
    }
  }

  lemma PrintedAppend(lines: seq<string>, line: string)
    ensures Printed(lines + [line]) == Printed(lines) + [line, "\n"]
  {
    assert (lines + [line])[..|lines|] == lines;
  }

  /** The line of each attempt of a sweep over `attempts`. */
  function ConnectLines(attempts: seq<string>, open: nat -> OpenResult): (r: seq<string>)
    ensures |r| == |attempts|
  {
    seq(|attempts|, i requires 0 <= i < |attempts| => ConnectLine(attempts[i], open(i)))
  }

  /** What a sweep over `attempts` writes: one printed line per attempt, in order. */
  function SweepOutput(attempts: seq<string>, open: nat -> OpenResult): (r: seq<string>)
    ensures |r| == 2 * |attempts|
  {
    Printed(ConnectLines(attempts, open))
  }

  /** Printed line `i` of a sweep reports attempt `i`. */
  lemma SweepOutputAt(attempts: seq<string>, open: nat -> OpenResult, i: int)
    requires 0 <= i < |attempts|
    ensures SweepOutput(attempts, open)[2 * i] == ConnectLine(attempts[i], open(i))
    ensures SweepOutput(attempts, open)[2 * i + 1] == "\n"
  {
    PrintedAt(ConnectLines(attempts, open), i);
  }

  lemma SweepOutputStep(attempts: seq<string>, open: nat -> OpenResult, k: nat)
    requires k < |attempts|
    ensures SweepOutput(attempts[..k + 1], open) == SweepOutput(attempts[..k], open) + [ConnectLine(attempts[k], open(k)), "\n"]
  {
    var lines := ConnectLines(attempts[..k], open);
    assert ConnectLines(attempts[..k + 1], open) == lines + [ConnectLine(attempts[k], open(k))];
    PrintedAppend(lines, ConnectLine(attempts[k], open(k)));
  }

  /** The line printed for a port whose write raised with text `error`. */
  function WriteErrorLine(port: SerialPort, error: string): string {
    "Error writing to " + port.port + ": " + error
  }

  /** What a write pass over `ports` writes: one printed line per port whose write failed, in order. */
  function WriteOutput(ports: seq<SerialPort>, writeErrors: map<SerialPort, string>): (r: seq<string>)
    ensures |r| == 2 * |Within(ports, writeErrors.Keys)|
  {
    if ports == [] then []
    else
      var n := |ports| - 1;
      var p := ports[n];
      WriteOutput(ports[..n], writeErrors) + (if p in writeErrors then [WriteErrorLine(p, writeErrors[p]), "\n"] else [])
  }

  /** Extending a write pass by port `i` adds that port's error lines, if it failed. */
  lemma WriteOutputPrefix(ports: seq<SerialPort>, writeErrors: map<SerialPort, string>, i: nat)
    requires i < |ports|
    ensures WriteOutput(ports[..i + 1], writeErrors) == WriteOutput(ports[..i], writeErrors)
      + (if ports[i] in writeErrors then [WriteErrorLine(ports[i], writeErrors[ports[i]]), "\n"] else [])
    ensures Within(ports[..i + 1], writeErrors.Keys) == Within(ports[..i], writeErrors.Keys)
      + (if ports[i] in writeErrors.Keys then [ports[i]] else [])
  {
    assert ports[..i + 1][..i] == ports[..i];
    assert ports[..i + 1][i] == ports[i];
  }

  /** Printed line `i` of a write pass reports the `i`-th port whose write failed, with its error. */
  lemma {:induction false} WriteOutputAt(ports: seq<SerialPort>, writeErrors: map<SerialPort, string>, i: int)
    requires 0 <= i < |Within(ports, writeErrors.Keys)|
    ensures Within(ports, writeErrors.Keys)[i] in writeErrors
    ensures WriteOutput(ports, writeErrors)[2 * i]
         == WriteErrorLine(Within(ports, writeErrors.Keys)[i], writeErrors[Within(ports, writeErrors.Keys)[i]])
    ensures WriteOutput(ports, writeErrors)[2 * i + 1] == "\n"
  {
    var n := |ports| - 1;
    var p := ports[n];
    assert ports[..|ports| - 1] == ports[..n];
    if i < |Within(ports[..n], writeErrors.Keys)| {
      WriteOutputAt(ports[..n], writeErrors, i);
    }
  }

  /** The sweep counter after one tick, `time_passed` before it being `t`:
      past 5000 the interval is subtracted and the remainder kept. */
  function CarryStep(t: int, frequency: int): int {
    if t >= SweepInterval then t - SweepInterval else t + frequency
  }

  /** The counter after `k` ticks from `t`. */
  function CarryIter(t: int, frequency: int, k: nat): int {
    if k == 0 then t else CarryStep(CarryIter(t, frequency, k - 1), frequency)
  }

  /** How many of the first `k` ticks from `t` swept. */
  function CarrySweeps(t: int, frequency: int, k: nat): (r: nat)
    ensures r <= k
  {
    if k == 0 then 0
    else CarrySweeps(t, frequency, k - 1) + (if CarryIter(t, frequency, k - 1) >= SweepInterval then 1 else 0)
  }

  /** With a positive frequency the counter stays in `0 .. 5000 + frequency`. */
  lemma CarryStepBounds(t: int, frequency: int)
    requires frequency > 0 && 0 <= t < SweepInterval + frequency
    ensures 0 <= CarryStep(t, frequency) < SweepInterval + frequency
  {
  }

  lemma {:induction false} CarryIterBounds(frequency: int, k: nat)
    requires frequency > 0
    ensures 0 <= CarryIter(0, frequency, k) < SweepInterval + frequency
  {
    if k > 0 {
      CarryIterBounds(frequency, k - 1);
      CarryStepBounds(CarryIter(0, frequency, k - 1), frequency);
    }
  }

  /** No counted time is lost: every tick that does not sweep adds
      `frequency`, every sweep takes away exactly 5000. */
  lemma {:induction false} CarryConserves(t: int, frequency: int, k: nat)
    ensures CarryIter(t, frequency, k) + SweepInterval * CarrySweeps(t, frequency, k)
         == t + frequency * (k - CarrySweeps(t, frequency, k))
  {
    if k > 0 {
      CarryConserves(t, frequency, k - 1);
      var s := CarrySweeps(t, frequency, k - 1);
      if CarryIter(t, frequency, k - 1) >= SweepInterval {
        assert SweepInterval * (s + 1) == SweepInterval * s + SweepInterval;
      } else {
        assert frequency * (k - s) == frequency * (k - 1 - s) + frequency;
      }
    }
  }

  /** From 0, over `k` ticks the sweeps never outrun the counted time:
      each sweep stands for 5000 ms of it, so at most `frequency * k / (5000 + frequency)` sweep. */
  lemma SweepRate(frequency: int, k: nat)
    requires frequency > 0
    ensures (SweepInterval + frequency) * CarrySweeps(0, frequency, k) <= frequency * k
  {
    CarryConserves(0, frequency, k);
    CarryIterBounds(frequency, k);
    var s := CarrySweeps(0, frequency, k);
    assert frequency * (k - s) == frequency * k - frequency * s;
    assert (SweepInterval + frequency) * s == SweepInterval * s + frequency * s;
  }

  /** `serialsender.SerialSender`. `timePassed` is `send`'s local
      `time_passed`; `started` says that `start` ran (it sets `frequency`),
      and `sending` that `send` made its first sweep. */
  class SerialSender {
    var portNames: seq<string>
    var serialPorts: seq<SerialPort>
    var frequency: int
    var timePassed: int
    var started: bool
    var sending: bool

    /** No port object is listed twice and every listed port is open. */
    ghost predicate Valid()
      reads this`serialPorts, serialPorts`isOpen
    {
      NoDup(serialPorts) && AllOpen(serialPorts)
    }

    constructor (portNames: seq<string>)
      ensures Valid()
      ensures this.portNames == portNames && serialPorts == []
      ensures !started && !sending
    {
      this.portNames := portNames;
      serialPorts := [];
      frequency := DefaultFrequency;
      timePassed := 0;
      started := false;
      sending := false;
    }

    /** `init_ports`: attempt every configured name that no open port has,
        in configured order; attempt `i` has outcome `open(i)`. The open
        ports stay as they are and in order, each port that opens is
        appended, and one line per attempt is printed. */
    method InitPorts(open: nat -> OpenResult, out: Stdout)
      requires Valid()
      modifies this`serialPorts, out`writes
      ensures Valid()
      ensures |serialPorts| >= |old(serialPorts)| && serialPorts[..|old(serialPorts)|] == old(serialPorts)
      ensures PortNames(serialPorts)
           == PortNames(old(serialPorts)) + Succeeded(Pending(portNames, PortNames(old(serialPorts))), open)
      ensures out.writes == old(out.writes) + SweepOutput(Pending(portNames, PortNames(old(serialPorts))), open)
    {
      var pending := Pending(portNames, PortNames(serialPorts));
      ghost var before := serialPorts;
      ghost var added: seq<SerialPort> := [];
      ghost var p0 := out.writes;
      var k := 0;
      while k < |pending|
        invariant 0 <= k <= |pending|
        invariant SweepReached(pending, k, open, out, before, added, p0)
      {
        added := SweepStep(pending, k, open, out, before, added, p0);
        k := k + 1;
      }
      assert pending[..k] == pending;
      PortNamesConcat(before, added);
      assert serialPorts[..|before|] == before;
    }

    /** `init_ports` has made the first `k` attempts of `pending`: the ports
        it opened, `added`, follow the earlier ones, and each attempt has
        printed its line. */
    ghost predicate SweepReached(pending: seq<string>, k: nat, open: nat -> OpenResult, out: Stdout,
                                 before: seq<SerialPort>, added: seq<SerialPort>, p0: seq<string>)
      reads this`serialPorts, serialPorts`isOpen, out`writes
    {
      k <= |pending| && Valid()
      && serialPorts == before + added
      && PortNames(added) == Succeeded(pending[..k], open)
      && out.writes == p0 + SweepOutput(pending[..k], open)
    }

    /** One turn of `init_ports`'s loop, stated as the step from the first `k`
        attempts to the first `k + 1`: `added` are the ports opened so far. */
    method SweepStep(pending: seq<string>, k: nat, open: nat -> OpenResult, out: Stdout,
                     ghost before: seq<SerialPort>, ghost added: seq<SerialPort>, ghost p0: seq<string>)
      returns (ghost added': seq<SerialPort>)
      requires k < |pending| && SweepReached(pending, k, open, out, before, added, p0)
      modifies this`serialPorts, out`writes
      ensures SweepReached(pending, k + 1, open, out, before, added', p0)
    {
      var name := pending[k];
      SweepOutputStep(pending, open, k);
      SucceededSplit(pending, open, k);
      AppendAssoc(p0, SweepOutput(pending[..k], open), [ConnectLine(name, open(k)), "\n"]);
      ghost var prev := serialPorts;
      TryOpen(name, open(k), out);
      added' := added;
      if open(k).Opened? {
        var port := serialPorts[|prev|];
        assert serialPorts == prev + [port];
        PortNamesAppend(added, port);
        AppendAssoc(before, added, [port]);
        added' := added + [port];
      }
    }

    /** The body of `init_ports`'s loop for one name whose open had outcome `r`. */
    method TryOpen(name: string, r: OpenResult, out: Stdout)
      requires Valid()
      modifies this`serialPorts, out`writes
      ensures Valid()
      ensures r.Failed? ==> serialPorts == old(serialPorts)
      ensures r.Opened? ==>
        |serialPorts| == |old(serialPorts)| + 1 && serialPorts == old(serialPorts) + [serialPorts[|old(serialPorts)|]]
        && var port := serialPorts[|old(serialPorts)|];
           fresh(port) && port.port == name && port.baudrate == BaudRate && port.received == []
      ensures out.writes == old(out.writes) + [ConnectLine(name, r), "\n"]
    {
      match r {
        case Opened =>
          var port := new SerialPort(name, BaudRate);
          serialPorts := serialPorts + [port];
          out.Print("Connected to " + name);
        case Failed(e) =>
          if Contains(e, "FileNotFoundError") {
            out.Print(ConnectErrorPrefix + name + ": " + "Serial device does not exist. Retrying in 5 seconds.");
          } else if Contains(e, "PermissionError") {
            out.Print(ConnectErrorPrefix + name + ": " + "No permission. Retrying in 5 seconds.");
          } else {
            out.Print(ConnectErrorPrefix + name + ": " + ("\"" + e + "\". Retrying in 5 seconds"));
          }
      }
    }

    /** `start`: print the banner and record the frequency. The event loop
        it starts runs `BeginSend` and then `SendIteration`. */
    method Start(frequency: int, out: Stdout)
      modifies this`frequency, this`started, this`sending, out`writes
      ensures this.frequency == frequency && started && !sending
      ensures out.writes == old(out.writes) + ["STARTING SERIAL COMMUNICATION", "\n"]
    {
      out.Print("STARTING SERIAL COMMUNICATION");
      this.frequency := frequency;
      started := true;
      sending := false;
    }

    /** The start of `send`: the first sweep runs before any write, then the
        counter starts at 0. */
    method BeginSend(open: nat -> OpenResult, out: Stdout)
      requires Valid() && started
      modifies this`timePassed, this`sending, this`serialPorts, out`writes
      ensures Valid() && timePassed == 0 && sending
      ensures PortNames(serialPorts)
           == PortNames(old(serialPorts)) + Succeeded(Pending(portNames, PortNames(old(serialPorts))), open)
      ensures |serialPorts| >= |old(serialPorts)| && serialPorts[..|old(serialPorts)|] == old(serialPorts)
      ensures out.writes == old(out.writes) + SweepOutput(Pending(portNames, PortNames(old(serialPorts))), open)
    {
      InitPorts(open, out);
      timePassed := 0;
      sending := true;
    }

    /** The write pass of one tick: `data` is written to every open port in
        order; a port whose write raises (it is in `writeErrors`, with the
        text of the exception) is reported and collected, in order. */
    method WritePass(data: Packet, writeErrors: map<SerialPort, string>, out: Stdout) returns (toRemove: seq<SerialPort>)
      requires Valid()
      modifies serialPorts, out`writes
      ensures Valid()
      ensures toRemove == Within(serialPorts, writeErrors.Keys)
      ensures DeliveredUpTo(serialPorts, old(Received(serialPorts)), |serialPorts|, data, writeErrors.Keys)
      ensures out.writes == old(out.writes) + WriteOutput(serialPorts, writeErrors)
    {
      ghost var p0 := out.writes;
      ghost var before := Received(serialPorts);
      toRemove := [];
      var i := 0;
      while i < |serialPorts|
        invariant 0 <= i <= |serialPorts|
        invariant PassReached(i, data, writeErrors, toRemove, out, p0, before)
      {
        toRemove := WriteStep(data, writeErrors, out, i, toRemove, p0, before);
        i := i + 1;
      }
      assert serialPorts[..i] == serialPorts;
    }

    /** The write pass has handled ports `0 .. i-1`: the failing ones among
        them are collected and reported, in order, and the others have received `data`. */
    ghost predicate PassReached(i: nat, data: Packet, writeErrors: map<SerialPort, string>, toRemove: seq<SerialPort>,
                                out: Stdout, p0: seq<string>, before: seq<seq<Packet>>)
      reads this`serialPorts, serialPorts`isOpen, serialPorts`received, out`writes
    {
      i <= |serialPorts| && Valid()
      && toRemove == Within(serialPorts[..i], writeErrors.Keys)
      && DeliveredUpTo(serialPorts, before, i, data, writeErrors.Keys)
      && out.writes == p0 + WriteOutput(serialPorts[..i], writeErrors)
    }

    /** One turn of the write pass: the write to port `i`, after ports `0 .. i-1`. */
    method WriteStep(data: Packet, writeErrors: map<SerialPort, string>, out: Stdout, i: nat,
                     toRemove: seq<SerialPort>, ghost p0: seq<string>, ghost before: seq<seq<Packet>>)
      returns (toRemove': seq<SerialPort>)
      requires i < |serialPorts| && PassReached(i, data, writeErrors, toRemove, out, p0, before)
      modifies {serialPorts[i]}`received, out`writes
      ensures PassReached(i + 1, data, writeErrors, toRemove', out, p0, before)
    {
      var port := serialPorts[i];
      WriteOutputPrefix(serialPorts, writeErrors, i);
      var ok := DeliverTo(serialPorts, i, data, writeErrors.Keys, before);
      toRemove' := toRemove;
      if !ok {
        AppendAssoc(p0, WriteOutput(serialPorts[..i], writeErrors), [WriteErrorLine(port, writeErrors[port]), "\n"]);
        out.Print(WriteErrorLine(port, writeErrors[port]));
        toRemove' := toRemove + [port];
      } else {
        assert WriteOutput(serialPorts[..i + 1], writeErrors) == WriteOutput(serialPorts[..i], writeErrors) + [];
        assert toRemove' == Within(serialPorts[..i], writeErrors.Keys) + [];
      }
    }

    /** The removal loop of one tick: each collected port is removed from
        the list, and nothing is closed. */
    method PrunePass(toRemove: seq<SerialPort>)
      requires Valid() && NoDup(toRemove) && forall i :: 0 <= i < |toRemove| ==> toRemove[i] in serialPorts
      modifies this`serialPorts
      ensures serialPorts == Without(old(serialPorts), Elems(toRemove))
      ensures Valid()
    {
      ghost var ports0 := serialPorts;
      var k := 0;
      WithoutNone(ports0, Elems(toRemove[..0]));
      while k < |toRemove|
        invariant 0 <= k <= |toRemove|
        invariant serialPorts == Without(ports0, Elems(toRemove[..k]))
        invariant NoDup(serialPorts)
      {
        var port := toRemove[k];
        assert Elems(toRemove[..k + 1]) == Elems(toRemove[..k]) + {port};
        assert port !in Elems(toRemove[..k]);
        RemoveFirstStep(ports0, Elems(toRemove[..k]), port);
        WithoutNoDup(ports0, Elems(toRemove[..k]) + {port});
        serialPorts := RemoveFirst(serialPorts, port);
        k := k + 1;
      }
      assert toRemove[..k] == toRemove;
      forall i | 0 <= i < |serialPorts| ensures serialPorts[i].isOpen {
        WithoutMember(ports0, Elems(toRemove), serialPorts[i]);
        var j :| 0 <= j < |ports0| && ports0[j] == serialPorts[i];
      }
    }

    /** The write pass followed by the removal loop: the ports whose write
        failed are dropped and left open, the others stay in order and
        received `data`. */
    method WriteAndPrune(data: Packet, writeErrors: map<SerialPort, string>, out: Stdout)
      requires Valid()
      modifies this`serialPorts, serialPorts, out`writes
      ensures Valid()
      ensures serialPorts == Without(old(serialPorts), writeErrors.Keys)
      ensures out.writes == old(out.writes) + WriteOutput(old(serialPorts), writeErrors)
      ensures DeliveredUpTo(old(serialPorts), old(Received(serialPorts)), |old(serialPorts)|, data, writeErrors.Keys)
      ensures AllOpen(old(serialPorts))
    {
      ghost var ports0 := serialPorts;
      var toRemove := WritePass(data, writeErrors, out);
      WithinNoDup(serialPorts, writeErrors.Keys);
      forall i | 0 <= i < |toRemove| ensures toRemove[i] in serialPorts {
        WithinMember(serialPorts, writeErrors.Keys, toRemove[i]);
      }
      PrunePass(toRemove);
      WithoutWithin(ports0, writeErrors.Keys);
    }

    /** The end of one pass, after the sleep: past 5000 the counter gives up
        5000 and a sweep runs; otherwise it grows by `frequency`. No port
        that exists already, such as those in `known`, is touched. */
    method CounterStep(open: nat -> OpenResult, out: Stdout, ghost known: seq<SerialPort>)
      requires Valid()
      modifies this`serialPorts, this`timePassed, out`writes
      ensures Valid() && unchanged(known)
      ensures timePassed == CarryStep(old(timePassed), frequency)
      ensures |serialPorts| >= |old(serialPorts)| && serialPorts[..|old(serialPorts)|] == old(serialPorts)
      ensures var swept := old(timePassed) >= SweepInterval;
        PortNames(serialPorts) == PortNames(old(serialPorts))
          + (if swept then Succeeded(Pending(portNames, PortNames(old(serialPorts))), open) else [])
        && out.writes == old(out.writes) + (if swept then SweepOutput(Pending(portNames, PortNames(old(serialPorts))), open) else [])
    {
      if timePassed >= SweepInterval {
        timePassed := timePassed - SweepInterval;
        InitPorts(open, out);
      } else {
        timePassed := timePassed + frequency;
        assert serialPorts[..|serialPorts|] == serialPorts;
        assert out.writes == out.writes + [];
        assert PortNames(serialPorts) == PortNames(serialPorts) + [];
      }
    }

    /** One pass of `send`'s `while True` loop with the package `data`:
        broadcast it, drop the ports whose write failed, sleep, then either
        sweep (once the counter reached 5000) or count `frequency` more. */
    method SendIteration(data: Packet, writeErrors: map<SerialPort, string>, open: nat -> OpenResult, out: Stdout)
      requires Valid() && sending
      modifies this`serialPorts, this`timePassed, serialPorts, out`writes
      ensures Valid()
      ensures timePassed == CarryStep(old(timePassed), frequency)
      ensures
        var kept := Without(old(serialPorts), writeErrors.Keys);
        var swept := old(timePassed) >= SweepInterval;
        |serialPorts| >= |kept| && serialPorts[..|kept|] == kept
        && PortNames(serialPorts) == PortNames(kept) + (if swept then Succeeded(Pending(portNames, PortNames(kept)), open) else [])
        && out.writes == old(out.writes) + WriteOutput(old(serialPorts), writeErrors)
                          + (if swept then SweepOutput(Pending(portNames, PortNames(kept)), open) else [])
      ensures DeliveredUpTo(old(serialPorts), old(Received(serialPorts)), |old(serialPorts)|, data, writeErrors.Keys)
      ensures AllOpen(old(serialPorts))
    {
      ghost var p0, ports0 := out.writes, serialPorts;
      WriteAndPrune(data, writeErrors, out);
      ghost var kept := serialPorts;
      CounterStep(open, out, ports0);
      AppendAssoc(p0, WriteOutput(old(serialPorts), writeErrors),
                  if old(timePassed) >= SweepInterval then SweepOutput(Pending(portNames, PortNames(kept)), open) else []);
    }

    /** `stop`: print the banner, end the sending loop, close every listed
        port in order and empty the list. `close` is not guarded here: when
        the close of a port raises (it is in `closeFails`), the ports before
        it are closed, it and the ones after it stay as they were, the list
        is not emptied, and `ok` is false. Ports closed by an earlier stop may
        still be listed; closing them again changes nothing. */
    method Stop(closeFails: set<SerialPort>, out: Stdout) returns (ok: bool)
      requires NoDup(serialPorts)
      modifies this`serialPorts, this`sending, serialPorts`isOpen, out`writes
      ensures out.writes == old(out.writes) + ["STOPPING SERIAL COMMUNICATION", "\n"]
      ensures !sending
      ensures ok <==> forall i :: 0 <= i < |old(serialPorts)| ==> old(serialPorts)[i] !in closeFails
      ensures ok ==> serialPorts == [] && Valid()
      ensures !ok ==> serialPorts == old(serialPorts)
      ensures forall i :: 0 <= i < |old(serialPorts)| ==>
        old(serialPorts)[i].isOpen == (FirstIn(old(serialPorts), closeFails) <= i && old(serialPorts[i].isOpen))
    {
      out.Print("STOPPING SERIAL COMMUNICATION");
      sending := false;
      var n := FirstIn(serialPorts, closeFails);
      FirstInSpec(serialPorts, closeFails);
      var i := 0;
      while i < |serialPorts|
        invariant 0 <= i <= n && serialPorts == old(serialPorts) && NoDup(serialPorts) && !sending
        invariant out.writes == old(out.writes) + ["STOPPING SERIAL COMMUNICATION", "\n"]
        invariant forall j :: 0 <= j < |serialPorts| ==> serialPorts[j].isOpen == (j >= i && old(serialPorts[j].isOpen))
      {
        var port := serialPorts[i];
        port.Close(port in closeFails);
        if port in closeFails {
          ok := false;
          return;
        }
        i := i + 1;
      }
      serialPorts := [];
      ok := true;
    }
  }

  /** The index of the first port in `ports` that is in `xs`, or `|ports|` when there is none. */
  function FirstIn(ports: seq<SerialPort>, xs: set<SerialPort>): (r: nat)
    ensures r <= |ports|
  {
    if ports == [] then 0
    else if ports[0] in xs then 0
    else 1 + FirstIn(ports[1..], xs)
  }

  /** `FirstIn` finds the first member of `xs`: none before it, and it is one unless there is none. */
  lemma {:induction false} FirstInSpec(ports: seq<SerialPort>, xs: set<SerialPort>)
    ensures forall i :: 0 <= i < FirstIn(ports, xs) ==> ports[i] !in xs
    ensures FirstIn(ports, xs) < |ports| ==> ports[FirstIn(ports, xs)] in xs
  {
    if ports != [] && ports[0] !in xs {
      FirstInSpec(ports[1..], xs);
      forall i | 0 < i < FirstIn(ports, xs) ensures ports[i] !in xs {
        assert ports[i] == ports[1..][i - 1];
      }
    }
  }
}
