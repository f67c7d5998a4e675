/** The list logic both senders share: which configured names a sweep of
    `init_ports` tries to open, which of those attempts end up as open ports,
    and what a write pass delivers to the open ports. */
module Sweep {
  import opened Lists
  import opened Pyserial

  /** `[port.port for port in ports]`: the device names of the open ports, in order. */
  function PortNames(ports: seq<SerialPort>): (r: seq<string>)
    ensures |r| == |ports|
  {
    if ports == [] then [] else PortNames(ports[..|ports| - 1]) + [ports[|ports| - 1].port]
  }

  lemma {:induction false} PortNamesConcat(a: seq<SerialPort>, b: seq<SerialPort>)
    ensures PortNames(a + b) == PortNames(a) + PortNames(b)
  {
    if b != [] {
      var n := |b| - 1;
      assert (a + b)[..|a + b| - 1] == a + b[..n];
      PortNamesConcat(a, b[..n]);
    } else {
      assert a + b == a;
    }
  }

  /** Appending a port appends its name. */
  lemma PortNamesAppend(ports: seq<SerialPort>, p: SerialPort)
    ensures PortNames(ports + [p]) == PortNames(ports) + [p.port]
  {
    assert (ports + [p])[..|ports|] == ports;
  }

  lemma {:induction false} PortNamesAt(ports: seq<SerialPort>, i: int)
    requires 0 <= i < |ports|
    ensures PortNames(ports)[i] == ports[i].port
  {
    if i < |ports| - 1 {
      PortNamesAt(ports[..|ports| - 1], i);
    }
  }

  /** `ports_to_initialize`: the configured names that are not the name of an
      open port, in configured order. */
  function Pending(names: seq<string>, openNames: seq<string>): seq<string> {
    Without(names, set n | n in openNames)
  }

  /** A name is attempted exactly when it is configured and no open port has it. */
  lemma PendingMember(names: seq<string>, openNames: seq<string>, x: string)
    ensures x in Pending(names, openNames) <==> x in names && x !in openNames
  {
    WithoutMember(names, (set n | n in openNames), x);
  }

  /** The names among `attempts` whose open succeeded, when attempt `i` of the
      sweep has outcome `open(i)`. */
  function Succeeded(attempts: seq<string>, open: nat -> OpenResult): (r: seq<string>)
    ensures |r| <= |attempts|
  {
    if attempts == [] then []
    else
      var n := |attempts| - 1;
      Succeeded(attempts[..n], open) + (if open(n).Opened? then [attempts[n]] else [])
  }

  /** When every attempt opens, every attempted name becomes an open port, in order. */
  lemma {:induction false} SucceededAllOpen(attempts: seq<string>, open: nat -> OpenResult)
    requires forall i :: 0 <= i < |attempts| ==> open(i).Opened?
    ensures Succeeded(attempts, open) == attempts
  {
    if attempts != [] {
      var n := |attempts| - 1;
      SucceededAllOpen(attempts[..n], open);
      assert attempts == attempts[..n] + [attempts[n]];
    }
  }

  /** When every attempt fails, no port is added. */
  lemma {:induction false} SucceededAllFail(attempts: seq<string>, open: nat -> OpenResult)
    requires forall i :: 0 <= i < |attempts| ==> open(i).Failed?
    ensures Succeeded(attempts, open) == []
  {
    if attempts != [] {
      SucceededAllFail(attempts[..|attempts| - 1], open);
    }
  }

  /** One more attempt adds its name at the end exactly when it opened; what
      the earlier attempts gave is kept as it was. */
  lemma SucceededSplit(attempts: seq<string>, open: nat -> OpenResult, k: nat)
    requires k < |attempts|
    ensures open(k).Opened? ==> Succeeded(attempts[..k + 1], open) == Succeeded(attempts[..k], open) + [attempts[k]]
    ensures open(k).Failed? ==> Succeeded(attempts[..k + 1], open) == Succeeded(attempts[..k], open)
  {
    assert attempts[..k + 1][..k] == attempts[..k];
    assert Succeeded(attempts[..k], open) + [] == Succeeded(attempts[..k], open);
  }

  /** Only attempted names become open ports. */
  lemma {:induction false} SucceededMember(attempts: seq<string>, open: nat -> OpenResult, x: string)
    requires x in Succeeded(attempts, open)
    ensures x in attempts
  {
    var n := |attempts| - 1;
    if x in Succeeded(attempts[..n], open) {
      SucceededMember(attempts[..n], open, x);
    }
  }

  lemma {:induction false} SucceededNoDup(attempts: seq<string>, open: nat -> OpenResult)
    requires NoDup(attempts)
    ensures NoDup(Succeeded(attempts, open))
  {
    if attempts != [] {
      var n := |attempts| - 1;
      assert NoDup(attempts[..n]);
      SucceededNoDup(attempts[..n], open);
      assert attempts[n] !in attempts[..n];
      if attempts[n] in Succeeded(attempts[..n], open) {
        SucceededMember(attempts[..n], open, attempts[n]);
      }
      if open(n).Opened? {
        NoDupAppend(Succeeded(attempts[..n], open), attempts[n]);
      }
    }
  }

  /** At most one open port per name survives a sweep, and it only adds
      configured names: if the configured names and the names of the open
      ports are each free of duplicates, so are the names after the sweep, and
      every added name is configured and was not open before. */
  lemma OnePortPerName(names: seq<string>, openNames: seq<string>, open: nat -> OpenResult)
    requires NoDup(names) && NoDup(openNames)
    ensures NoDup(openNames + Succeeded(Pending(names, openNames), open))
    ensures forall i :: 0 <= i < |Succeeded(Pending(names, openNames), open)| ==>
      Succeeded(Pending(names, openNames), open)[i] in names && Succeeded(Pending(names, openNames), open)[i] !in openNames
  {
    var pending := Pending(names, openNames);
    var added := Succeeded(pending, open);
    WithoutNoDup(names, set n | n in openNames);
    SucceededNoDup(pending, open);
    forall i | 0 <= i < |added| ensures added[i] in names && added[i] !in openNames {
      SucceededMember(pending, open, added[i]);
      PendingMember(names, openNames, added[i]);
    }
    var all := openNames + added;
    forall i, j | 0 <= i < j < |all| ensures all[i] != all[j] {
      if i < |openNames| && j >= |openNames| {
        assert all[j] == added[j - |openNames|];
      } else if i >= |openNames| {
        assert all[i] == added[i - |openNames|] && all[j] == added[j - |openNames|];
      }
    }
  }

  /** Every port of `ports` is open. */
  ghost predicate AllOpen(ports: seq<SerialPort>)
    reads ports`isOpen
  {
    forall i :: 0 <= i < |ports| ==> ports[i].isOpen
  }

  /** After a write pass and the closing of its failed ports: a port is
      still open exactly when its write succeeded or its close raised. */
  ghost predicate OpenAfterPrune(ports: seq<SerialPort>, failing: set<SerialPort>, closeFails: set<SerialPort>)
    reads ports`isOpen
  {
    forall i :: 0 <= i < |ports| ==> ports[i].isOpen == (ports[i] !in failing || ports[i] in closeFails)
  }

  /** What each port of `ports` has received so far. */
  ghost function Received(ports: seq<SerialPort>): (r: seq<seq<Packet>>)
    reads ports
    ensures |r| == |ports|
  {
    seq(|ports|, j requires 0 <= j < |ports| reads ports => ports[j].received)
  }

  /** A write pass over `ports` has reached port `i`: each port before `i`
      that does not fail has received `data` on top of what it held in
      `before`, and every other port still holds what it held. */
  ghost predicate DeliveredUpTo(ports: seq<SerialPort>, before: seq<seq<Packet>>, i: int, data: Packet, failing: set<SerialPort>)
    reads ports`received
  {
    |before| == |ports| &&
    forall j :: 0 <= j < |ports| ==>
      ports[j].received == if j < i && ports[j] !in failing then before[j] + [data] else before[j]
  }

  /** `port.write(data)` on port `i` of a write pass; the port fails when it is in `failing`. */
  method DeliverTo(ports: seq<SerialPort>, i: nat, data: Packet, failing: set<SerialPort>, ghost before: seq<seq<Packet>>)
    returns (ok: bool)
    requires i < |ports| && NoDup(ports) && AllOpen(ports)
    requires DeliveredUpTo(ports, before, i, data, failing)
    modifies {ports[i]}`received
    ensures ok == (ports[i] !in failing)
    ensures AllOpen(ports) && DeliveredUpTo(ports, before, i + 1, data, failing)
  {
    var port := ports[i];
    ok := port.Write(data, port in failing);
    forall j | 0 <= j < |ports|
      ensures ports[j].received == if j < i + 1 && ports[j] !in failing then before[j] + [data] else before[j]
      ensures ports[j].isOpen == old(ports[j].isOpen)
    {
      if j != i {
        assert ports[j] != port;
        assert ports[j].received == old(ports[j].received);
      }
    }
  }

  /** The ports left in the list after the prune pass are the open ones. */
  lemma {:induction false} OpenAfterPruneKept(ports: seq<SerialPort>, removed: set<SerialPort>, closeFails: set<SerialPort>)
    requires OpenAfterPrune(ports, removed, closeFails)
    ensures AllOpen(Without(ports, removed))
  {
    if ports != [] {
      var init := ports[..|ports| - 1];
      assert OpenAfterPrune(init, removed, closeFails) by {
        forall i | 0 <= i < |init| ensures init[i] == ports[i] {}
      }
      OpenAfterPruneKept(init, removed, closeFails);
      var kept, last := Without(init, removed), ports[|ports| - 1];
      forall i | 0 <= i < |Without(ports, removed)| ensures Without(ports, removed)[i].isOpen {
        if i < |kept| {
          assert Without(ports, removed)[i] == kept[i];
        }
      }
    }
  }

  /** Only the ports of `ports` matter for which of them count as removed:
      removing the ones a write pass collected is removing the failing ones. */
  lemma OpenAfterPruneWithin(ports: seq<SerialPort>, failing: set<SerialPort>, closeFails: set<SerialPort>)
    requires OpenAfterPrune(ports, Elems(Within(ports, failing)), closeFails)
    ensures OpenAfterPrune(ports, failing, closeFails)
  {
    forall i | 0 <= i < |ports| ensures ports[i] in Elems(Within(ports, failing)) <==> ports[i] in failing {
      WithinMember(ports, failing, ports[i]);
    }
  }

  /** `port.close()` on a port of `ports` that the prune pass has not closed
      yet; the close raises when the port is in `closeFails`. */
  method CloseIn(ghost ports: seq<SerialPort>, port: SerialPort, ghost removed: set<SerialPort>, closeFails: set<SerialPort>)
    requires port in ports && port !in removed
    requires OpenAfterPrune(ports, removed, closeFails)
    modifies port`isOpen
    ensures OpenAfterPrune(ports, removed + {port}, closeFails)
  {
    port.Close(port in closeFails);
    forall j | 0 <= j < |ports|
      ensures ports[j].isOpen == (ports[j] !in removed + {port} || ports[j] in closeFails)
    {
      if ports[j] != port {
        assert ports[j].isOpen == old(ports[j].isOpen);
      }
    }
  }
}
