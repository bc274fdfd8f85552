/**
 The simulated terminal and its adapter: the punch memory with its generations, the faults a
 request can meet, and the reading from a cursor.
 */
module MockDevice {
  import opened Ingestion
  import opened Wrappers

  // ---------------------------------------------------------------- the memory

  datatype Device = Device(generation: nat, logs: seq<AttendanceLog>)

  datatype Cursor = Cursor(generation: nat, index: nat)

  /** No cursor yet reads as generation 0, which no memory has. */
  const NO_CURSOR := Cursor(0, 0)

  datatype ReadResult = ReadResult(logs: seq<AttendanceLog>, cursor: Cursor)

  function Min(a: nat, b: nat): nat {
    if a < b then a else b
  }

  /** The records from the cursor on, or all of them when the memory was wiped since. */
  function ReadFromIndex(d: Device, c: Cursor, duplicateOnRead: bool): ReadResult {
    var start := if c.generation == d.generation then Min(c.index, |d.logs|) else 0;
    var slice := d.logs[start..];
    ReadResult(if duplicateOnRead then slice + slice else slice, Cursor(d.generation, |d.logs|))
  }

  /** A faulty terminal gives the same records twice over, and the cursor of the whole memory either way. */
  lemma DuplicatedRead(d: Device, c: Cursor, i: nat)
    requires i < |ReadFromIndex(d, c, false).logs|
    ensures var once, twice := ReadFromIndex(d, c, false), ReadFromIndex(d, c, true);
            && |twice.logs| == 2 * |once.logs| && twice.cursor == once.cursor
            && twice.logs[i] == once.logs[i] == twice.logs[|once.logs| + i]
            && |once.logs| <= |d.logs| && once.logs[i] == d.logs[|d.logs| - |once.logs| + i]
  {
  }

  // ---------------------------------------------------------------- requests and their faults

  datatype FaultKind = TIMEOUT | PROTOCOL | CONNECTION

  predicate Retryable(f: FaultKind) {
    f != PROTOCOL
  }

  /** What decides whether a request gets through, and whether the adapter believes it is connected. */
  datatype Link = Link(online: bool, pendingFaults: seq<FaultKind>, dropAfterOperations: Option<nat>, connected: bool)

  datatype Reply = Reply(fault: Option<FaultKind>, link: Link)

  function Request(l: Link): Reply {
    if !l.online then Reply(Some(CONNECTION), l)
    else if l.pendingFaults != [] then Reply(Some(l.pendingFaults[0]), l.(pendingFaults := l.pendingFaults[1..]))
    else if l.dropAfterOperations == None then Reply(None, l)
    else if l.dropAfterOperations.value == 0 then
      Reply(Some(CONNECTION), l.(online := false, dropAfterOperations := None))
    else Reply(None, l.(dropAfterOperations := Some(l.dropAfterOperations.value - 1)))
  }

  /** Through the adapter: a lost connection has to be made again. */
  function Call(l: Link): Reply {
    var r := Request(l);
    if r.fault == Some(CONNECTION) then r.(link := r.link.(connected := false)) else r
  }

  function Connect(l: Link): Reply {
    var r := Call(l);
    if r.fault == None then r.(link := r.link.(connected := true)) else r
  }

  /** One try of a sync: connect if needed, ask who it is, read. The first fault ends it. */
  function Attempt(l: Link): Reply {
    var first := if l.connected then Reply(None, l) else Connect(l);
    if first.fault.Some? then first
    else
      var info := Call(first.link);
      if info.fault.Some? then info else Call(info.link)
  }

  /** Up to `attempts` tries; only what may pass by itself is tried again. */
  function Retried(l: Link, attempts: nat): Reply
    requires attempts > 0
    decreases attempts
  {
    var r := Attempt(l);
    if r.fault == None || !Retryable(r.fault.value) || attempts == 1 then r else Retried(r.link, attempts - 1)
  }

  /** Reachable and not about to drop, a terminal gives each try that fails one pending fault less. */
  lemma AttemptTakesOneFault(l: Link)
    requires l.online && l.dropAfterOperations == None
    ensures var r := Attempt(l);
            && r.link.online && r.link.dropAfterOperations == None
            && (r.fault == None <==> l.pendingFaults == [])
            && (l.pendingFaults != [] ==>
                  r.fault == Some(l.pendingFaults[0]) && r.link.pendingFaults == l.pendingFaults[1..])
  {
  }

  /** Retrying gets through exactly when the faults are fewer than the tries, and all of the kind that passes. */
  lemma {:induction false} RetriesExactly(l: Link, attempts: nat)
    requires attempts > 0 && l.online && l.dropAfterOperations == None
    ensures Retried(l, attempts).fault == None <==> |l.pendingFaults| < attempts && PROTOCOL !in l.pendingFaults
    decreases attempts
  {
    AttemptTakesOneFault(l);
    hide Attempt;
    if l.pendingFaults != [] {
      assert l.pendingFaults == [l.pendingFaults[0]] + l.pendingFaults[1..];
      if Retryable(l.pendingFaults[0]) && attempts > 1 {
        RetriesExactly(Attempt(l).link, attempts - 1);
      }
    }
  }

  /** How many requests a try makes: it connects if it has to, asks who it is, and reads. */
  function RequestsOfTry(l: Link): nat {
    if l.connected then 2 else 3
  }

  /**
   A terminal that is to drop after so many requests serves a try exactly when those suffice for it;
   otherwise it is gone, and the connection with it.
   */
  lemma DropsAfter(l: Link, n: nat)
    requires l.online && l.pendingFaults == [] && l.dropAfterOperations == Some(n)
    ensures var r := Attempt(l);
            && (r.fault == None <==> RequestsOfTry(l) <= n)
            && (r.fault == None ==> r.link == l.(connected := true, dropAfterOperations := Some(n - RequestsOfTry(l))))
            && (r.fault.Some? ==>
                  && r.fault == Some(CONNECTION)
                  && r.link == l.(online := false, connected := false, dropAfterOperations := None))
  {
  }

  /** A terminal out of reach serves nothing, and loses no fault that was waiting. */
  lemma OutOfReach(l: Link)
    requires !l.online
    ensures Attempt(l) == Reply(Some(CONNECTION), l.(connected := false))
  {
  }

  /** A try that meets a fault loses the connection only to one of the connection itself. */
  lemma FaultDisconnects(l: Link)
    requires l.online && l.pendingFaults != []
    ensures Attempt(l) == Reply(Some(l.pendingFaults[0]), l.(pendingFaults := l.pendingFaults[1..],
                                connected := l.connected && l.pendingFaults[0] != CONNECTION))
  {
  }

  // ---------------------------------------------------------------- the objects

  class MockDeviceSimulator {
    var memoryGeneration: nat
    var logs: seq<AttendanceLog>
    var duplicateOnRead: bool
    var online: bool
    var pendingFaults: seq<FaultKind>
    var dropAfterOperations: Option<nat>

    constructor ()
      ensures State() == Device(1, []) && !duplicateOnRead
      ensures online && pendingFaults == [] && dropAfterOperations == None
    {
      memoryGeneration, logs, duplicateOnRead := 1, [], false;
      online, pendingFaults, dropAfterOperations := true, [], None;
    }

    function State(): Device
      reads this`memoryGeneration, this`logs
    {
      Device(memoryGeneration, logs)
    }

    function LinkTo(connected: bool): Link
      reads this`online, this`pendingFaults, this`dropAfterOperations
    {
      Link(online, pendingFaults, dropAfterOperations, connected)
    }

    /** A silent punch is stored without telling the listeners. */
    method Punch(log: AttendanceLog, silent: bool) returns (emitted: Option<AttendanceLog>)
      modifies this`logs
      ensures State() == Device(old(State()).generation, old(State()).logs + [log])
      ensures emitted == if silent then None else Some(log)
    {
      logs := logs + [log];
      emitted := if silent then None else Some(log);
    }

    method ReadFrom(generation: nat, index: nat) returns (r: ReadResult)
      ensures r == ReadFromIndex(State(), Cursor(generation, index), duplicateOnRead)
    {
      var start := 0;
      if generation == memoryGeneration {
        start := Min(index, |logs|);
      }
      var slice := logs[start..];
      r := ReadResult(if duplicateOnRead then slice + slice else slice, Cursor(memoryGeneration, |logs|));
    }

    method ClearLogs()
      modifies this`logs, this`memoryGeneration
      ensures State() == Device(old(State()).generation + 1, [])
    {
      logs := [];
      memoryGeneration := memoryGeneration + 1;
    }

    method FailNext(kind: FaultKind, times: nat)
      modifies this`pendingFaults
      ensures pendingFaults == old(pendingFaults) + seq(times, i => kind)
    {
      for i := 0 to times
        invariant pendingFaults == old(pendingFaults) + seq(i, j => kind)
      {
        pendingFaults := pendingFaults + [kind];
      }
    }

    /** Whether an operation gets through; the caller performs it when there is no fault. */
    method Accept() returns (fault: Option<FaultKind>)
      modifies this`online, this`pendingFaults, this`dropAfterOperations
      ensures forall connected :: Request(old(LinkTo(connected))) == Reply(fault, LinkTo(connected))
    {
      if !online {
        return Some(CONNECTION);
      }
      if pendingFaults != [] {
        fault := Some(pendingFaults[0]);
        pendingFaults := pendingFaults[1..];
        return;
      }
      if dropAfterOperations.Some? {
        if dropAfterOperations.value == 0 {
          online, dropAfterOperations := false, None;
          return Some(CONNECTION);
        }
        dropAfterOperations := Some(dropAfterOperations.value - 1);
      }
      fault := None;
    }
  }

  class MockDeviceAdapter {
    const device: MockDeviceSimulator
    var connected: bool

    constructor (device: MockDeviceSimulator)
      ensures this.device == device && !connected
    {
      this.device, connected := device, false;
    }

    function CurrentLink(): Link
      reads this`connected, device`online, device`pendingFaults, device`dropAfterOperations
    {
      device.LinkTo(connected)
    }

    method CallDevice() returns (fault: Option<FaultKind>)
      modifies this`connected, device`online, device`pendingFaults, device`dropAfterOperations
      ensures Call(old(CurrentLink())) == Reply(fault, CurrentLink())
    {
      fault := device.Accept();
      if fault == Some(CONNECTION) {
        connected := false;
      }
    }

    method ConnectDevice() returns (fault: Option<FaultKind>)
      modifies this`connected, device`online, device`pendingFaults, device`dropAfterOperations
      ensures Connect(old(CurrentLink())) == Reply(fault, CurrentLink())
    {
      fault := CallDevice();
      if fault == None {
        connected := true;
      }
    }

    /** A terminal without network keeps its punches; they arrive with a later sync. */
    method Hear(emitted: Option<AttendanceLog>) returns (heard: Option<AttendanceLog>)
      ensures heard == if connected && device.online then emitted else None
    {
      heard := None;
      if connected && device.online {
        heard := emitted;
      }
    }

    /** What the sync hands to the retry loop. */
    method TrySync(cursor: Cursor) returns (fault: Option<FaultKind>, read: ReadResult)
      modifies this`connected, device`online, device`pendingFaults, device`dropAfterOperations
      ensures Attempt(old(CurrentLink())) == Reply(fault, CurrentLink())
      ensures fault == None ==> read == ReadFromIndex(device.State(), cursor, device.duplicateOnRead)
    {
      read := ReadResult([], cursor);
      fault := None;
      if !connected {
        fault := ConnectDevice();
      }
      if fault == None {
        fault := CallDevice();
      }
      if fault == None {
        fault := CallDevice();
      }
      if fault == None {
        read := device.ReadFrom(cursor.generation, cursor.index);
      }
    }
  }
}
