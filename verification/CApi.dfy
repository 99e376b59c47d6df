/** The C interface of capi/main.go as the module loader drives it: handle tables, raw engine
    access and snapshot cursors, and the engine that driver_module_loader.go builds on them. */
module CApi {
  import opened Bytes
  import opened Layout
  import opened Engine

  datatype Status = Ok | NotFound | Invalid

  datatype Snapshot = Snapshot(items: seq<Record>, next: nat)

  /** Both handle tables. Snapshots stay reachable for a call that found one before it was
      closed, so `open` says which of them the table still holds. */
  datatype Tables = Tables(
    databases: map<nat, Store>,
    nextDatabase: nat,
    snapshots: map<nat, Snapshot>,
    open: set<nat>,
    nextCursor: nat)

  predicate Valid(t: Tables) {
    && (forall h <- t.databases :: h < t.nextDatabase)
    && (forall c <- t.snapshots :: c < t.nextCursor && t.snapshots[c].next <= |t.snapshots[c].items|)
    && t.open <= t.snapshots.Keys
  }

  class Library {
    var databases: map<nat, Store>
    var nextDatabase: nat
    var snapshots: map<nat, Snapshot>
    var open: set<nat>
    var nextCursor: nat

    ghost function Now(): Tables
      reads this
    {
      Tables(databases, nextDatabase, snapshots, open, nextCursor)
    }

    constructor ()
      ensures Now() == Tables(map[], 1, map[], {}, 1) && Valid(Now())
    {
      databases, nextDatabase, snapshots, open, nextCursor := map[], 1, map[], {}, 1;
    }

    /** kvlite_open_with_driver, the opened database holding `stored`. */
    method Open(stored: Store) returns (handle: nat)
      requires Valid(Now())
      modifies this
      ensures Valid(Now()) && handle !in old(databases)
      ensures Now() == old(Now()).(databases := old(databases)[handle := stored], nextDatabase := handle + 1)
      ensures handle == old(nextDatabase)
    {
      handle := nextDatabase;
      nextDatabase := nextDatabase + 1;
      databases := databases[handle := stored];
    }

    method Close(handle: nat) returns (status: Status)
      requires Valid(Now())
      modifies this
      ensures Valid(Now()) && status == (if handle in old(databases) then Ok else Invalid)
      ensures Now() == old(Now()).(databases := old(databases) - {handle})
    {
      status := if handle in databases then Ok else Invalid;
      databases := databases - {handle};
    }

    method RawPut(handle: nat, sk: bytes, value: bytes) returns (status: Status)
      requires Valid(Now())
      modifies this
      ensures Valid(Now()) && status == (if handle in old(databases) && sk != [] then Ok else Invalid)
      ensures Now() ==
              if status.Ok? then old(Now()).(databases := old(databases)[handle := old(databases)[handle][sk := value]])
              else old(Now())
    {
      if handle !in databases || sk == [] { return Invalid; }
      databases := databases[handle := databases[handle][sk := value]];
      return Ok;
    }

    method RawDelete(handle: nat, sk: bytes) returns (status: Status)
      requires Valid(Now())
      modifies this
      ensures Valid(Now()) && status == (if handle in old(databases) && sk != [] then Ok else Invalid)
      ensures Now() ==
              if status.Ok? then old(Now()).(databases := old(databases)[handle := old(databases)[handle] - {sk}])
              else old(Now())
    {
      if handle !in databases || sk == [] { return Invalid; }
      databases := databases[handle := databases[handle] - {sk}];
      return Ok;
    }

    method RawGet(handle: nat, sk: bytes) returns (status: Status, value: bytes)
      ensures status == if handle !in databases || sk == [] then Invalid else if sk in databases[handle] then Ok
          else NotFound
      ensures status.Ok? ==> value == databases[handle][sk]
    {
      if handle !in databases || sk == [] { return Invalid, []; }
      if sk !in databases[handle] { return NotFound, []; }
      return Ok, databases[handle][sk];
    }

    /** kvlite_raw_scan_open: the cursor keeps a copy of the whole scan. */
    method ScanOpen(handle: nat, prefix: bytes) returns (status: Status, cursor: nat)
      requires Valid(Now())
      modifies this
      ensures Valid(Now()) && status == (if handle in old(databases) then Ok else Invalid)
      ensures status.Invalid? ==> Now() == old(Now())
      ensures status.Ok? ==> Now() == Opened(old(Now()), handle, prefix) && cursor == old(nextCursor)
    {
      if handle !in databases { return Invalid, 0; }
      var engine := new MemoryEngine();
      engine.data := databases[handle];
      var items := engine.ScanPrefix(prefix);
      cursor := nextCursor;
      nextCursor := nextCursor + 1;
      snapshots := snapshots[cursor := Snapshot(items, 0)];
      open := open + {cursor};
      status := Ok;
    }

    /** kvlite_raw_scan_next: the next record of the copy, or NotFound once it is drained. */
    method ScanNext(cursor: nat) returns (status: Status, sk: bytes, value: bytes)
      requires Valid(Now())
      modifies this`snapshots
      ensures Valid(Now())
      ensures var s := if cursor in old(open) then old(snapshots)[cursor] else Snapshot([], 0);
              && status == (if cursor !in old(open) then Invalid else if s.next < |s.items| then Ok else NotFound)
              && (status.Ok? ==> (sk, value) == s.items[s.next])
              && snapshots == if status.Ok? then old(snapshots)[cursor := Snapshot(s.items, s.next + 1)]
                  else old(snapshots)
    {
      if cursor !in open { return Invalid, [], []; }
      var s := snapshots[cursor];
      if s.next >= |s.items| { return NotFound, [], []; }
      sk, value := s.items[s.next].0, s.items[s.next].1;
      snapshots := snapshots[cursor := Snapshot(s.items, s.next + 1)];
      status := Ok;
    }

    method ScanClose(cursor: nat) returns (status: Status)
      requires Valid(Now())
      modifies this`open
      ensures Valid(Now()) && status == (if cursor in old(open) then Ok else Invalid)
      ensures open == old(open) - {cursor}
    {
      status := if cursor in open then Ok else Invalid;
      open := open - {cursor};
    }
  }

  ghost function Opened(t: Tables, handle: nat, prefix: bytes): Tables
    requires handle in t.databases
  {
    t.(snapshots := t.snapshots[t.nextCursor := Snapshot(Scan(t.databases[handle], prefix), 0)],
    open := t.open + {t.nextCursor}, nextCursor := t.nextCursor + 1)
  }

  datatype Failure = InvalidArgument | Missing | Closed | Unavailable

  /** `Panicked` is a Go panic, raised by a copy whose length came out negative. */
  datatype Reply<T> = Success(value: T) | Failed(error: Failure) | Panicked

  /** nativeModuleStatusError. */
  function FailureOf(status: Status): Failure {
    match status
    case NotFound => Missing
    case Invalid => InvalidArgument
    case Ok => Unavailable
  }

  /** C.int of a length: its low 32 bits, as a signed number. */
  function CInt(n: nat): int {
    if n % TWO32 >= TWO32 / 2 then n % TWO32 - TWO32 else n % TWO32
  }

  /** C.GoBytes: as many bytes as the C int says; none for a negative one. */
  function Copied(data: bytes): Option<bytes> {
    if CInt(|data|) < 0 then None else Some(data[..CInt(|data|)])
  }

  /** What crosses the boundary arrives whole if and only if it is under 2^31 bytes. */
  lemma CopiedIff(data: bytes)
    ensures Copied(data) == Some(data) <==> |data| < TWO32 / 2
  {
    if |data| < TWO32 / 2 { assert data[..|data|] == data; } else { assert CInt(|data|) < |data|; }
  }

  /** At 2^31 bytes the length comes out negative. */
  lemma LargeValuePanics()
    ensures Copied(seq(TWO32 / 2, _ => 0)).None?
  {
  }

  function CopiedRecords(items: seq<Record>): Option<seq<Record>> {
    if items == [] then Some([])
    else
      var last := items[|items| - 1];
      match CopiedRecords(items[..|items| - 1])
      case None => None
      case Some(front) =>
        if Copied(last.0).Some? && Copied(last.1).Some? then Some(front + [(Copied(last.0).value,
            Copied(last.1).value)]) else None
  }

  lemma {:induction false} CopiedRecordsIff(items: seq<Record>)
    ensures CopiedRecords(items) == Some(items) <==>
        forall i :: 0 <= i < |items| ==> |items[i].0| < TWO32 / 2 && |items[i].1| < TWO32 / 2
    ensures CopiedRecords(items).Some? ==> |CopiedRecords(items).value| == |items|
    decreases |items|
  {
    if items != [] {
      var front, last := items[..|items| - 1], items[|items| - 1];
      CopiedRecordsIff(front);
      CopiedIff(last.0);
      CopiedIff(last.1);
      assert items == front + [last];
      hide Copied;
      if CopiedRecords(items) == Some(items) {
        assert CopiedRecords(front).value == items[..|items| - 1];
        assert items[|items| - 1] == (Copied(last.0).value, Copied(last.1).value);
      }
    }
  }

  lemma {:induction false} PanicIsFinal(items: seq<Record>, i: nat)
    requires i <= |items| && CopiedRecords(items[..i]).None?
    ensures CopiedRecords(items).None?
    decreases |items|
  {
    if i < |items| {
      assert items[..|items| - 1][..i] == items[..i];
      PanicIsFinal(items[..|items| - 1], i);
    } else {
      assert items[..i] == items;
    }
  }

  /** The fetch loop of scanPrefix: records, copied, until the cursor answers NotFound. */
  method Drain(library: Library, cursor: nat) returns (r: Option<seq<Record>>)
    requires Valid(library.Now()) && cursor in library.open && library.snapshots[cursor].next == 0
    modifies library`snapshots
    ensures Valid(library.Now()) && r == CopiedRecords(old(library.snapshots[cursor].items))
  {
    hide Copied;
    ghost var expected := library.snapshots[cursor].items;
    var items: seq<Record> := [];
    ghost var i := 0;
    while true
      invariant Valid(library.Now()) && cursor in library.open
      invariant i <= |expected| && library.snapshots[cursor] == Snapshot(expected, i)
      invariant CopiedRecords(expected[..i]) == Some(items)
      decreases |expected| - i
    {
      var status, sk, value := library.ScanNext(cursor);
      if status.NotFound? { break; }
      assert expected[..i + 1][..i] == expected[..i] && expected[..i + 1][i] == (sk, value);
      var key, data := Copied(sk), Copied(value);
      if key.None? || data.None? {
        PanicIsFinal(expected, i + 1);
        return None;
      }
      items := items + [(key.value, data.value)];
      i := i + 1;
    }
    assert expected[..i] == expected;
    return Some(items);
  }

  /** moduleDriverEngine: the storage contract over one handle of the library. */
  class ModuleEngine {
    const library: Library
    const handle: nat
    var closed: bool

    ghost predicate Ready()
      reads this, library
    {
      Valid(library.Now()) && (!closed ==> handle in library.databases)
    }

    /** The records of the inner engine. */
    ghost function Data(): Store
      reads this, library
      requires Ready() && !closed
    {
      library.databases[handle]
    }

    constructor (library: Library, handle: nat)
      requires Valid(library.Now()) && handle in library.databases
      ensures this.library == library && this.handle == handle && !closed && Ready()
    {
      this.library, this.handle, closed := library, handle, false;
    }

    /** Get of the inner engine for every key but the empty one, which is an error, the value
        copied on its way. */
    method Get(sk: bytes) returns (r: Reply<Option<bytes>>)
      requires Ready()
      ensures r == if sk == [] then Failed(InvalidArgument)
                   else if closed then Failed(Closed)
                   else if sk !in Data() then Success(None)
                   else if Copied(Data()[sk]).None? then Panicked
                   else Success(Copied(Data()[sk]))
    {
      if sk == [] { return Failed(InvalidArgument); }
      if closed { return Failed(Closed); }
      var status, value := library.RawGet(handle, sk);
      if status.NotFound? { return Success(None); }
      var copy := Copied(value);
      return if copy.None? then Panicked else Success(copy);
    }

    method Put(sk: bytes, value: bytes) returns (r: Reply<()>)
      requires Ready()
      modifies library
      ensures Ready() && closed == old(closed)
      ensures r == if closed then Failed(Closed) else if sk == [] then Failed(InvalidArgument) else Success(())
      ensures library.Now() == old(library.Now()).(databases := library.databases)
      ensures library.databases == if r.Success? then old(library.databases)[handle := old(Data())[sk := value]]
          else old(library.databases)
    {
      if closed { return Failed(Closed); }
      var status := library.RawPut(handle, sk, value);
      return if status.Ok? then Success(()) else Failed(FailureOf(status));
    }

    method Delete(sk: bytes) returns (r: Reply<()>)
      requires Ready()
      modifies library
      ensures Ready() && closed == old(closed)
      ensures r == if closed then Failed(Closed) else if sk == [] then Failed(InvalidArgument) else Success(())
      ensures library.Now() == old(library.Now()).(databases := library.databases)
      ensures library.databases == if r.Success? then old(library.databases)[handle := old(Data()) - {sk}]
          else old(library.databases)
    {
      if closed { return Failed(Closed); }
      var status := library.RawDelete(handle, sk);
      return if status.Ok? then Success(()) else Failed(FailureOf(status));
    }

    /** ScanPrefix of the inner engine, fetched record by record through a cursor that is closed
        again before the call returns. A panic leaves it open. */
    method ScanPrefix(prefix: bytes) returns (r: Reply<seq<Record>>)
      requires Ready()
      modifies library
      ensures Ready() && library.databases == old(library.databases)
      ensures library.open == old(library.open) + if r.Panicked? then {old(library.nextCursor)} else {}
      ensures r == if closed then Failed(Closed)
                   else match CopiedRecords(Scan(Data(),
                       prefix)) case None => Panicked case Some(items) => Success(items)
    {
      if closed { return Failed(Closed); }
      hide Scan, CopiedRecords;
      var _, cursor := library.ScanOpen(handle, prefix);
      var items := Drain(library, cursor);
      if items.None? { return Panicked; }
      var _ := library.ScanClose(cursor);
      return Success(items.value);
    }
  }
}
