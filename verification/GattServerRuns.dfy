/**
  Runs of the GATT server adapter in which handles go astray.

  Each method makes the calls an application and the stack could make, from a new adapter on, and states
  what they lead to.
 */
module GattServerRuns {
  import opened Basics
  import opened HandleTranslation
  import opened GattServerTables

  /** A slot with one characteristic. */
  function Single(service: Uuid, characteristic: Uuid, isAdding: bool, handle: nat, actualHandle: nat): Slot {
    Slot(Some(Service(service, [Characteristic(characteristic, 0, [])])), isAdding,
         [Attribute(handle, actualHandle, characteristic, CharacteristicAttribute)])
  }

  function Free(): Slot {
    Slot(None, false, [])
  }

  /** Server 0 is registered and its first two slots are as given. */
  ghost predicate Holds(g: GattServers, a: Slot, b: Slot)
    reads g, g.registered, g.services
  {
    && g.Valid() && g.registered.Length == MAXIMUM_NUMBER_APPLICATION && g.registered[0]
    && g.services[0, 0] == a && g.services[0, 1] == b
  }

  method Registered() returns (g: GattServers)
    ensures fresh(g) && fresh(g.registered) && fresh(g.services) && Holds(g, Free(), Free()) && g.owners == []
  {
    g := new GattServers();
    assert ValidServer(0) && !g.registered[0];
    var status, serverId := g.BleGattsRegister(true);
    assert g.registered[..][0];
  }

  /** Adds a service with one characteristic to the first free slot of the two. */
  method AddSingle(g: GattServers, service: Uuid, characteristic: Uuid, ghost a: Slot, ghost b: Slot)
    requires Holds(g, a, b) && (a == Free() || (a.service.Some? && b == Free()))
    modifies g, g.services
    ensures var slot := Single(service, characteristic, false, HandleOf(|old(g.owners)|), 0);
            if a == Free() then Holds(g, slot, b) else Holds(g, a, slot)
    ensures |g.owners| == |old(g.owners)| + 1
  {
    assert ValidSlot(0) && ValidSlot(1);
    var status, slot := g.BleGattsAddService(0, Some(service));
    assert slot == if a == Free() then 0 else 1;
    var handle;
    status, handle := g.BleGattsAddCharacteristic(0, slot, Some(characteristic));
    assert [] + [Characteristic(characteristic, 0, [])] == [Characteristic(characteristic, 0, [])];
  }

  method StartFirst(g: GattServers, ghost a: Slot, ghost b: Slot)
    requires Holds(g, a, b) && a.service.Some?
    modifies g, g.services
    ensures Holds(g, a.(isAdding := true), b) && g.owners == old(g.owners)
  {
    var status := g.BleGattsStartService(0, 0);
  }

  method StartSecond(g: GattServers, ghost a: Slot, ghost b: Slot)
    requires Holds(g, a, b) && b.service.Some?
    modifies g, g.services
    ensures Holds(g, a, b.(isAdding := true)) && g.owners == old(g.owners)
  {
    var status := g.BleGattsStartService(0, 1);
  }

  method StartBoth(g: GattServers, ghost a: Slot, ghost b: Slot)
    requires Holds(g, a, b) && a.service.Some? && b.service.Some?
    modifies g, g.services
    ensures Holds(g, a.(isAdding := true), b.(isAdding := true)) && g.owners == old(g.owners)
  {
    StartFirst(g, a, b);
    StartSecond(g, a.(isAdding := true), b);
  }

  /** The stack reports that a start failed. */
  method ReportFailure(g: GattServers, service: Uuid, ghost a: Slot, ghost b: Slot)
    requires Holds(g, a, b)
    modifies g, g.services
    ensures Holds(g, a, b) && g.owners == old(g.owners)
  {
    var status, i := g.OnServiceAdded(0, Service(service, []), false, true);
  }

  /** A slot after a report with one characteristic. */
  function Told(slot: Slot, characteristic: Uuid, handle: nat): Slot {
    slot.(isAdding := false, attributes := AssignAll(slot.attributes, [Characteristic(characteristic, handle, [])]))
  }

  /** The entry takes the handle exactly when the UUID is its own. */
  lemma {:induction false} ToldSingle(service: Uuid, own: Uuid, appHandle: nat, characteristic: Uuid, handle: nat)
    ensures Told(Single(service, own, true, appHandle, 0), characteristic, handle)
            == Single(service, own, false, appHandle, if characteristic == own then handle else 0)
  {
    var attrs := [Attribute(appHandle, 0, own, CharacteristicAttribute)];
    var c := Characteristic(characteristic, handle, []);
    assert [c][..0] == [];
    assert AssignAll(attrs, [c]) == AssignCharacteristic(attrs, c);
    assert attrs[0].uuid == own;
    assert CharacteristicTarget(attrs, characteristic) == if characteristic == own then 0 else 1;
  }

  /** The stack reports a service with one characteristic. */
  method Report(g: GattServers, service: Uuid, characteristic: Uuid, handle: nat, ghost a: Slot, ghost b: Slot)
    returns (i: nat)
    requires Holds(g, a, b) && (Awaits(a, service) || Awaits(b, service))
    modifies g, g.services
    ensures if Awaits(a, service) then i == 0 && Holds(g, Told(a, characteristic, handle), b)
            else i == 1 && Holds(g, a, Told(b, characteristic, handle))
  {
    ghost var row := g.Row(0);
    assert row[0] == a && row[1] == b;
    var status;
    status, i := g.OnServiceAdded(0, Service(service, [Characteristic(characteristic, handle, [])]), true, true);
    assert g.services[0, 0] == g.Row(0)[0] && g.services[0, 1] == g.Row(0)[1];
  }

  /**
    Two services of one UUID, both started: the report for the second goes to the first, and the second
    never learns its stack handle.
   */
  method TwinTakesTheReport() returns (g: GattServers, i: nat)
    ensures i == 0 && Holds(g, Single(7, 1, false, 1, 0), Single(7, 2, true, 2, 0))
  {
    g := Registered();
    AddSingle(g, 7, 1, Free(), Free());
    AddSingle(g, 7, 2, Single(7, 1, false, 1, 0), Free());
    StartBoth(g, Single(7, 1, false, 1, 0), Single(7, 2, false, 2, 0));
    ToldSingle(7, 1, 1, 2, 40);
    i := Report(g, 7, 2, 40, Single(7, 1, true, 1, 0), Single(7, 2, true, 2, 0));
  }

  /**
    A failed start leaves its slot waiting: the next service of that UUID, in a higher slot, loses its
    report to the failed one.
   */
  method FailedStartTakesTheReport() returns (g: GattServers, i: nat)
    ensures i == 0 && Holds(g, Single(7, 1, false, 1, 40), Single(7, 1, true, 2, 0))
  {
    g := Registered();
    AddSingle(g, 7, 1, Free(), Free());
    StartFirst(g, Single(7, 1, false, 1, 0), Free());
    ReportFailure(g, 7, Single(7, 1, true, 1, 0), Free());
    AddSingle(g, 7, 1, Single(7, 1, true, 1, 0), Free());
    StartSecond(g, Single(7, 1, true, 1, 0), Single(7, 1, false, 2, 0));
    ToldSingle(7, 1, 1, 1, 40);
    i := Report(g, 7, 1, 40, Single(7, 1, true, 1, 0), Single(7, 1, true, 2, 0));
  }

  /** Two services of different UUIDs wait: a report reaches its own, whichever comes first. */
  method ReportsReachTheirOwn() returns (g: GattServers)
    ensures Holds(g, Single(7, 1, false, 1, 40), Single(8, 2, false, 2, 50))
  {
    g := Registered();
    AddSingle(g, 7, 1, Free(), Free());
    AddSingle(g, 8, 2, Single(7, 1, false, 1, 0), Free());
    StartBoth(g, Single(7, 1, false, 1, 0), Single(8, 2, false, 2, 0));
    ToldSingle(8, 2, 2, 2, 50);
    var i := Report(g, 8, 2, 50, Single(7, 1, true, 1, 0), Single(8, 2, true, 2, 0));
    assert i == 1;
    ToldSingle(7, 1, 1, 1, 40);
    i := Report(g, 7, 1, 40, Single(7, 1, true, 1, 0), Single(8, 2, false, 2, 50));
    assert i == 0;
  }

  /** Adds and deletes a service in slot 1 until the counter is about to give out its first handle again. */
  method WearOut(g: GattServers, ghost a: Slot)
    requires Holds(g, a, Free()) && a.service.Some? && |g.owners| == 1
    modifies g, g.services
    ensures Holds(g, a, Free()) && |g.owners| == UINT16_MAX - 1
  {
    for k := 1 to UINT16_MAX - 1
      invariant Holds(g, a, Free()) && |g.owners| == k
    {
      AddSingle(g, 8, 2, a, Free());
      var status := g.BleGattsDeleteService(0, 1);
    }
  }

  /**
    An old service and one that is a lap of the counter younger share an application handle: the stack
    handle of the younger attribute leads to it, but its application handle leads to the old one.
   */
  method WornHandleLeadsAstray() returns (g: GattServers)
    ensures Holds(g, Single(7, 1, false, 1, 40), Single(8, 2, false, 1, 50))
    ensures Lookup(g.Row(0), HasActualHandle(50)) == Some((1, 0)) && Lookup(g.Row(0), HasHandle(1)) == Some((0, 0))
  {
    g := Registered();
    AddSingle(g, 7, 1, Free(), Free());
    WearOut(g, Single(7, 1, false, 1, 0));
    AddSingle(g, 8, 2, Single(7, 1, false, 1, 0), Free());
    StartBoth(g, Single(7, 1, false, 1, 0), Single(8, 2, false, 1, 0));
    ToldSingle(7, 1, 1, 1, 40);
    ToldSingle(8, 2, 1, 2, 50);
    var i := Report(g, 7, 1, 40, Single(7, 1, true, 1, 0), Single(8, 2, true, 1, 0));
    i := Report(g, 8, 2, 50, Single(7, 1, false, 1, 40), Single(8, 2, true, 1, 0));
    LookupsDisagree(g.Row(0));
  }

  lemma {:induction false} LookupsDisagree(row: seq<Slot>)
    requires |row| >= 2 && row[0] == Single(7, 1, false, 1, 40) && row[1] == Single(8, 2, false, 1, 50)
    ensures Lookup(row, HasActualHandle(50)) == Some((1, 0)) && Lookup(row, HasHandle(1)) == Some((0, 0))
  {
    assert row[..0] == [];
    LookupStep(row, HasHandle(1), 0);
    LookupStep(row, HasActualHandle(50), 0);
    LookupStep(row, HasActualHandle(50), 1);
  }
}
