/**
  The tables of the GATT server adapter: ten servers with ten service slots each, the counter of
  application handles, and the lookups between application handles and stack handles.

  One API call or one callback is one step.
 */
module GattServerTables {
  import opened Basics
  import opened HandleTranslation

  const MAXIMUM_NUMBER_APPLICATION: nat := 10
  const MAXIMUM_NUMBER_GATTSERVICE: nat := 10
  const UINT16_MAX: nat := 65535

  datatype Status = Success | Failed | ParmInvalid | Unhandled

  /** A service slot: the tree handed to the stack and the flat list shown to the application. */
  datatype Slot = Slot(service: Option<Service>, isAdding: bool, attributes: seq<Attribute>)

  datatype Place = Place(server: int, slot: int, position: int)

  // ------------------------------------------------------------------------------------------
  // Lookups over the slots of one server
  // ------------------------------------------------------------------------------------------

  predicate Hit(row: seq<Slot>, pred: Attribute -> bool, i: int, p: int) {
    0 <= i < |row| && 0 <= p < |row[i].attributes| && pred(row[i].attributes[p])
  }

  predicate Before(i: int, p: int, i': int, p': int) {
    i < i' || (i == i' && p < p')
  }

  /** The first matching attribute, slot by slot. */
  function Lookup(row: seq<Slot>, pred: Attribute -> bool): (r: Option<(nat, nat)>)
    ensures r.Some? ==> Hit(row, pred, r.value.0, r.value.1)
    ensures r.Some? ==> forall i, p :: Before(i, p, r.value.0, r.value.1) ==> !Hit(row, pred, i, p)
    ensures r.None? ==> forall i, p :: !Hit(row, pred, i, p)
  {
    if row == [] then None
    else
      var n := |row| - 1;
      var r := Lookup(row[..n], pred);
      if r.Some? then r
      else
        var p := FindFirst(row[n].attributes, pred);
        assert forall i, p :: i < n ==> Hit(row, pred, i, p) == Hit(row[..n], pred, i, p);
        if p < |row[n].attributes| then Some((n, p)) else None
  }

  lemma {:induction false} LookupOfPrefix(row: seq<Slot>, pred: Attribute -> bool, n: nat)
    requires n <= |row| && Lookup(row[..n], pred).Some?
    ensures Lookup(row, pred) == Lookup(row[..n], pred)
  {
    if n < |row| {
      var m := |row| - 1;
      assert row[..m][..n] == row[..n];
      LookupOfPrefix(row[..m], pred, n);
    } else {
      assert row[..n] == row;
    }
  }

  lemma {:induction false} LookupStep(row: seq<Slot>, pred: Attribute -> bool, i: nat)
    requires i < |row| && Lookup(row[..i], pred).None?
    ensures var p := FindFirst(row[i].attributes, pred);
            if p < |row[i].attributes| then Lookup(row, pred) == Some((i, p)) else Lookup(row[..i + 1], pred).None?
  {
    assert row[..i + 1][..i] == row[..i];
    if FindFirst(row[i].attributes, pred) < |row[i].attributes| {
      LookupOfPrefix(row, pred, i + 1);
    }
  }

  function HasHandle(handle: nat): Attribute -> bool {
    (a: Attribute) => a.handle == handle
  }

  function HasActualHandle(handle: nat): Attribute -> bool {
    (a: Attribute) => a.actualHandle == handle
  }

  ghost predicate Live(row: seq<Slot>, i: int, p: int) {
    0 <= i < |row| && 0 <= p < |row[i].attributes|
  }

  ghost predicate DistinctHandles(row: seq<Slot>) {
    forall i, p, i', p' ::
      (Live(row, i, p) && Live(row, i', p') && row[i].attributes[p].handle == row[i'].attributes[p'].handle) ==>
        i == i' && p == p'
  }

  /** Non-zero stack handles are distinct; zero means that the stack has not reported one. */
  ghost predicate DistinctActualHandles(row: seq<Slot>) {
    forall i, p, i', p' ::
      (Live(row, i, p) && Live(row, i', p') && row[i].attributes[p].actualHandle != 0
       && row[i].attributes[p].actualHandle == row[i'].attributes[p'].actualHandle) ==>
        i == i' && p == p'
  }

  lemma {:induction false} LookupIsThe(row: seq<Slot>, pred: Attribute -> bool, i: nat, p: nat)
    requires Hit(row, pred, i, p)
    requires forall i', p' :: Hit(row, pred, i', p') ==> i' == i && p' == p
    ensures Lookup(row, pred) == Some((i, p))
  {
  }

  /** From either handle of a started attribute the lookups return that attribute. */
  lemma {:induction false} HandleRoundTrip(row: seq<Slot>, i: nat, p: nat)
    requires Live(row, i, p) && row[i].attributes[p].actualHandle != 0
    requires DistinctHandles(row) && DistinctActualHandles(row)
    ensures Lookup(row, HasHandle(row[i].attributes[p].handle)) == Some((i, p))
    ensures Lookup(row, HasActualHandle(row[i].attributes[p].actualHandle)) == Some((i, p))
  {
    HandleLookupFinds(row, i, p);
    ActualLookupFinds(row, i, p);
  }

  /** The stack-handle lookup returns every started attribute from its own handle exactly when the
      stack handles are distinct. */
  lemma {:induction false} ActualLookupExactIff(row: seq<Slot>)
    ensures (forall i: nat, p: nat :: Live(row, i, p) && row[i].attributes[p].actualHandle != 0 ==>
               Lookup(row, HasActualHandle(row[i].attributes[p].actualHandle)) == Some((i, p)))
            <==> DistinctActualHandles(row)
  {
    if DistinctActualHandles(row) {
      forall i: nat, p: nat | Live(row, i, p) && row[i].attributes[p].actualHandle != 0
        ensures Lookup(row, HasActualHandle(row[i].attributes[p].actualHandle)) == Some((i, p))
      {
        ActualLookupFinds(row, i, p);
      }
    }
  }

  /** The application-handle lookup returns every attribute from its own handle exactly when the handles
      are distinct. */
  lemma {:induction false} HandleLookupExactIff(row: seq<Slot>)
    ensures (forall i: nat, p: nat :: Live(row, i, p) ==>
               Lookup(row, HasHandle(row[i].attributes[p].handle)) == Some((i, p)))
            <==> DistinctHandles(row)
  {
    if DistinctHandles(row) {
      forall i: nat, p: nat | Live(row, i, p)
        ensures Lookup(row, HasHandle(row[i].attributes[p].handle)) == Some((i, p))
      {
        HandleLookupFinds(row, i, p);
      }
    }
  }

  // ------------------------------------------------------------------------------------------
  // The handle counter
  // ------------------------------------------------------------------------------------------

  /** The handle of the k-th draw: 1, 2, ..., 65534, 1, 2, ... */
  function HandleOf(k: nat): nat {
    k % (UINT16_MAX - 1) + 1
  }

  ghost predicate CounterAfter(next: nat, drawn: nat) {
    next == if drawn == 0 then 1 else HandleOf(drawn - 1) + 1
  }

  lemma {:induction false} NextDraw(next: nat, drawn: nat)
    requires CounterAfter(next, drawn)
    ensures 1 <= next <= UINT16_MAX
    ensures HandleOf(drawn) == if next == UINT16_MAX then 1 else next
    ensures CounterAfter(HandleOf(drawn) + 1, drawn + 1)
  {
    if drawn > 0 {
      var m := UINT16_MAX - 1;
      var q, r := (drawn - 1) / m, (drawn - 1) % m;
      if r == m - 1 {
        assert drawn == m * (q + 1);
      } else {
        assert drawn == m * q + (r + 1);
      }
    }
  }

  /** Two draws fewer than 65534 apart give different handles. */
  lemma {:induction false} CloseDrawsDiffer(a: nat, b: nat)
    requires a < b < a + (UINT16_MAX - 1)
    ensures HandleOf(a) != HandleOf(b)
  {
    var m := UINT16_MAX - 1;
    if a % m == b % m {
      assert b - a == m * (b / m - a / m);
      assert b / m - a / m >= 1;
    }
  }

  /** Handles drawn within one lap of the counter rise. */
  lemma {:induction false} SameLapRises(a: nat, b: nat)
    requires a < b && a / (UINT16_MAX - 1) == b / (UINT16_MAX - 1)
    ensures HandleOf(a) < HandleOf(b)
  {
  }

  // ------------------------------------------------------------------------------------------
  // What every call keeps of a slot
  // ------------------------------------------------------------------------------------------

  /** The list is exactly the preorder flattening of the tree, and a free slot's list is empty. */
  ghost predicate Agrees(s: Slot) {
    match s.service
    case None => s.attributes == []
    case Some(t) =>
      && Flattens(s.attributes, t.characteristics)
      && (forall p :: 0 <= p < |s.attributes| && s.attributes[p].kind == DescriptorAttribute ==>
                        s.attributes[p].handle == Preorder(t.characteristics)[p].handle)
  }

  /** Every handle in the list comes from a draw of its own, in the order of the list. */
  ghost predicate Drawn(attrs: seq<Attribute>, ds: seq<nat>, owners: seq<Place>, s: int, i: int) {
    && |ds| == |attrs|
    && (forall p :: 0 <= p < |ds| ==>
                      ds[p] < |owners| && owners[ds[p]] == Place(s, i, p) && attrs[p].handle == HandleOf(ds[p]))
    && (forall p, q :: 0 <= p < q < |ds| ==> ds[p] < ds[q])
  }

  function AddedCharacteristic(t: Service, uuid: Uuid): (r: Service)
    ensures r.uuid == t.uuid && |r.characteristics| == |t.characteristics| + 1
    ensures forall k :: 0 <= k < |t.characteristics| ==> r.characteristics[k] == t.characteristics[k]
    ensures var last := r.characteristics[|t.characteristics|]; last.uuid == uuid && last.descriptors == []
  {
    t.(characteristics := t.characteristics + [Characteristic(uuid, 0, [])])
  }

  /** Only the last characteristic grows. */
  function AddedDescriptor(t: Service, uuid: Uuid, handle: nat): (r: Service)
    requires t.characteristics != []
    ensures r.uuid == t.uuid && |r.characteristics| == |t.characteristics|
    ensures forall k :: 0 <= k < |t.characteristics| - 1 ==> r.characteristics[k] == t.characteristics[k]
    ensures var was, last := t.characteristics[|t.characteristics| - 1], r.characteristics[|t.characteristics| - 1];
            && last.uuid == was.uuid && last.handle == was.handle && |last.descriptors| == |was.descriptors| + 1
            && last.descriptors[..|was.descriptors|] == was.descriptors
            && last.descriptors[|was.descriptors|].uuid == uuid && last.descriptors[|was.descriptors|].handle == handle
  {
    var n := |t.characteristics| - 1;
    var last := t.characteristics[n];
    t.(characteristics := t.characteristics[..n] + [last.(descriptors := last.descriptors + [Descriptor(uuid, handle)])])
  }

  lemma {:induction false} AddCharacteristicAgrees(s: Slot, uuid: Uuid, handle: nat)
    requires s.service.Some? && Agrees(s)
    ensures Agrees(s.(service := Some(AddedCharacteristic(s.service.value, uuid)),
                      attributes := s.attributes + [Attribute(handle, 0, uuid, CharacteristicAttribute)]))
  {
    var cs := s.service.value.characteristics;
    var c := Characteristic(uuid, 0, []);
    assert (cs + [c])[..|cs|] == cs;
    assert Preorder(cs + [c]) == Preorder(cs) + [Node(CharacteristicAttribute, uuid, 0)];
  }

  lemma {:induction false} AddDescriptorAgrees(s: Slot, uuid: Uuid, handle: nat)
    requires s.service.Some? && s.service.value.characteristics != [] && Agrees(s)
    ensures Agrees(s.(service := Some(AddedDescriptor(s.service.value, uuid, handle)),
                      attributes := s.attributes + [Attribute(handle, 0, uuid, DescriptorAttribute)]))
  {
    var cs := s.service.value.characteristics;
    var cs' := AddedDescriptor(s.service.value, uuid, handle).characteristics;
    var n := |cs| - 1;
    var d := Descriptor(uuid, handle);
    assert cs'[..n] == cs[..n];
    assert DescriptorNodes(cs[n].descriptors + [d]) == DescriptorNodes(cs[n].descriptors) + [Node(DescriptorAttribute, uuid, handle)];
    assert Preorder(cs') == Preorder(cs) + [Node(DescriptorAttribute, uuid, handle)];
  }

  /** What is added after a service was handed to the stack goes behind what was handed over. */
  lemma {:induction false} BeginsExtends(attrs: seq<Attribute>, cs: seq<Characteristic>, a: Attribute)
    requires Begins(attrs, cs)
    ensures Begins(attrs + [a], cs)
  {
  }

  lemma {:induction false} AssignKeepsSkeleton(attrs: seq<Attribute>, report: seq<Characteristic>)
    ensures SameSkeleton(AssignAll(attrs, report), attrs)
  {
    DeliverAll(attrs, report, |report|);
    assert report[..|report|] == report;
  }

  lemma {:induction false} AssignAgrees(s: Slot, report: seq<Characteristic>)
    requires Agrees(s)
    ensures Agrees(s.(attributes := AssignAll(s.attributes, report)))
  {
    AssignKeepsSkeleton(s.attributes, report);
  }

  lemma {:induction false} AppendDrawn(attrs: seq<Attribute>, ds: seq<nat>, owners: seq<Place>, s: int, i: int, a: Attribute)
    requires Drawn(attrs, ds, owners, s, i) && a.handle == HandleOf(|owners|)
    ensures Drawn(attrs + [a], ds + [|owners|], owners + [Place(s, i, |attrs|)], s, i)
  {
  }

  lemma {:induction false} OthersDrawn(attrs: seq<Attribute>, ds: seq<nat>, owners: seq<Place>, s: int, i: int, place: Place)
    requires Drawn(attrs, ds, owners, s, i)
    ensures Drawn(attrs, ds, owners + [place], s, i)
  {
  }

  /** The counter did not wrap between these draws. */
  ghost predicate OneLap(ds: seq<nat>) {
    forall p :: 0 <= p < |ds| ==> ds[p] / (UINT16_MAX - 1) == ds[0] / (UINT16_MAX - 1)
  }

  /** A list whose draws lie in one lap of the counter has rising handles. */
  lemma {:induction false} OneLapRises(attrs: seq<Attribute>, ds: seq<nat>, owners: seq<Place>, s: int, i: int)
    requires Drawn(attrs, ds, owners, s, i) && OneLap(ds)
    ensures Increasing(attrs)
  {
    forall p, q | 0 <= p < q < |attrs|
      ensures attrs[p].handle < attrs[q].handle
    {
      SameLapRises(ds[p], ds[q]);
    }
  }

  /** The draws 65532 to 65535 wrap between two characteristics, and the translation goes wrong. */
  lemma {:induction false} WrappedDrawsFail() returns (attrs: seq<Attribute>, cs: seq<Characteristic>)
    ensures |attrs| == 4 && forall p :: 0 <= p < 4 ==> attrs[p].handle == HandleOf(65532 + p)
    ensures Flattens(attrs, cs) && DistinctUuids(cs)
    ensures !Exact(AssignAll(attrs, Numbered(cs)), Numbered(cs))
  {
    attrs, cs := WrapBreaksTranslation();
  }

  /** Two draws give the same handle exactly when they are whole laps apart. */
  ghost predicate LapsApart(a: nat, b: nat) {
    a % 65534 == b % 65534
  }

  /** No two different places hold draws that are whole laps apart. */
  ghost predicate NoLapsApart(ds: seq<seq<nat>>) {
    forall i, p, i', p' ::
      0 <= i < |ds| && 0 <= p < |ds[i]| && 0 <= i' < |ds| && 0 <= p' < |ds[i']| && LapsApart(ds[i][p], ds[i'][p']) ==>
        i == i' && p == p'
  }

  ghost predicate RowDrawn(row: seq<Slot>, ds: seq<seq<nat>>, owners: seq<Place>, s: int) {
    |ds| == |row| && forall i :: 0 <= i < |row| ==> Drawn(row[i].attributes, ds[i], owners, s, i)
  }

  /** The handles in use on a server are distinct exactly when no two of their draws are whole laps apart. */
  lemma {:induction false} HandlesDistinctIff(row: seq<Slot>, ds: seq<seq<nat>>, owners: seq<Place>, s: int)
    requires RowDrawn(row, ds, owners, s)
    ensures DistinctHandles(row) <==> NoLapsApart(ds)
  {
    if NoLapsApart(ds) {
      forall i, p, i', p' | Live(row, i, p) && Live(row, i', p')
                            && row[i].attributes[p].handle == row[i'].attributes[p'].handle
        ensures i == i' && p == p'
      {
        assert LapsApart(ds[i][p], ds[i'][p']);
      }
    }
    if DistinctHandles(row) {
      forall i, p, i', p' | 0 <= i < |ds| && 0 <= p < |ds[i]| && 0 <= i' < |ds| && 0 <= p' < |ds[i']|
                            && LapsApart(ds[i][p], ds[i'][p'])
        ensures i == i' && p == p'
      {
        assert Live(row, i, p) && Live(row, i', p');
      }
    }
  }

  /** In particular the handles from the last 65534 draws are all different. */
  lemma {:induction false} RecentHandlesDistinct(row: seq<Slot>, ds: seq<seq<nat>>, owners: seq<Place>, s: int)
    requires RowDrawn(row, ds, owners, s)
    requires forall i, p :: 0 <= i < |row| && 0 <= p < |ds[i]| ==> |owners| < ds[i][p] + UINT16_MAX
    ensures DistinctHandles(row)
  {
    forall i, p, i', p' | 0 <= i < |ds| && 0 <= p < |ds[i]| && 0 <= i' < |ds| && 0 <= p' < |ds[i']|
                          && LapsApart(ds[i][p], ds[i'][p'])
      ensures i == i' && p == p'
    {
      var a, b := ds[i][p], ds[i'][p'];
      assert owners[a] == Place(s, i, p) && owners[b] == Place(s, i', p');
      if a < b { CloseDrawsDiffer(a, b); }
      if b < a { CloseDrawsDiffer(b, a); }
    }
    HandlesDistinctIff(row, ds, owners, s);
  }

  // ------------------------------------------------------------------------------------------
  // What a report does to the slots of a server
  // ------------------------------------------------------------------------------------------

  predicate Awaits(slot: Slot, uuid: Uuid) {
    slot.service.Some? && slot.isAdding && slot.service.value.uuid == uuid
  }

  /** The slot a report goes to: the first that waits under the UUID of the service. */
  function Addressee(row: seq<Slot>, uuid: Uuid): nat {
    FindFirst(row, (slot: Slot) => Awaits(slot, uuid))
  }

  function AfterReport(row: seq<Slot>, report: Service): (now: seq<Slot>)
    ensures |now| == |row|
  {
    var i := Addressee(row, report.uuid);
    if i == |row| then row
    else row[i := row[i].(isAdding := false, attributes := AssignAll(row[i].attributes, report.characteristics))]
  }

  /** No lower slot waits under the UUID. */
  ghost predicate FirstWaiting(row: seq<Slot>, i: nat, uuid: Uuid) {
    i < |row| && Awaits(row[i], uuid) && forall k :: 0 <= k < i ==> !Awaits(row[k], uuid)
  }

  /** A report reaches a waiting slot exactly when no lower slot waits under the same UUID. */
  lemma {:induction false} ReportReachesIff(row: seq<Slot>, i: nat, uuid: Uuid)
    requires i < |row| && Awaits(row[i], uuid)
    ensures Addressee(row, uuid) == i <==> FirstWaiting(row, i, uuid)
    ensures Addressee(row, uuid) < |row|
  {
  }

  /** After the report, the entries of slot i that were handed to the stack carry the handles of their own nodes. */
  ghost predicate ReportedExactly(row: seq<Slot>, i: nat, report: Service)
    requires i < |row|
  {
    Exact(AfterReport(row, report)[i].attributes, report.characteristics)
  }

  lemma {:induction false} MisroutedFails(row: seq<Slot>, i: nat, uuid: Uuid, handed: seq<Characteristic>)
    requires i < |row| && Awaits(row[i], uuid) && !FirstWaiting(row, i, uuid)
    requires handed != [] && forall p :: 0 <= p < |row[i].attributes| ==> row[i].attributes[p].actualHandle == 0
    ensures !ReportedExactly(row, i, Service(uuid, Numbered(handed)))
  {
    var report := Service(uuid, Numbered(handed));
    ReportReachesIff(row, i, uuid);
    assert AfterReport(row, report)[i] == row[i];
    NumberedHandles(handed);
    PreorderNode(handed, 0, 0);
    assert Preorder(report.characteristics)[0].handle == 1;
  }

  /**
    Handle translation through the whole callback, exactly: take a fresh slot that waits under a UUID, and
    the tree that was handed to the stack, with which its list begins.  Every report of that tree gives the
    entries the stack handles of their own nodes if and only if no lower slot of the server waits under the
    same UUID and the list is unambiguous.
   */
  lemma {:induction false} ReportExactIff(row: seq<Slot>, i: nat, uuid: Uuid, handed: seq<Characteristic>)
    requires i < |row| && Awaits(row[i], uuid) && Begins(row[i].attributes, handed) && handed != []
    requires forall p :: 0 <= p < |row[i].attributes| ==> row[i].attributes[p].actualHandle == 0
    ensures (forall cs {:induction false} :: SameShape(cs, handed) ==> ReportedExactly(row, i, Service(uuid, cs)))
            <==> FirstWaiting(row, i, uuid) && Unambiguous(row[i].attributes, handed)
  {
    var attrs, numbered := row[i].attributes, Numbered(handed);
    ReportReachesIff(row, i, uuid);
    if !FirstWaiting(row, i, uuid) {
      MisroutedFails(row, i, uuid, handed);
    } else {
      forall cs {:induction false} | SameShape(cs, handed)
        ensures ReportedExactly(row, i, Service(uuid, cs)) <==> Exact(AssignAll(attrs, cs), cs)
      {
        assert AfterReport(row, Service(uuid, cs))[i].attributes == AssignAll(attrs, cs);
      }
      TranslationExactIff(attrs, handed);
    }
  }

  /** After a report an entry has its application handle, and stack handle, UUID and kind of its node. */
  lemma {:induction false} NodeAfterReport(attrs: seq<Attribute>, cs: seq<Characteristic>,
                                           report: seq<Characteristic>, k: nat, j: nat)
    requires Begins(attrs, cs) && Unambiguous(attrs, cs) && SameShape(report, cs)
    requires k < |report| && j <= |report[k].descriptors|
    ensures var now, node, p := AssignAll(attrs, report), CharacteristicNodes(report[k])[j], Offset(report, k) + j;
            && p < |attrs| == |now|
            && now[p] == Attribute(attrs[p].handle, node.handle, node.uuid, node.kind)
  {
    var now, node, p := AssignAll(attrs, report), CharacteristicNodes(report[k])[j], Offset(report, k) + j;
    UnambiguousIsExact(attrs, cs, report);
    PreorderNode(report, k, j);
    ShapeGivesOffsets(report, cs, k);
    PreorderNode(cs, k, j);
    assert now[p].actualHandle == node.handle;
    assert attrs[p].uuid == CharacteristicNodes(cs[k])[j].uuid == node.uuid;
    assert attrs[p].kind == CharacteristicNodes(cs[k])[j].kind == node.kind;
  }

  /** A report that reaches its slot makes the lookups find the entry of each of its nodes. */
  lemma {:induction false} RequestFindsNode(row: seq<Slot>, i: nat, report: Service, handed: seq<Characteristic>, k: nat, j: nat)
    requires FirstWaiting(row, i, report.uuid) && Begins(row[i].attributes, handed)
    requires SameShape(report.characteristics, handed) && Unambiguous(row[i].attributes, handed)
    requires k < |report.characteristics| && j <= |report.characteristics[k].descriptors|
    requires CharacteristicNodes(report.characteristics[k])[j].handle != 0
    requires DistinctActualHandles(AfterReport(row, report))
    ensures var now, node := AfterReport(row, report), CharacteristicNodes(report.characteristics[k])[j];
            var p := Offset(report.characteristics, k) + j;
            && Lookup(now, HasActualHandle(node.handle)) == Some((i, p))
            && p < |row[i].attributes| == |now[i].attributes|
            && now[i].attributes[p] == Attribute(row[i].attributes[p].handle, node.handle, node.uuid, node.kind)
  {
    ReportReachesIff(row, i, report.uuid);
    assert AfterReport(row, report)[i].attributes == AssignAll(row[i].attributes, report.characteristics);
    NodeAfterReport(row[i].attributes, handed, report.characteristics, k, j);
    ActualLookupFinds(AfterReport(row, report), i, Offset(report.characteristics, k) + j);
  }

  lemma {:induction false} HandleLookupFinds(row: seq<Slot>, i: nat, p: nat)
    requires DistinctHandles(row) && Live(row, i, p)
    ensures Lookup(row, HasHandle(row[i].attributes[p].handle)) == Some((i, p))
  {
    var pred := HasHandle(row[i].attributes[p].handle);
    assert Hit(row, pred, i, p);
    forall i', p' | Hit(row, pred, i', p')
      ensures i' == i && p' == p
    {
      assert Live(row, i', p');
    }
    LookupIsThe(row, pred, i, p);
  }

  lemma {:induction false} ActualLookupFinds(row: seq<Slot>, i: nat, p: nat)
    requires DistinctActualHandles(row) && Live(row, i, p) && row[i].attributes[p].actualHandle != 0
    ensures Lookup(row, HasActualHandle(row[i].attributes[p].actualHandle)) == Some((i, p))
  {
    var pred := HasActualHandle(row[i].attributes[p].actualHandle);
    assert Hit(row, pred, i, p);
    forall i', p' | Hit(row, pred, i', p')
      ensures i' == i && p' == p
    {
      assert Live(row, i', p');
    }
    LookupIsThe(row, pred, i, p);
  }

  // ------------------------------------------------------------------------------------------
  // The tables
  // ------------------------------------------------------------------------------------------

  predicate ValidServer(serverId: int) { 0 <= serverId < MAXIMUM_NUMBER_APPLICATION }
  predicate ValidSlot(slot: int) { 0 <= slot < MAXIMUM_NUMBER_GATTSERVICE }

  class GattServers {
    const registered: array<bool>
    const services: array2<Slot>
    var nextAttributeHandle: nat
    ghost var owners: seq<Place>                    // where each drawn handle went
    ghost var draws: map<(int, int), seq<nat>>      // which draws the list of a slot holds
    ghost var handed: map<(int, int), seq<Characteristic>>   // the tree last handed to the stack

    ghost predicate Shaped()
      reads this
    {
      && registered.Length == MAXIMUM_NUMBER_APPLICATION
      && services.Length0 == MAXIMUM_NUMBER_APPLICATION && services.Length1 == MAXIMUM_NUMBER_GATTSERVICE
      && CounterAfter(nextAttributeHandle, |owners|)
    }

    ghost predicate SlotValid(s: int, i: int)
      requires Shaped() && ValidServer(s) && ValidSlot(i)
      reads this, services
    {
      && Agrees(services[s, i])
      && (s, i) in draws && Drawn(services[s, i].attributes, draws[(s, i)], owners, s, i)
      && (services[s, i].service.Some? && services[s, i].isAdding ==>
            (s, i) in handed && Begins(services[s, i].attributes, handed[(s, i)]))
    }

    /** After any run of calls. */
    ghost predicate Valid()
      reads this, services
    {
      Shaped() && forall s, i :: ValidServer(s) && ValidSlot(i) ==> SlotValid(s, i)
    }

    ghost function Row(s: int): seq<Slot>
      requires Shaped() && ValidServer(s)
      reads this, services
    {
      seq(MAXIMUM_NUMBER_GATTSERVICE, i requires 0 <= i < MAXIMUM_NUMBER_GATTSERVICE && Shaped()
          reads this, services => services[s, i])
    }

    /** One draw was made, for the end of the list of this slot. */
    twostate predicate Draws(s: int, i: int, position: int)
      reads this
    {
      && owners == old(owners) + [Place(s, i, position)]
      && (s, i) in old(draws) && draws == old(draws)[(s, i) := old(draws)[(s, i)] + [|old(owners)|]]
    }

    /** Every slot but one is as it was. */
    twostate predicate OnlySlot(s: int, i: int)
      requires Shaped() && old(Shaped())
      reads this, services
    {
      forall s', i' :: ValidServer(s') && ValidSlot(i') && (s' != s || i' != i) ==> services[s', i'] == old(services[s', i'])
    }

    constructor ()
      ensures Valid() && fresh(registered) && fresh(services) && owners == []
      ensures registered.Length == 10 && services.Length0 == 10 && services.Length1 == 10
      ensures forall s, i :: ValidServer(s) && ValidSlot(i) ==> services[s, i] == Slot(None, false, [])
      ensures forall s :: ValidServer(s) ==> !registered[s]
    {
      registered := new bool[MAXIMUM_NUMBER_APPLICATION](_ => false);
      services := new Slot[MAXIMUM_NUMBER_APPLICATION, MAXIMUM_NUMBER_GATTSERVICE]((_, _) => Slot(None, false, []));
      nextAttributeHandle := 1;
      owners := [];
      handed := map[];
      draws := map s, i | 0 <= s < MAXIMUM_NUMBER_APPLICATION && 0 <= i < MAXIMUM_NUMBER_GATTSERVICE :: (s, i) := [];
      new;
      forall s, i | ValidServer(s) && ValidSlot(i)
        ensures SlotValid(s, i)
      {
        assert services[s, i] == Slot(None, false, []);
      }
    }

    method GetNextAttributeHandle(ghost place: Place) returns (handle: nat)
      requires Shaped()
      modifies this`nextAttributeHandle, this`owners
      ensures Shaped() && owners == old(owners) + [place]
      ensures handle == HandleOf(|old(owners)|) && 1 <= handle < UINT16_MAX
    {
      NextDraw(nextAttributeHandle, |owners|);
      if nextAttributeHandle == UINT16_MAX {
        nextAttributeHandle := 1;
      }
      handle := nextAttributeHandle;
      nextAttributeHandle := nextAttributeHandle + 1;
      owners := owners + [place];
    }

    /** Stores a slot and its draws; the rest of the table keeps its invariant. */
    method Store(s: int, i: int, slot: Slot, ghost ds: seq<nat>)
      requires Shaped() && ValidServer(s) && ValidSlot(i)
      requires forall s', i' :: ValidServer(s') && ValidSlot(i') && (s' != s || i' != i) ==> SlotValid(s', i')
      requires Agrees(slot) && Drawn(slot.attributes, ds, owners, s, i)
      requires slot.service.Some? && slot.isAdding ==> (s, i) in handed && Begins(slot.attributes, handed[(s, i)])
      modifies services, this`draws
      ensures Valid() && services[s, i] == slot && OnlySlot(s, i)
      ensures draws == old(draws)[(s, i) := ds]
    {
      services[s, i] := slot;
      draws := draws[(s, i) := ds];
      forall s', i' | ValidServer(s') && ValidSlot(i')
        ensures SlotValid(s', i')
      {
        if s' != s || i' != i {
          assert old(SlotValid(s', i'));
        }
      }
    }

    /** Callbacks tells whether the application has set its callbacks. */
    method BleGattsRegister(callbacks: bool) returns (status: Status, serverId: nat)
      requires Valid()
      modifies registered
      ensures Valid()
      ensures status == Success <==> callbacks && exists s :: ValidServer(s) && !old(registered[s])
      ensures status == Success ==> ValidServer(serverId) && registered[..] == old(registered[..])[serverId := true]
      ensures status == Success ==> forall s :: 0 <= s < serverId ==> old(registered[s])
      ensures status != Success ==> status == Failed && registered[..] == old(registered[..])
    {
      serverId := 0;
      if !callbacks {
        return Failed, 0;
      }
      while serverId < MAXIMUM_NUMBER_APPLICATION
        invariant serverId <= MAXIMUM_NUMBER_APPLICATION
        invariant forall s :: 0 <= s < serverId ==> registered[s]
        invariant registered[..] == old(registered[..])
      {
        if !registered[serverId] {
          registered[serverId] := true;
          return Success, serverId;
        }
        serverId := serverId + 1;
      }
      return Failed, 0;
    }

    method BleGattsUnRegister(serverId: int) returns (status: Status)
      requires Valid()
      modifies registered
      ensures Valid()
      ensures status == Success <==> ValidServer(serverId) && old(registered[serverId])
      ensures status == Success ==> registered[..] == old(registered[..])[serverId := false]
      ensures status != Success ==> status == Failed && registered[..] == old(registered[..])
    {
      if ValidServer(serverId) && registered[serverId] {
        registered[serverId] := false;
        return Success;
      }
      return Failed;
    }

    /** The service takes the lowest free slot of the server. */
    method BleGattsAddService(serverId: int, uuid: Option<Uuid>) returns (status: Status, srvcHandle: nat)
      requires Valid()
      modifies services, this`draws
      ensures Valid()
      ensures uuid.None? || !ValidServer(serverId) ==> status == ParmInvalid
      ensures uuid.Some? && ValidServer(serverId) ==>
                (status == Success <==> exists i :: ValidSlot(i) && old(services[serverId, i]).service.None?)
                && (status == Success || status == Failed)
      ensures status == Success ==>
                && ValidSlot(srvcHandle) && old(services[serverId, srvcHandle]).service.None?
                && (forall i :: 0 <= i < srvcHandle ==> old(services[serverId, i]).service.Some?)
                && services[serverId, srvcHandle] == Slot(Some(Service(uuid.value, [])), false, [])
                && OnlySlot(serverId, srvcHandle)
      ensures status != Success ==> OnlySlot(-1, -1)
    {
      srvcHandle := 0;
      if uuid.None? || !ValidServer(serverId) {
        return ParmInvalid, 0;
      }
      while srvcHandle < MAXIMUM_NUMBER_GATTSERVICE
        invariant srvcHandle <= MAXIMUM_NUMBER_GATTSERVICE
        invariant forall i :: 0 <= i < srvcHandle ==> services[serverId, i].service.Some?
        invariant Valid() && OnlySlot(-1, -1)
      {
        if services[serverId, srvcHandle].service.None? {
          assert SlotValid(serverId, srvcHandle);
          Store(serverId, srvcHandle,
                Slot(Some(Service(uuid.value, [])), false, services[serverId, srvcHandle].attributes), []);
          return Success, srvcHandle;
        }
        srvcHandle := srvcHandle + 1;
      }
      return Failed, srvcHandle;
    }

    method BleGattsAddCharacteristic(serverId: int, srvcHandle: int, uuid: Option<Uuid>)
      returns (status: Status, handle: nat)
      requires Valid()
      modifies services, this`nextAttributeHandle, this`owners, this`draws
      ensures Valid()
      ensures status == (if !ValidServer(serverId) || !ValidSlot(srvcHandle) || uuid.None? then ParmInvalid
                         else if old(services[serverId, srvcHandle]).service.None? then Unhandled else Success)
      ensures status == Success ==>
                var was := old(services[serverId, srvcHandle]);
                && handle == HandleOf(|old(owners)|) && Draws(serverId, srvcHandle, |was.attributes|)
                && services[serverId, srvcHandle] ==
                   was.(service := Some(AddedCharacteristic(was.service.value, uuid.value)),
                        attributes := was.attributes + [Attribute(handle, 0, uuid.value, CharacteristicAttribute)])
                && OnlySlot(serverId, srvcHandle)
      ensures status != Success ==> OnlySlot(-1, -1) && owners == old(owners)
    {
      handle := 0;
      if !ValidServer(serverId) || !ValidSlot(srvcHandle) || uuid.None? {
        return ParmInvalid, 0;
      }
      var slot := services[serverId, srvcHandle];
      if slot.service.None? {
        return Unhandled, 0;
      }
      handle := AppendAttribute(serverId, srvcHandle, CharacteristicAttribute, uuid.value);
      return Success, handle;
    }

    /** The descriptor goes to the characteristic added last. */
    method BleGattsAddDescriptor(serverId: int, srvcHandle: int, uuid: Option<Uuid>)
      returns (status: Status, handle: nat)
      requires Valid()
      modifies services, this`nextAttributeHandle, this`owners, this`draws
      ensures Valid()
      ensures status == (if !ValidServer(serverId) || !ValidSlot(srvcHandle) || uuid.None? then ParmInvalid
                         else if old(services[serverId, srvcHandle]).service.None?
                                 || old(services[serverId, srvcHandle]).service.value.characteristics == [] then Unhandled
                         else Success)
      ensures status == Success ==>
                var was := old(services[serverId, srvcHandle]);
                && handle == HandleOf(|old(owners)|) && Draws(serverId, srvcHandle, |was.attributes|)
                && services[serverId, srvcHandle] ==
                   was.(service := Some(AddedDescriptor(was.service.value, uuid.value, handle)),
                        attributes := was.attributes + [Attribute(handle, 0, uuid.value, DescriptorAttribute)])
                && OnlySlot(serverId, srvcHandle)
      ensures status != Success ==> OnlySlot(-1, -1) && owners == old(owners)
    {
      handle := 0;
      if !ValidServer(serverId) || !ValidSlot(srvcHandle) || uuid.None? {
        return ParmInvalid, 0;
      }
      var slot := services[serverId, srvcHandle];
      if slot.service.None? || slot.service.value.characteristics == [] {
        return Unhandled, 0;
      }
      handle := AppendAttribute(serverId, srvcHandle, DescriptorAttribute, uuid.value);
      return Success, handle;
    }

    /** Draws a handle and extends the tree and the list of an occupied slot by one attribute. */
    method AppendAttribute(s: int, i: int, kind: Kind, uuid: Uuid) returns (handle: nat)
      requires Valid() && ValidServer(s) && ValidSlot(i) && services[s, i].service.Some?
      requires kind == CharacteristicAttribute
               || (kind == DescriptorAttribute && services[s, i].service.value.characteristics != [])
      modifies services, this`nextAttributeHandle, this`owners, this`draws
      ensures Valid() && OnlySlot(s, i) && handle == HandleOf(|old(owners)|) && Draws(s, i, |old(services[s, i]).attributes|)
      ensures var was := old(services[s, i]);
              services[s, i] ==
              was.(service := Some(if kind == CharacteristicAttribute then AddedCharacteristic(was.service.value, uuid)
                                   else AddedDescriptor(was.service.value, uuid, handle)),
                   attributes := was.attributes + [Attribute(handle, 0, uuid, kind)])
    {
      var slot := services[s, i];
      assert SlotValid(s, i);
      handle := GetNextAttributeHandle(Place(s, i, |slot.attributes|));
      var attribute := Attribute(handle, 0, uuid, kind);
      forall s', i' | ValidServer(s') && ValidSlot(i') && (s' != s || i' != i)
        ensures SlotValid(s', i')
      {
        assert old(SlotValid(s', i'));
        OthersDrawn(services[s', i'].attributes, draws[(s', i')], old(owners), s', i', Place(s, i, |slot.attributes|));
      }
      AppendDrawn(slot.attributes, draws[(s, i)], old(owners), s, i, attribute);
      if slot.isAdding {
        BeginsExtends(slot.attributes, handed[(s, i)], attribute);
      }
      var tree;
      if kind == CharacteristicAttribute {
        AddCharacteristicAgrees(slot, uuid, handle);
        tree := AddedCharacteristic(slot.service.value, uuid);
      } else {
        AddDescriptorAgrees(slot, uuid, handle);
        tree := AddedDescriptor(slot.service.value, uuid, handle);
      }
      Store(s, i, slot.(service := Some(tree), attributes := slot.attributes + [attribute]), draws[(s, i)] + [|old(owners)|]);
    }

    method BleGattsStartService(serverId: int, srvcHandle: int) returns (status: Status)
      requires Valid()
      modifies services, this`draws, this`handed
      ensures Valid() && draws == old(draws)
      ensures status == (if !ValidServer(serverId) || !ValidSlot(srvcHandle) then ParmInvalid
                         else if !registered[serverId] || old(services[serverId, srvcHandle]).service.None? then Unhandled
                         else Success)
      ensures status == Success ==>
                services[serverId, srvcHandle] == old(services[serverId, srvcHandle]).(isAdding := true)
                && OnlySlot(serverId, srvcHandle)
                && handed == old(handed)[(serverId, srvcHandle) := old(services[serverId, srvcHandle]).service.value.characteristics]
      ensures status != Success ==> OnlySlot(-1, -1) && handed == old(handed)
    {
      if !ValidServer(serverId) || !ValidSlot(srvcHandle) {
        return ParmInvalid;
      }
      if !registered[serverId] || services[serverId, srvcHandle].service.None? {
        return Unhandled;
      }
      assert SlotValid(serverId, srvcHandle);
      handed := handed[(serverId, srvcHandle) := services[serverId, srvcHandle].service.value.characteristics];
      forall s, i | ValidServer(s) && ValidSlot(i) && (s != serverId || i != srvcHandle)
        ensures SlotValid(s, i)
      {
        assert old(SlotValid(s, i));
      }
      Store(serverId, srvcHandle, services[serverId, srvcHandle].(isAdding := true), draws[(serverId, srvcHandle)]);
      return Success;
    }

    method BleGattsStopService(serverId: int, srvcHandle: int) returns (status: Status)
      requires Valid()
      modifies services, this`draws
      ensures Valid() && draws == old(draws)
      ensures status == (if !ValidServer(serverId) || !ValidSlot(srvcHandle) then ParmInvalid
                         else if !registered[serverId] || old(services[serverId, srvcHandle]).service.None? then Unhandled
                         else Success)
      ensures status == Success ==>
                services[serverId, srvcHandle] == old(services[serverId, srvcHandle]).(isAdding := false)
                && OnlySlot(serverId, srvcHandle)
      ensures status != Success ==> OnlySlot(-1, -1)
    {
      if !ValidServer(serverId) || !ValidSlot(srvcHandle) {
        return ParmInvalid;
      }
      if !registered[serverId] || services[serverId, srvcHandle].service.None? {
        return Unhandled;
      }
      assert SlotValid(serverId, srvcHandle);
      Store(serverId, srvcHandle, services[serverId, srvcHandle].(isAdding := false), draws[(serverId, srvcHandle)]);
      return Success;
    }

    method BleGattsDeleteService(serverId: int, srvcHandle: int) returns (status: Status)
      requires Valid()
      modifies services, this`draws
      ensures Valid()
      ensures status == (if !ValidServer(serverId) || !ValidSlot(srvcHandle) then ParmInvalid
                         else if !registered[serverId] || old(services[serverId, srvcHandle]).service.None? then Unhandled
                         else Success)
      ensures status == Success ==>
                services[serverId, srvcHandle] == Slot(None, old(services[serverId, srvcHandle]).isAdding, [])
                && OnlySlot(serverId, srvcHandle)
      ensures status != Success ==> OnlySlot(-1, -1)
    {
      if !ValidServer(serverId) || !ValidSlot(srvcHandle) {
        return ParmInvalid;
      }
      if !registered[serverId] || services[serverId, srvcHandle].service.None? {
        return Unhandled;
      }
      Store(serverId, srvcHandle, services[serverId, srvcHandle].(service := None, attributes := []), []);
      return Success;
    }

    /** The draws of a server, slot by slot. */
    ghost function DrawsOf(s: int): seq<seq<nat>>
      reads this
    {
      seq(MAXIMUM_NUMBER_GATTSERVICE, i reads this => if (s, i) in draws then draws[(s, i)] else [])
    }

    lemma {:induction false} RowIsDrawn(s: int)
      requires Valid() && ValidServer(s)
      ensures RowDrawn(Row(s), DrawsOf(s), owners, s)
    {
      forall i | 0 <= i < MAXIMUM_NUMBER_GATTSERVICE
        ensures Drawn(Row(s)[i].attributes, DrawsOf(s)[i], owners, s, i)
      {
        assert SlotValid(s, i);
      }
    }

    /**
      In every state, every lookup on a server leads back to the attribute it came from exactly when no two
      draws in use there are whole laps of the counter apart and the non-zero stack handles are distinct.
     */
    lemma {:induction false} HandlesLeadBackIff(s: int)
      requires Valid() && ValidServer(s)
      ensures (forall i: nat, p: nat :: Live(Row(s), i, p) ==>
                 Lookup(Row(s), HasHandle(Row(s)[i].attributes[p].handle)) == Some((i, p)))
              <==> NoLapsApart(DrawsOf(s))
      ensures (forall i: nat, p: nat :: Live(Row(s), i, p) && Row(s)[i].attributes[p].actualHandle != 0 ==>
                 Lookup(Row(s), HasActualHandle(Row(s)[i].attributes[p].actualHandle)) == Some((i, p)))
              <==> DistinctActualHandles(Row(s))
    {
      RowIsDrawn(s);
      HandlesDistinctIff(Row(s), DrawsOf(s), owners, s);
      HandleLookupExactIff(Row(s));
      ActualLookupExactIff(Row(s));
    }

    /** From either handle of a started attribute the lookups return it, under those conditions. */
    lemma {:induction false} HandlesLeadBack(s: int, i: nat, p: nat)
      requires Valid() && ValidServer(s) && Live(Row(s), i, p) && Row(s)[i].attributes[p].actualHandle != 0
      requires NoLapsApart(DrawsOf(s)) && DistinctActualHandles(Row(s))
      ensures Lookup(Row(s), HasHandle(Row(s)[i].attributes[p].handle)) == Some((i, p))
      ensures Lookup(Row(s), HasActualHandle(Row(s)[i].attributes[p].actualHandle)) == Some((i, p))
    {
      RowIsDrawn(s);
      HandlesDistinctIff(Row(s), DrawsOf(s), owners, s);
      HandleRoundTrip(Row(s), i, p);
    }

    /** In particular the first condition holds as long as no draw in use is 65534 draws old. */
    lemma {:induction false} LiveHandlesDistinct(s: int)
      requires Valid() && ValidServer(s)
      requires forall i, p :: 0 <= i < |DrawsOf(s)| && 0 <= p < |DrawsOf(s)[i]| ==> |owners| < DrawsOf(s)[i][p] + UINT16_MAX
      ensures NoLapsApart(DrawsOf(s)) && DistinctHandles(Row(s))
    {
      RowIsDrawn(s);
      RecentHandlesDistinct(Row(s), DrawsOf(s), owners, s);
      HandlesDistinctIff(Row(s), DrawsOf(s), owners, s);
    }

    /**
      Translation in every state: a fresh slot that waits gets the handles of its own nodes from every
      report of the tree handed to the stack, whatever was added since, if and only if no lower slot waits
      under the same UUID and the list is unambiguous.
     */
    lemma {:induction false} WaitingSlotReportedIff(s: int, i: int, uuid: Uuid)
      requires Valid() && ValidServer(s) && ValidSlot(i) && Awaits(services[s, i], uuid)
      requires (s, i) in handed && handed[(s, i)] != []
      requires forall p :: 0 <= p < |services[s, i].attributes| ==> services[s, i].attributes[p].actualHandle == 0
      ensures (forall cs {:induction false} :: SameShape(cs, handed[(s, i)]) ==> ReportedExactly(Row(s), i, Service(uuid, cs)))
              <==> FirstWaiting(Row(s), i, uuid) && Unambiguous(services[s, i].attributes, handed[(s, i)])
    {
      assert SlotValid(s, i);
      ReportExactIff(Row(s), i, uuid, handed[(s, i)]);
    }

    /** Where a request for the stack handle of node (k, j) of the report ends up. */
    ghost predicate FindsItsDraw(s: int, i: int, report: Service, k: nat, j: nat)
      requires Shaped() && ValidServer(s) && ValidSlot(i)
      requires k < |report.characteristics| && j <= |report.characteristics[k].descriptors|
      reads this, services
    {
      var cs := report.characteristics;
      var row, p, node := AfterReport(Row(s), report), Offset(cs, k) + j, CharacteristicNodes(cs[k])[j];
      && Lookup(row, HasActualHandle(node.handle)) == Some((i, p))
      && (s, i) in draws && p < |row[i].attributes| == |draws[(s, i)]| && draws[(s, i)][p] < |owners|
      && row[i].attributes[p] == Attribute(HandleOf(draws[(s, i)][p]), node.handle, node.uuid, node.kind)
      && owners[draws[(s, i)][p]] == Place(s, i, p)
    }

    /**
      The whole way in any state: when the report reaches slot i, a request for the stack handle of any
      reported node finds, at the node's place in the preorder, the entry whose application handle is the
      very draw that was made for that place.
     */
    lemma {:induction false} RequestFindsItsDraw(s: int, i: int, report: Service, k: nat, j: nat)
      requires Valid() && ValidServer(s) && ValidSlot(i) && FirstWaiting(Row(s), i, report.uuid)
      requires (s, i) in handed && SameShape(report.characteristics, handed[(s, i)])
      requires Unambiguous(services[s, i].attributes, handed[(s, i)])
      requires k < |report.characteristics| && j <= |report.characteristics[k].descriptors|
      requires CharacteristicNodes(report.characteristics[k])[j].handle != 0
      requires DistinctActualHandles(AfterReport(Row(s), report))
      ensures FindsItsDraw(s, i, report, k, j)
    {
      assert SlotValid(s, i);
      RequestFindsNode(Row(s), i, report, handed[(s, i)], k, j);
    }

    /** In particular it does when the UUIDs are distinct and the slot was filled in one lap of the counter. */
    lemma {:induction false} OneLapRequestFindsItsDraw(s: int, i: int, report: Service, k: nat, j: nat)
      requires Valid() && ValidServer(s) && ValidSlot(i) && FirstWaiting(Row(s), i, report.uuid)
      requires (s, i) in draws && OneLap(draws[(s, i)])
      requires (s, i) in handed && DistinctUuids(handed[(s, i)])
      requires SameShape(report.characteristics, handed[(s, i)])
      requires k < |report.characteristics| && j <= |report.characteristics[k].descriptors|
      requires CharacteristicNodes(report.characteristics[k])[j].handle != 0
      requires DistinctActualHandles(AfterReport(Row(s), report))
      ensures FindsItsDraw(s, i, report, k, j)
    {
      assert SlotValid(s, i);
      OneLapRises(services[s, i].attributes, draws[(s, i)], owners, s, i);
      RisingUnambiguousIffDistinct(services[s, i].attributes, handed[(s, i)]);
      RequestFindsItsDraw(s, i, report, k, j);
    }

    method FindInServer(serverId: int, pred: Attribute -> bool) returns (r: Option<(nat, nat)>)
      requires Valid()
      ensures r == if ValidServer(serverId) then Lookup(Row(serverId), pred) else None
    {
      if !ValidServer(serverId) {
        return None;
      }
      ghost var row := Row(serverId);
      for i := 0 to MAXIMUM_NUMBER_GATTSERVICE
        invariant Lookup(row[..i], pred) == None
      {
        var p := GetAttribute(services[serverId, i].attributes, pred);
        assert row[i] == services[serverId, i];
        LookupStep(row, pred, i);
        if p < |services[serverId, i].attributes| {
          return Some((i, p));
        }
      }
      assert row[..MAXIMUM_NUMBER_GATTSERVICE] == row;
      return None;
    }

    method GetAttributeWithHandle(serverId: int, handle: nat) returns (r: Option<(nat, nat)>)
      requires Valid()
      ensures r == if ValidServer(serverId) then Lookup(Row(serverId), HasHandle(handle)) else None
    {
      r := FindInServer(serverId, HasHandle(handle));
    }

    method GetAttributeWithActualHandle(serverId: int, actualHandle: nat) returns (r: Option<(nat, nat)>)
      requires Valid()
      ensures r == if ValidServer(serverId) then Lookup(Row(serverId), HasActualHandle(actualHandle)) else None
    {
      r := FindInServer(serverId, HasActualHandle(actualHandle));
    }

    /** The first slot of the server that is being added under the UUID. */
    method FindAdding(serverId: int, uuid: Uuid) returns (i: nat)
      requires Valid() && ValidServer(serverId)
      ensures i == Addressee(Row(serverId), uuid) <= MAXIMUM_NUMBER_GATTSERVICE
    {
      ghost var row := Row(serverId);
      i := 0;
      while i < MAXIMUM_NUMBER_GATTSERVICE
        invariant i <= MAXIMUM_NUMBER_GATTSERVICE
        invariant forall i' :: 0 <= i' < i ==> !Awaits(row[i'], uuid)
      {
        assert row[i] == services[serverId, i];
        if Awaits(services[serverId, i], uuid) {
          return;
        }
        i := i + 1;
      }
    }

    /** The stack reports the outcome of adding a service, with its own handles; heard tells whether the application listens. */
    method OnServiceAdded(serverId: int, report: Service, ok: bool, heard: bool) returns (status: Status, i: nat)
      requires Valid()
      modifies services, this`draws
      ensures Valid() && draws == old(draws)
      ensures status == (if !ValidServer(serverId) then ParmInvalid else if !heard then Unhandled
                         else if !ok || Addressee(old(Row(serverId)), report.uuid) == MAXIMUM_NUMBER_GATTSERVICE then Failed
                         else Success)
      ensures status == Success ==>
                && i == Addressee(old(Row(serverId)), report.uuid) < MAXIMUM_NUMBER_GATTSERVICE
                && Row(serverId) == AfterReport(old(Row(serverId)), report) && OnlySlot(serverId, i)
      ensures status == Success ==>
                var was := old(services[serverId, i]);
                && was.isAdding && was.service.Some? && was.service.value.uuid == report.uuid
                && (forall k :: 0 <= k < i ==>
                      !(old(services[serverId, k]).isAdding && old(services[serverId, k]).service.Some?
                        && old(services[serverId, k]).service.value.uuid == report.uuid))
                && services[serverId, i] ==
                   Slot(was.service, false, AssignAll(was.attributes, report.characteristics))
      ensures ValidServer(serverId) && heard && ok ==>
                (status == Failed <==>
                   forall k :: 0 <= k < MAXIMUM_NUMBER_GATTSERVICE ==>
                     !(old(services[serverId, k]).isAdding && old(services[serverId, k]).service.Some?
                       && old(services[serverId, k]).service.value.uuid == report.uuid))
      ensures status != Success ==> OnlySlot(-1, -1)
    {
      if !ValidServer(serverId) {
        return ParmInvalid, MAXIMUM_NUMBER_GATTSERVICE;
      }
      if !heard {
        return Unhandled, MAXIMUM_NUMBER_GATTSERVICE;
      }
      if !ok {
        return Failed, MAXIMUM_NUMBER_GATTSERVICE;
      }
      ghost var row := Row(serverId);
      assert forall k :: 0 <= k < MAXIMUM_NUMBER_GATTSERVICE ==> row[k] == services[serverId, k];
      i := FindAdding(serverId, report.uuid);
      if i == MAXIMUM_NUMBER_GATTSERVICE {
        return Failed, i;
      }
      assert Awaits(row[i], report.uuid);
      Deliver(serverId, i, report.characteristics);
      assert services[serverId, i] == Row(serverId)[i];
      return Success, i;
    }

    /** Gives the reported handles to the entries of a slot, which then waits no longer. */
    method Deliver(s: int, i: int, report: seq<Characteristic>)
      requires Valid() && ValidServer(s) && ValidSlot(i)
      modifies services, this`draws
      ensures Valid() && draws == old(draws) && OnlySlot(s, i)
      ensures Row(s) == old(Row(s))[i := old(services[s, i]).(isAdding := false,
                                         attributes := AssignAll(old(services[s, i]).attributes, report))]
    {
      var slot := services[s, i];
      assert SlotValid(s, i);
      var attributes := AssignReported(slot.attributes, report);
      AssignAgrees(slot, report);
      AssignKeepsSkeleton(slot.attributes, report);
      Store(s, i, slot.(isAdding := false, attributes := attributes), draws[(s, i)]);
    }
  }

  method GetAttribute(attributes: seq<Attribute>, predicate_: Attribute -> bool) returns (p: nat)
    ensures p == FindFirst(attributes, predicate_)
  {
    p := 0;
    while p < |attributes|
      invariant p <= |attributes|
      invariant forall i :: 0 <= i < p ==> !predicate_(attributes[i])
    {
      if predicate_(attributes[p]) {
        return;
      }
      p := p + 1;
    }
  }

  /** The loops over the reported characteristics and their descriptors. */
  method AssignReported(attributes: seq<Attribute>, report: seq<Characteristic>) returns (r: seq<Attribute>)
    ensures r == AssignAll(attributes, report)
  {
    r := attributes;
    for k := 0 to |report|
      invariant r == AssignAll(attributes, report[..k])
    {
      var item := report[k];
      assert report[..k + 1][..k] == report[..k];
      var p := GetAttribute(r, IsCharacteristic(item.uuid));
      if p < |r| {
        r := r[p := r[p].(actualHandle := item.handle)];
        r := AssignReportedDescriptors(r, item.uuid, item.descriptors);
      }
    }
    assert report[..|report|] == report;
  }

  method AssignReportedDescriptors(attributes: seq<Attribute>, characterUuid: Uuid, descriptors: seq<Descriptor>)
    returns (r: seq<Attribute>)
    ensures r == AssignDescriptors(attributes, characterUuid, descriptors)
  {
    r := attributes;
    for j := 0 to |descriptors|
      invariant r == AssignDescriptors(attributes, characterUuid, descriptors[..j])
    {
      assert descriptors[..j + 1][..j] == descriptors[..j];
      var c := GetAttribute(r, IsCharacteristic(characterUuid));
      if c < |r| {
        var p := GetAttribute(r, IsAfterWithUuid(r[c].handle, descriptors[j].uuid));
        if p < |r| {
          r := r[p := r[p].(actualHandle := descriptors[j].handle)];
        }
      }
    }
    assert descriptors[..|descriptors|] == descriptors;
  }
}
