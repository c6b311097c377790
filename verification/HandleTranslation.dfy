/**
  The attribute list of one GATT service slot, and the translation of its handles.

  The application sees handles drawn from a counter; the stack numbers the attributes itself and
  reports its numbers when the service has been added.  OnServiceAdded matches the two by UUID.
 */
module HandleTranslation {
  import opened Basics

  type Uuid = nat

  datatype Kind = ServiceAttribute | CharacteristicAttribute | DescriptorAttribute

  /** An entry of the flat list: the handle shown to the application and the handle in the stack. */
  datatype Attribute = Attribute(handle: nat, actualHandle: nat, uuid: Uuid, kind: Kind)

  datatype Descriptor = Descriptor(uuid: Uuid, handle: nat)
  datatype Characteristic = Characteristic(uuid: Uuid, handle: nat, descriptors: seq<Descriptor>)
  datatype Service = Service(uuid: Uuid, characteristics: seq<Characteristic>)

  // ------------------------------------------------------------------------------------------
  // The tree and its preorder
  // ------------------------------------------------------------------------------------------

  datatype Node = Node(kind: Kind, uuid: Uuid, handle: nat)

  function DescriptorNodes(ds: seq<Descriptor>): (ns: seq<Node>)
    ensures |ns| == |ds|
    ensures forall j :: 0 <= j < |ds| ==> ns[j] == Node(DescriptorAttribute, ds[j].uuid, ds[j].handle)
  {
    seq(|ds|, j requires 0 <= j < |ds| => Node(DescriptorAttribute, ds[j].uuid, ds[j].handle))
  }

  function CharacteristicNodes(c: Characteristic): seq<Node> {
    [Node(CharacteristicAttribute, c.uuid, c.handle)] + DescriptorNodes(c.descriptors)
  }

  /** The characteristics, each followed by its descriptors. */
  function Preorder(cs: seq<Characteristic>): seq<Node> {
    if cs == [] then []
    else Preorder(cs[..|cs| - 1]) + CharacteristicNodes(cs[|cs| - 1])
  }

  /** Where characteristic k starts in the preorder. */
  function Offset(cs: seq<Characteristic>, k: nat): nat
    requires k <= |cs|
  {
    |Preorder(cs[..k])|
  }

  lemma {:induction false} PreorderOfPrefix(cs: seq<Characteristic>, k: nat)
    requires k <= |cs|
    ensures Preorder(cs[..k]) <= Preorder(cs)
  {
    if k == |cs| {
      assert cs[..k] == cs;
    } else {
      PreorderOfPrefix(cs[..|cs| - 1], k);
      assert cs[..|cs| - 1][..k] == cs[..k];
    }
  }

  /** The preorder holds characteristic k and its descriptors from Offset(cs, k) on. */
  lemma {:induction false} PreorderAt(cs: seq<Characteristic>, k: nat)
    requires k < |cs|
    ensures Offset(cs, k + 1) == Offset(cs, k) + |CharacteristicNodes(cs[k])| <= |Preorder(cs)|
    ensures Preorder(cs)[Offset(cs, k)..Offset(cs, k + 1)] == CharacteristicNodes(cs[k])
  {
    assert cs[..k + 1][..k] == cs[..k];
    PreorderOfPrefix(cs, k + 1);
    assert Preorder(cs[..k + 1]) == Preorder(cs[..k]) + CharacteristicNodes(cs[k]);
  }

  lemma {:induction false} PreorderNode(cs: seq<Characteristic>, k: nat, j: nat)
    requires k < |cs| && j <= |cs[k].descriptors|
    ensures Offset(cs, k) + j < |Preorder(cs)|
    ensures Preorder(cs)[Offset(cs, k) + j] == CharacteristicNodes(cs[k])[j]
  {
    PreorderAt(cs, k);
    assert Preorder(cs)[Offset(cs, k)..Offset(cs, k + 1)][j] == CharacteristicNodes(cs[k])[j];
  }

  lemma {:induction false} OffsetsIncrease(cs: seq<Characteristic>, i: nat, k: nat)
    requires i < k <= |cs|
    ensures Offset(cs, i) < Offset(cs, k)
  {
    PreorderAt(cs, k - 1);
    if i < k - 1 {
      OffsetsIncrease(cs, i, k - 1);
    }
  }

  /** Every position of the preorder belongs to one characteristic or one of its descriptors. */
  lemma {:induction false} Locate(cs: seq<Characteristic>, p: nat) returns (k: nat, j: nat)
    requires p < |Preorder(cs)|
    ensures k < |cs| && j <= |cs[k].descriptors| && p == Offset(cs, k) + j
  {
    var n := |cs| - 1;
    if p < Offset(cs, n) {
      k, j := Locate(cs[..n], p);
      assert cs[..n][..k] == cs[..k];
    } else {
      k, j := n, p - Offset(cs, n);
    }
  }

  // ------------------------------------------------------------------------------------------
  // Lookups in the flat list
  // ------------------------------------------------------------------------------------------

  function IsCharacteristic(uuid: Uuid): Attribute -> bool {
    (a: Attribute) => a.kind == CharacteristicAttribute && a.uuid == uuid
  }

  /** The kind of the entry is not looked at, only its handle and UUID. */
  function IsAfterWithUuid(handle: nat, uuid: Uuid): Attribute -> bool {
    (a: Attribute) => a.handle > handle && a.uuid == uuid
  }

  function CharacteristicTarget(attrs: seq<Attribute>, uuid: Uuid): nat {
    FindFirst(attrs, IsCharacteristic(uuid))
  }

  function DescriptorTarget(attrs: seq<Attribute>, characterUuid: Uuid, descriptorUuid: Uuid): nat {
    var c := CharacteristicTarget(attrs, characterUuid);
    if c == |attrs| then |attrs| else FindFirst(attrs, IsAfterWithUuid(attrs[c].handle, descriptorUuid))
  }

  ghost predicate SameSkeleton(a: seq<Attribute>, b: seq<Attribute>) {
    |a| == |b| && forall i :: 0 <= i < |a| ==> a[i] == b[i].(actualHandle := a[i].actualHandle)
  }

  /** Assigning stack handles does not change what the lookups find. */
  lemma {:induction false} TargetsIgnoreActualHandles(a: seq<Attribute>, b: seq<Attribute>, cu: Uuid, du: Uuid)
    requires SameSkeleton(a, b)
    ensures CharacteristicTarget(a, cu) == CharacteristicTarget(b, cu)
    ensures DescriptorTarget(a, cu, du) == DescriptorTarget(b, cu, du)
  {
    assert forall i :: 0 <= i < |a| ==> IsCharacteristic(cu)(a[i]) == IsCharacteristic(cu)(b[i]);
    var c := CharacteristicTarget(a, cu);
    assert c == CharacteristicTarget(b, cu);
    if c < |a| {
      var h := a[c].handle;
      assert forall i :: 0 <= i < |a| ==> IsAfterWithUuid(h, du)(a[i]) == IsAfterWithUuid(h, du)(b[i]);
    }
  }

  // ------------------------------------------------------------------------------------------
  // What OnServiceAdded does to the list of the slot it found
  // ------------------------------------------------------------------------------------------

  function SetActual(attrs: seq<Attribute>, p: nat, handle: nat): seq<Attribute> {
    if p < |attrs| then attrs[p := attrs[p].(actualHandle := handle)] else attrs
  }

  function AssignDescriptor(attrs: seq<Attribute>, cu: Uuid, d: Descriptor): seq<Attribute> {
    SetActual(attrs, DescriptorTarget(attrs, cu, d.uuid), d.handle)
  }

  function AssignDescriptors(attrs: seq<Attribute>, cu: Uuid, ds: seq<Descriptor>): seq<Attribute> {
    if ds == [] then attrs
    else AssignDescriptor(AssignDescriptors(attrs, cu, ds[..|ds| - 1]), cu, ds[|ds| - 1])
  }

  function AssignCharacteristic(attrs: seq<Attribute>, c: Characteristic): seq<Attribute> {
    var p := CharacteristicTarget(attrs, c.uuid);
    if p == |attrs| then attrs else AssignDescriptors(SetActual(attrs, p, c.handle), c.uuid, c.descriptors)
  }

  function AssignAll(attrs: seq<Attribute>, report: seq<Characteristic>): seq<Attribute> {
    if report == [] then attrs
    else AssignCharacteristic(AssignAll(attrs, report[..|report| - 1]), report[|report| - 1])
  }

  // ------------------------------------------------------------------------------------------
  // When the translation is exact
  // ------------------------------------------------------------------------------------------

  /**
    The list begins with the preorder of the tree.  This is how a list relates to the tree that was handed
    to the stack when more attributes have been added since.
   */
  ghost predicate Begins(attrs: seq<Attribute>, cs: seq<Characteristic>) {
    && |Preorder(cs)| <= |attrs|
    && (forall p :: 0 <= p < |Preorder(cs)| ==>
                      attrs[p].kind == Preorder(cs)[p].kind && attrs[p].uuid == Preorder(cs)[p].uuid)
  }

  /** The list is the preorder flattening of the tree. */
  ghost predicate Flattens(attrs: seq<Attribute>, cs: seq<Characteristic>) {
    Begins(attrs, cs) && |attrs| == |Preorder(cs)|
  }

  /** The handle counter did not wrap while the list was built. */
  ghost predicate Increasing(attrs: seq<Attribute>) {
    forall p, q :: 0 <= p < q < |attrs| ==> attrs[p].handle < attrs[q].handle
  }

  ghost predicate DistinctDescriptors(ds: seq<Descriptor>) {
    forall j, l :: 0 <= j < l < |ds| ==> ds[j].uuid != ds[l].uuid
  }

  ghost predicate DistinctCharacteristics(cs: seq<Characteristic>) {
    forall i, k :: 0 <= i < k < |cs| ==> cs[i].uuid != cs[k].uuid
  }

  ghost predicate DistinctUuids(cs: seq<Characteristic>) {
    DistinctCharacteristics(cs) && forall k :: 0 <= k < |cs| ==> DistinctDescriptors(cs[k].descriptors)
  }

  /** Entry p lies above entry o by handle, and no earlier entry with its UUID does. */
  ghost predicate FirstAbove(attrs: seq<Attribute>, o: nat, p: nat) {
    && o < |attrs| && p < |attrs| && attrs[p].handle > attrs[o].handle
    && (forall q :: 0 <= q < p && attrs[q].uuid == attrs[p].uuid ==> attrs[q].handle <= attrs[o].handle)
  }

  /**
    The list can be told apart by UUID and handle: characteristic UUIDs are distinct, and every descriptor
    is the first entry with its UUID above its characteristic.
   */
  ghost predicate Unambiguous(attrs: seq<Attribute>, cs: seq<Characteristic>) {
    && DistinctCharacteristics(cs)
    && (forall k, j :: 0 <= k < |cs| && 0 <= j < |cs[k].descriptors| ==> DescriptorFirst(attrs, cs, k, j))
  }

  ghost predicate DescriptorFirst(attrs: seq<Attribute>, cs: seq<Characteristic>, k: nat, j: nat)
    requires k < |cs|
  {
    FirstAbove(attrs, Offset(cs, k), Offset(cs, k) + 1 + j)
  }

  ghost predicate SameDescriptorUuids(a: seq<Descriptor>, b: seq<Descriptor>) {
    |a| == |b| && forall j :: 0 <= j < |a| ==> a[j].uuid == b[j].uuid
  }

  /** The stack reports the tree it was given, with its own handles. */
  ghost predicate SameShape(report: seq<Characteristic>, cs: seq<Characteristic>) {
    && |report| == |cs|
    && (forall k :: 0 <= k < |cs| ==>
                      report[k].uuid == cs[k].uuid && SameDescriptorUuids(report[k].descriptors, cs[k].descriptors))
  }

  /** The list with the first n entries carrying the handles of the given nodes. */
  function Filled(attrs: seq<Attribute>, nodes: seq<Node>, n: nat): seq<Attribute>
    requires n <= |nodes| <= |attrs|
  {
    seq(|attrs|, i requires 0 <= i < |attrs| => if i < n then attrs[i].(actualHandle := nodes[i].handle) else attrs[i])
  }

  /** Every entry of a reported node carries the stack handle of that node. */
  ghost predicate Exact(attrs: seq<Attribute>, report: seq<Characteristic>) {
    && |Preorder(report)| <= |attrs|
    && (forall p :: 0 <= p < |Preorder(report)| ==> attrs[p].actualHandle == Preorder(report)[p].handle)
  }

  /** When the handles rise with the list, only the UUIDs matter. */
  lemma {:induction false} RisingUnambiguousIffDistinct(attrs: seq<Attribute>, cs: seq<Characteristic>)
    requires Begins(attrs, cs) && Increasing(attrs)
    ensures Unambiguous(attrs, cs) <==> DistinctUuids(cs)
  {
    if DistinctUuids(cs) {
      forall k, j | 0 <= k < |cs| && 0 <= j < |cs[k].descriptors|
        ensures DescriptorFirst(attrs, cs, k, j)
      {
        DistinctIsFirstAbove(attrs, cs, k, j);
      }
    }
    if Unambiguous(attrs, cs) {
      forall k, j, l | 0 <= k < |cs| && 0 <= j < l < |cs[k].descriptors|
        ensures cs[k].descriptors[j].uuid != cs[k].descriptors[l].uuid
      {
        assert DescriptorFirst(attrs, cs, k, j) && DescriptorFirst(attrs, cs, k, l);
        FirstAboveDiffer(attrs, cs, k, j, l);
      }
    }
  }

  lemma {:induction false} FirstAboveDiffer(attrs: seq<Attribute>, cs: seq<Characteristic>, k: nat, j: nat, l: nat)
    requires Begins(attrs, cs) && k < |cs| && j < l < |cs[k].descriptors|
    requires DescriptorFirst(attrs, cs, k, j) && DescriptorFirst(attrs, cs, k, l)
    ensures cs[k].descriptors[j].uuid != cs[k].descriptors[l].uuid
  {
    PreorderNode(cs, k, j + 1);
    PreorderNode(cs, k, l + 1);
    assert attrs[Offset(cs, k) + 1 + j].uuid == cs[k].descriptors[j].uuid;
    assert attrs[Offset(cs, k) + 1 + l].uuid == cs[k].descriptors[l].uuid;
  }

  lemma {:induction false} DistinctIsFirstAbove(attrs: seq<Attribute>, cs: seq<Characteristic>, k: nat, j: nat)
    requires Begins(attrs, cs) && Increasing(attrs) && DistinctUuids(cs)
    requires k < |cs| && j < |cs[k].descriptors|
    ensures FirstAbove(attrs, Offset(cs, k), Offset(cs, k) + 1 + j)
  {
    var o := Offset(cs, k);
    PreorderNode(cs, k, j + 1);
    forall q | 0 <= q < o + 1 + j
      ensures attrs[q].uuid == attrs[o + 1 + j].uuid ==> attrs[q].handle <= attrs[o].handle
    {
      if q > o {
        PreorderNode(cs, k, q - o);
        assert attrs[q].uuid == cs[k].descriptors[q - o - 1].uuid;
      }
    }
  }

  lemma {:induction false} CharacteristicTargetIsOwn(attrs: seq<Attribute>, cs: seq<Characteristic>, k: nat)
    requires Begins(attrs, cs) && DistinctCharacteristics(cs) && k < |cs|
    ensures CharacteristicTarget(attrs, cs[k].uuid) == Offset(cs, k) < |attrs|
  {
    PreorderNode(cs, k, 0);
    assert IsCharacteristic(cs[k].uuid)(attrs[Offset(cs, k)]);
    forall p | 0 <= p < Offset(cs, k)
      ensures !IsCharacteristic(cs[k].uuid)(attrs[p])
    {
      var i, j := Locate(cs, p);
      PreorderNode(cs, i, j);
    }
  }

  /** Several characteristics may carry the same descriptor UUID: the handle bound keeps them apart. */
  lemma {:induction false} DescriptorTargetIsOwn(attrs: seq<Attribute>, cs: seq<Characteristic>, k: nat, j: nat)
    requires Begins(attrs, cs) && Unambiguous(attrs, cs)
    requires k < |cs| && j < |cs[k].descriptors|
    ensures DescriptorTarget(attrs, cs[k].uuid, cs[k].descriptors[j].uuid) == Offset(cs, k) + 1 + j < |attrs|
  {
    var o, du := Offset(cs, k), cs[k].descriptors[j].uuid;
    CharacteristicTargetIsOwn(attrs, cs, k);
    PreorderNode(cs, k, j + 1);
    assert DescriptorFirst(attrs, cs, k, j);
    var pred := IsAfterWithUuid(attrs[o].handle, du);
    assert pred(attrs[o + 1 + j]);
    assert forall p :: 0 <= p < o + 1 + j ==> !pred(attrs[p]);
  }

  /** Every lookup made for characteristic k of the report finds the entry of that very node. */
  ghost predicate TargetsOwn(attrs: seq<Attribute>, cs: seq<Characteristic>, k: nat)
    requires k < |cs|
  {
    && Offset(cs, k) + |cs[k].descriptors| < |attrs|
    && CharacteristicTarget(attrs, cs[k].uuid) == Offset(cs, k)
    && DescriptorTargetsOwn(attrs, cs[k].uuid, cs[k].descriptors, Offset(cs, k) + 1)
  }

  ghost predicate DescriptorTargetsOwn(attrs: seq<Attribute>, cu: Uuid, ds: seq<Descriptor>, base: nat) {
    forall j :: 0 <= j < |ds| ==> DescriptorTarget(attrs, cu, ds[j].uuid) == base + j
  }

  lemma {:induction false} UnambiguousTargetsOwn(attrs: seq<Attribute>, cs: seq<Characteristic>, k: nat)
    requires Begins(attrs, cs) && Unambiguous(attrs, cs) && k < |cs|
    ensures TargetsOwn(attrs, cs, k)
  {
    CharacteristicTargetIsOwn(attrs, cs, k);
    PreorderNode(cs, k, |cs[k].descriptors|);
    forall j | 0 <= j < |cs[k].descriptors|
      ensures DescriptorTarget(attrs, cs[k].uuid, cs[k].descriptors[j].uuid) == Offset(cs, k) + 1 + j
    {
      DescriptorTargetIsOwn(attrs, cs, k, j);
    }
  }

  lemma {:induction false} FillNext(attrs: seq<Attribute>, nodes: seq<Node>, n: nat)
    requires n < |nodes| <= |attrs|
    ensures SetActual(Filled(attrs, nodes, n), n, nodes[n].handle) == Filled(attrs, nodes, n + 1)
  {
  }

  lemma {:induction false} FilledTargets(attrs: seq<Attribute>, nodes: seq<Node>, n: nat, cu: Uuid, du: Uuid)
    requires n <= |nodes| <= |attrs|
    ensures CharacteristicTarget(Filled(attrs, nodes, n), cu) == CharacteristicTarget(attrs, cu)
    ensures DescriptorTarget(Filled(attrs, nodes, n), cu, du) == DescriptorTarget(attrs, cu, du)
  {
    TargetsIgnoreActualHandles(Filled(attrs, nodes, n), attrs, cu, du);
  }

  /** One descriptor lookup and assignment extends the filled part of the list by one entry. */
  lemma {:induction false} DescriptorFillsNext(attrs: seq<Attribute>, cu: Uuid, nodes: seq<Node>, n: nat, d: Descriptor)
    requires n < |nodes| <= |attrs|
    requires DescriptorTarget(attrs, cu, d.uuid) == n && nodes[n].handle == d.handle
    ensures AssignDescriptor(Filled(attrs, nodes, n), cu, d) == Filled(attrs, nodes, n + 1)
  {
    FilledTargets(attrs, nodes, n, cu, d.uuid);
    FillNext(attrs, nodes, n);
  }

  ghost predicate FillsAt(attrs: seq<Attribute>, cu: Uuid, nodes: seq<Node>, base: nat, ds: seq<Descriptor>, j: nat)
    requires j < |ds| && base + |ds| <= |nodes| <= |attrs|
  {
    AssignDescriptor(Filled(attrs, nodes, base + j), cu, ds[j]) == Filled(attrs, nodes, base + j + 1)
  }

  lemma {:induction false} DescriptorsFill(attrs: seq<Attribute>, cu: Uuid, nodes: seq<Node>, base: nat,
                                           ds: seq<Descriptor>, n: nat)
    requires n <= |ds| && base + |ds| <= |nodes| <= |attrs|
    requires forall j :: 0 <= j < |ds| ==> FillsAt(attrs, cu, nodes, base, ds, j)
    ensures AssignDescriptors(Filled(attrs, nodes, base), cu, ds[..n]) == Filled(attrs, nodes, base + n)
  {
    if n > 0 {
      DescriptorsFill(attrs, cu, nodes, base, ds, n - 1);
      assert FillsAt(attrs, cu, nodes, base, ds, n - 1);
      assert ds[..n][..n - 1] == ds[..n - 1] && ds[..n][n - 1] == ds[n - 1];
    }
  }

  /** From the given position on, the nodes carry the handles of the descriptors. */
  ghost predicate HandlesAt(nodes: seq<Node>, base: nat, ds: seq<Descriptor>) {
    base + |ds| <= |nodes| && forall j :: 0 <= j < |ds| ==> nodes[base + j].handle == ds[j].handle
  }

  lemma {:induction false} OwnDescriptorsFill(attrs: seq<Attribute>, cu: Uuid, nodes: seq<Node>, base: nat, ds: seq<Descriptor>)
    requires |nodes| <= |attrs| && DescriptorTargetsOwn(attrs, cu, ds, base) && HandlesAt(nodes, base, ds)
    ensures AssignDescriptors(Filled(attrs, nodes, base), cu, ds) == Filled(attrs, nodes, base + |ds|)
  {
    forall j | 0 <= j < |ds|
      ensures FillsAt(attrs, cu, nodes, base, ds, j)
    {
      DescriptorFillsNext(attrs, cu, nodes, base + j, ds[j]);
    }
    DescriptorsFill(attrs, cu, nodes, base, ds, |ds|);
    assert ds[..|ds|] == ds;
  }

  lemma {:induction false} NodeHandles(report: seq<Characteristic>, k: nat)
    requires k < |report|
    ensures Offset(report, k) + 1 + |report[k].descriptors| == Offset(report, k + 1) <= |Preorder(report)|
    ensures Preorder(report)[Offset(report, k)].handle == report[k].handle
    ensures HandlesAt(Preorder(report), Offset(report, k) + 1, report[k].descriptors)
  {
    PreorderAt(report, k);
    PreorderNode(report, k, 0);
    forall j | 0 <= j < |report[k].descriptors|
      ensures Preorder(report)[Offset(report, k) + 1 + j].handle == report[k].descriptors[j].handle
    {
      PreorderNode(report, k, j + 1);
    }
  }

  lemma {:induction false} CharacteristicFillsNext(attrs: seq<Attribute>, nodes: seq<Node>, o: nat, c: Characteristic)
    requires CharacteristicTarget(attrs, c.uuid) == o < |nodes| <= |attrs| && nodes[o].handle == c.handle
    ensures AssignCharacteristic(Filled(attrs, nodes, o), c)
            == AssignDescriptors(Filled(attrs, nodes, o + 1), c.uuid, c.descriptors)
  {
    FilledTargets(attrs, nodes, o, c.uuid, 0);
    FillNext(attrs, nodes, o);
  }

  lemma {:induction false} CharacteristicFillsFrom(attrs: seq<Attribute>, nodes: seq<Node>, o: nat, c: Characteristic)
    requires o < |nodes| <= |attrs|
    requires CharacteristicTarget(attrs, c.uuid) == o && DescriptorTargetsOwn(attrs, c.uuid, c.descriptors, o + 1)
    requires nodes[o].handle == c.handle && HandlesAt(nodes, o + 1, c.descriptors)
    ensures AssignCharacteristic(Filled(attrs, nodes, o), c) == Filled(attrs, nodes, o + 1 + |c.descriptors|)
  {
    CharacteristicFillsNext(attrs, nodes, o, c);
    OwnDescriptorsFill(attrs, c.uuid, nodes, o + 1, c.descriptors);
  }

  lemma {:induction false} CharacteristicFills(attrs: seq<Attribute>, report: seq<Characteristic>, k: nat)
    requires k < |report| && |Preorder(report)| <= |attrs| && TargetsOwn(attrs, report, k)
    ensures Offset(report, k) <= Offset(report, k + 1) <= |Preorder(report)|
    ensures AssignCharacteristic(Filled(attrs, Preorder(report), Offset(report, k)), report[k])
            == Filled(attrs, Preorder(report), Offset(report, k + 1))
  {
    NodeHandles(report, k);
    CharacteristicFillsFrom(attrs, Preorder(report), Offset(report, k), report[k]);
  }

  /** When every lookup finds its own node, the assignments fill the list in preorder. */
  lemma {:induction false} AssignAllFills(attrs: seq<Attribute>, report: seq<Characteristic>, k: nat)
    requires k <= |report| && |Preorder(report)| <= |attrs|
    requires forall i :: 0 <= i < |report| ==> TargetsOwn(attrs, report, i)
    ensures Offset(report, k) <= |Preorder(report)|
    ensures AssignAll(attrs, report[..k]) == Filled(attrs, Preorder(report), Offset(report, k))
  {
    if k == 0 {
      assert Filled(attrs, Preorder(report), 0) == attrs;
    } else {
      AssignAllFills(attrs, report, k - 1);
      CharacteristicFills(attrs, report, k - 1);
      assert report[..k][..k - 1] == report[..k - 1];
    }
  }

  lemma {:induction false} ShapeGivesOffsets(report: seq<Characteristic>, cs: seq<Characteristic>, k: nat)
    requires SameShape(report, cs) && k <= |cs|
    ensures Offset(report, k) == Offset(cs, k)
  {
    if k > 0 {
      ShapeGivesOffsets(report, cs, k - 1);
      PreorderAt(report, k - 1);
      PreorderAt(cs, k - 1);
    }
  }

  lemma {:induction false} ShapeKeepsTargets(attrs: seq<Attribute>, report: seq<Characteristic>, cs: seq<Characteristic>, k: nat)
    requires SameShape(report, cs) && k < |cs|
    ensures TargetsOwn(attrs, report, k) <==> TargetsOwn(attrs, cs, k)
  {
    ShapeGivesOffsets(report, cs, k);
    var rd, d := report[k].descriptors, cs[k].descriptors;
    assert forall j :: 0 <= j < |d| ==> rd[j].uuid == d[j].uuid;
  }

  /**
    When the part of the list that the stack knows is unambiguous, every entry of it receives the stack
    handle of its own node, and the rest of the list stays as it is.
   */
  lemma {:induction false} UnambiguousIsExact(attrs: seq<Attribute>, cs: seq<Characteristic>, report: seq<Characteristic>)
    requires Begins(attrs, cs) && Unambiguous(attrs, cs) && SameShape(report, cs)
    ensures Exact(AssignAll(attrs, report), report)
    ensures SameSkeleton(AssignAll(attrs, report), attrs)
    ensures AssignAll(attrs, report)[|Preorder(report)|..] == attrs[|Preorder(report)|..]
  {
    ShapeGivesOffsets(report, cs, |cs|);
    assert report[..|cs|] == report && cs[..|cs|] == cs;
    forall k | 0 <= k < |report|
      ensures TargetsOwn(attrs, report, k)
    {
      UnambiguousTargetsOwn(attrs, cs, k);
      ShapeKeepsTargets(attrs, report, cs, k);
    }
    AssignAllFills(attrs, report, |cs|);
  }

  /**
    Handle translation is correct: with distinct characteristic UUIDs in the service, distinct
    descriptor UUIDs in each characteristic and no wrap of the counter, every entry of a node that was
    handed to the stack receives the stack handle of its own node, and nothing else in the list changes.
   */
  lemma {:induction false} TranslationIsExact(attrs: seq<Attribute>, cs: seq<Characteristic>, report: seq<Characteristic>)
    requires Begins(attrs, cs) && Increasing(attrs) && DistinctUuids(cs) && SameShape(report, cs)
    ensures Exact(AssignAll(attrs, report), report)
    ensures SameSkeleton(AssignAll(attrs, report), attrs)
    ensures AssignAll(attrs, report)[|Preorder(report)|..] == attrs[|Preorder(report)|..]
  {
    RisingUnambiguousIffDistinct(attrs, cs);
    UnambiguousIsExact(attrs, cs, report);
  }

  // ------------------------------------------------------------------------------------------
  // ... and when it is not
  // ------------------------------------------------------------------------------------------

  /** Some node of the report carries the handle, and its lookup finds entry x. */
  ghost predicate Delivers(attrs: seq<Attribute>, report: seq<Characteristic>, x: nat, handle: nat) {
    exists k, j {:trigger NodeTarget(attrs, report, k, j)} ::
      0 <= k < |report| && 0 <= j <= |report[k].descriptors|
      && NodeTarget(attrs, report, k, j) == x && CharacteristicNodes(report[k])[j].handle == handle
  }

  function NodeTarget(attrs: seq<Attribute>, report: seq<Characteristic>, k: nat, j: nat): nat
    requires k < |report| && j <= |report[k].descriptors|
  {
    if j == 0 then CharacteristicTarget(attrs, report[k].uuid)
    else DescriptorTarget(attrs, report[k].uuid, report[k].descriptors[j - 1].uuid)
  }

  /** Every stack handle in the list was there before or was delivered by a node of the report. */
  ghost predicate OnlyDelivered(attrs: seq<Attribute>, now: seq<Attribute>, report: seq<Characteristic>) {
    && SameSkeleton(now, attrs)
    && (forall x :: 0 <= x < |now| ==>
                      now[x].actualHandle == attrs[x].actualHandle || Delivers(attrs, report, x, now[x].actualHandle))
  }

  lemma {:induction false} DeliverOne(attrs: seq<Attribute>, now: seq<Attribute>, report: seq<Characteristic>, k: nat, j: nat)
    requires OnlyDelivered(attrs, now, report)
    requires k < |report| && j <= |report[k].descriptors|
    ensures OnlyDelivered(attrs, SetActual(now, NodeTarget(attrs, report, k, j), CharacteristicNodes(report[k])[j].handle), report)
  {
    var t, h := NodeTarget(attrs, report, k, j), CharacteristicNodes(report[k])[j].handle;
    if t < |now| {
      assert Delivers(attrs, report, t, h);
    }
  }

  lemma {:induction false} DeliverDescriptor(attrs: seq<Attribute>, now: seq<Attribute>,
                                             report: seq<Characteristic>, k: nat, j: nat)
    requires OnlyDelivered(attrs, now, report)
    requires k < |report| && j < |report[k].descriptors|
    ensures OnlyDelivered(attrs, AssignDescriptor(now, report[k].uuid, report[k].descriptors[j]), report)
  {
    TargetsIgnoreActualHandles(now, attrs, report[k].uuid, report[k].descriptors[j].uuid);
    DeliverOne(attrs, now, report, k, j + 1);
  }

  lemma {:induction false} DeliverDescriptors(attrs: seq<Attribute>, now: seq<Attribute>,
                                              report: seq<Characteristic>, k: nat, n: nat)
    requires OnlyDelivered(attrs, now, report)
    requires k < |report| && n <= |report[k].descriptors|
    ensures OnlyDelivered(attrs, AssignDescriptors(now, report[k].uuid, report[k].descriptors[..n]), report)
  {
    if n > 0 {
      var ds, cu := report[k].descriptors, report[k].uuid;
      DeliverDescriptors(attrs, now, report, k, n - 1);
      DeliverDescriptor(attrs, AssignDescriptors(now, cu, ds[..n - 1]), report, k, n - 1);
      assert ds[..n][..n - 1] == ds[..n - 1] && ds[..n][n - 1] == ds[n - 1];
    }
  }

  lemma {:induction false} DeliverCharacteristic(attrs: seq<Attribute>, now: seq<Attribute>, report: seq<Characteristic>, k: nat)
    requires OnlyDelivered(attrs, now, report) && k < |report|
    ensures OnlyDelivered(attrs, AssignCharacteristic(now, report[k]), report)
  {
    var c := report[k];
    TargetsIgnoreActualHandles(now, attrs, c.uuid, 0);
    DeliverOne(attrs, now, report, k, 0);
    var t := CharacteristicTarget(now, c.uuid);
    DeliverDescriptors(attrs, SetActual(now, t, c.handle), report, k, |c.descriptors|);
    assert c.descriptors[..|c.descriptors|] == c.descriptors;
  }

  lemma {:induction false} DeliverAll(attrs: seq<Attribute>, report: seq<Characteristic>, n: nat)
    requires n <= |report|
    ensures OnlyDelivered(attrs, AssignAll(attrs, report[..n]), report)
  {
    if n > 0 {
      DeliverAll(attrs, report, n - 1);
      DeliverCharacteristic(attrs, AssignAll(attrs, report[..n - 1]), report, n - 1);
      assert report[..n][..n - 1] == report[..n - 1] && report[..n][n - 1] == report[n - 1];
    }
  }

  function RenumberDescriptors(ds: seq<Descriptor>, base: nat): (r: seq<Descriptor>)
    ensures |r| == |ds|
    ensures forall j :: 0 <= j < |ds| ==> r[j] == Descriptor(ds[j].uuid, base + j)
  {
    seq(|ds|, j requires 0 <= j < |ds| => Descriptor(ds[j].uuid, base + j))
  }

  /** The tree as a stack would report it that numbers the nodes 1, 2, 3, ... in preorder. */
  function Numbered(cs: seq<Characteristic>): (r: seq<Characteristic>)
    ensures SameShape(r, cs)
  {
    if cs == [] then []
    else
      var n := |cs| - 1;
      var base := |Preorder(cs[..n])| + 1;
      Numbered(cs[..n]) + [Characteristic(cs[n].uuid, base, RenumberDescriptors(cs[n].descriptors, base + 1))]
  }

  lemma {:induction false} NumberedHandles(cs: seq<Characteristic>)
    ensures |Preorder(Numbered(cs))| == |Preorder(cs)|
    ensures forall p :: 0 <= p < |Preorder(cs)| ==> Preorder(Numbered(cs))[p].handle == p + 1
  {
    if cs != [] {
      var n := |cs| - 1;
      var r, base := Numbered(cs), |Preorder(cs[..n])|;
      NumberedHandles(cs[..n]);
      assert r[..n] == Numbered(cs[..n]);
      forall p | 0 <= p < |Preorder(cs)|
        ensures Preorder(r)[p].handle == p + 1
      {
        if p >= base {
          assert Preorder(r)[p] == CharacteristicNodes(r[n])[p - base];
        }
      }
    }
  }

  lemma {:induction false} NumberedDelivers(attrs: seq<Attribute>, cs: seq<Characteristic>, x: nat)
    requires Begins(attrs, cs) && x < |Preorder(cs)| && attrs[x].actualHandle == 0
    requires Exact(AssignAll(attrs, Numbered(cs)), Numbered(cs))
    ensures Delivers(attrs, Numbered(cs), x, x + 1)
  {
    var report := Numbered(cs);
    NumberedHandles(cs);
    DeliverAll(attrs, report, |report|);
    assert report[..|report|] == report;
    assert AssignAll(attrs, report)[x].actualHandle == Preorder(report)[x].handle;
  }

  /** A handle of the numbered report identifies its node. */
  lemma {:induction false} NumberIdentifies(cs: seq<Characteristic>, k: nat, j: nat, k': nat, j': nat)
    requires k < |cs| && j <= |cs[k].descriptors|
    requires k' < |cs| && j' <= |cs[k'].descriptors| == |Numbered(cs)[k'].descriptors|
    requires CharacteristicNodes(Numbered(cs)[k'])[j'].handle == Offset(cs, k) + j + 1
    ensures k' == k && j' == j
  {
    NumberedHandles(cs);
    PreorderNode(Numbered(cs), k', j');
    ShapeGivesOffsets(Numbered(cs), cs, k');
    SamePosition(cs, k, j, k', j');
  }

  /** If the numbered report is translated exactly, every lookup finds its own node. */
  lemma {:induction false} ExactMeansOwnTargets(attrs: seq<Attribute>, cs: seq<Characteristic>, k: nat, j: nat)
    requires Begins(attrs, cs) && forall p :: 0 <= p < |attrs| ==> attrs[p].actualHandle == 0
    requires Exact(AssignAll(attrs, Numbered(cs)), Numbered(cs))
    requires k < |cs| && j <= |cs[k].descriptors|
    ensures NodeTarget(attrs, cs, k, j) == Offset(cs, k) + j
  {
    var report, x := Numbered(cs), Offset(cs, k) + j;
    PreorderNode(cs, k, j);
    NumberedDelivers(attrs, cs, x);
    var k', j' :| 0 <= k' < |report| && 0 <= j' <= |report[k'].descriptors|
                  && NodeTarget(attrs, report, k', j') == x && CharacteristicNodes(report[k'])[j'].handle == x + 1;
    NumberIdentifies(cs, k, j, k', j');
    ShapeKeepsNodeTarget(attrs, report, cs, k, j);
  }

  lemma {:induction false} ShapeKeepsNodeTarget(attrs: seq<Attribute>, report: seq<Characteristic>, cs: seq<Characteristic>,
                                                k: nat, j: nat)
    requires SameShape(report, cs) && k < |cs| && j <= |cs[k].descriptors| == |report[k].descriptors|
    ensures NodeTarget(attrs, report, k, j) == NodeTarget(attrs, cs, k, j)
  {
  }

  lemma {:induction false} SamePosition(cs: seq<Characteristic>, k: nat, j: nat, k': nat, j': nat)
    requires k < |cs| && j <= |cs[k].descriptors|
    requires k' < |cs| && j' <= |cs[k'].descriptors|
    requires Offset(cs, k) + j == Offset(cs, k') + j'
    ensures k == k' && j == j'
  {
    PreorderAt(cs, k);
    PreorderAt(cs, k');
    if k < k' {
      if k + 1 < k' { OffsetsIncrease(cs, k + 1, k'); }
    } else if k' < k {
      if k' + 1 < k { OffsetsIncrease(cs, k' + 1, k); }
    }
  }

  lemma {:induction false} OwnTargetsMeanDistinct(attrs: seq<Attribute>, cs: seq<Characteristic>)
    requires Begins(attrs, cs)
    requires forall k :: 0 <= k < |cs| ==> NodeTarget(attrs, cs, k, 0) == Offset(cs, k)
    ensures DistinctCharacteristics(cs)
  {
    forall i, k | 0 <= i < k < |cs|
      ensures cs[i].uuid != cs[k].uuid
    {
      OffsetsIncrease(cs, i, k);
      PreorderNode(cs, i, 0);
      assert NodeTarget(attrs, cs, k, 0) == Offset(cs, k);
      assert !IsCharacteristic(cs[k].uuid)(attrs[Offset(cs, i)]);
    }
  }

  lemma {:induction false} OwnTargetIsFirstAbove(attrs: seq<Attribute>, cs: seq<Characteristic>, k: nat, j: nat)
    requires Begins(attrs, cs) && k < |cs| && j < |cs[k].descriptors|
    requires NodeTarget(attrs, cs, k, 0) == Offset(cs, k)
    requires NodeTarget(attrs, cs, k, j + 1) == Offset(cs, k) + 1 + j
    ensures FirstAbove(attrs, Offset(cs, k), Offset(cs, k) + 1 + j)
  {
    var o, du := Offset(cs, k), cs[k].descriptors[j].uuid;
    PreorderNode(cs, k, 0);
    PreorderNode(cs, k, j + 1);
    var pred := IsAfterWithUuid(attrs[o].handle, du);
    assert FindFirst(attrs, pred) == o + 1 + j;
    assert pred(attrs[o + 1 + j]);
    assert forall q :: 0 <= q < o + 1 + j ==> !pred(attrs[q]);
  }

  /** One exact translation of a report whose handles are all different shows that the list is unambiguous. */
  lemma {:induction false} ExactMeansUnambiguous(attrs: seq<Attribute>, cs: seq<Characteristic>)
    requires Begins(attrs, cs) && forall p :: 0 <= p < |attrs| ==> attrs[p].actualHandle == 0
    requires Exact(AssignAll(attrs, Numbered(cs)), Numbered(cs))
    ensures Unambiguous(attrs, cs)
  {
    forall k | 0 <= k < |cs|
      ensures NodeTarget(attrs, cs, k, 0) == Offset(cs, k)
    {
      ExactMeansOwnTargets(attrs, cs, k, 0);
    }
    OwnTargetsMeanDistinct(attrs, cs);
    forall k, j | 0 <= k < |cs| && 0 <= j < |cs[k].descriptors|
      ensures DescriptorFirst(attrs, cs, k, j)
    {
      ExactMeansDescriptorFirst(attrs, cs, k, j);
    }
  }

  lemma {:induction false} ExactMeansDescriptorFirst(attrs: seq<Attribute>, cs: seq<Characteristic>, k: nat, j: nat)
    requires Begins(attrs, cs) && forall p :: 0 <= p < |attrs| ==> attrs[p].actualHandle == 0
    requires Exact(AssignAll(attrs, Numbered(cs)), Numbered(cs))
    requires k < |cs| && j < |cs[k].descriptors|
    ensures DescriptorFirst(attrs, cs, k, j)
  {
    ExactMeansOwnTargets(attrs, cs, k, 0);
    ExactMeansOwnTargets(attrs, cs, k, j + 1);
    OwnTargetIsFirstAbove(attrs, cs, k, j);
  }

  /**
    Exactly when the translation can be trusted, whatever the handle counter did and whatever was added
    since the service was handed over: in a fresh list that begins with the preorder of the tree handed
    to the stack, every report of that tree is translated exactly if and only if the characteristic UUIDs are
    distinct and every descriptor is the first entry with its UUID whose handle is above that of its
    characteristic.
   */
  lemma {:induction false} TranslationExactIff(attrs: seq<Attribute>, cs: seq<Characteristic>)
    requires Begins(attrs, cs) && forall p :: 0 <= p < |attrs| ==> attrs[p].actualHandle == 0
    ensures (forall report {:induction false} :: SameShape(report, cs) ==> Exact(AssignAll(attrs, report), report))
            <==> Unambiguous(attrs, cs)
  {
    if Unambiguous(attrs, cs) {
      forall report | SameShape(report, cs)
        ensures Exact(AssignAll(attrs, report), report)
      {
        UnambiguousIsExact(attrs, cs, report);
      }
    } else if Exact(AssignAll(attrs, Numbered(cs)), Numbered(cs)) {
      ExactMeansUnambiguous(attrs, cs);
    }
  }

  /** When the handles did not wrap, that comes down to the UUIDs being distinct. */
  lemma {:induction false} TranslationExactIffDistinct(attrs: seq<Attribute>, cs: seq<Characteristic>)
    requires Begins(attrs, cs) && Increasing(attrs)
    requires forall p :: 0 <= p < |attrs| ==> attrs[p].actualHandle == 0
    ensures (forall report {:induction false} :: SameShape(report, cs) ==> Exact(AssignAll(attrs, report), report))
            <==> DistinctUuids(cs)
  {
    TranslationExactIff(attrs, cs);
    RisingUnambiguousIffDistinct(attrs, cs);
  }

  lemma {:induction false} AmbiguousFails(attrs: seq<Attribute>, cs: seq<Characteristic>)
    requires Begins(attrs, cs) && forall p :: 0 <= p < |attrs| ==> attrs[p].actualHandle == 0
    requires !Unambiguous(attrs, cs)
    ensures !Exact(AssignAll(attrs, Numbered(cs)), Numbered(cs))
  {
    if Exact(AssignAll(attrs, Numbered(cs)), Numbered(cs)) {
      ExactMeansUnambiguous(attrs, cs);
    }
  }

  /** A fresh entry. */
  function Fresh(handle: nat, uuid: Uuid, kind: Kind): Attribute {
    Attribute(handle, 0, uuid, kind)
  }

  /**
    A wrap between two characteristics is enough: with handles 65533, 65534, 1 and 2 the descriptor of
    the second is mistaken for that of the first, although the UUIDs are distinct and every descriptor
    lies above its own characteristic.
   */
  lemma {:induction false} WrapBreaksTranslation() returns (attrs: seq<Attribute>, cs: seq<Characteristic>)
    ensures cs == [Characteristic(1, 0, [Descriptor(9, 65534)]), Characteristic(2, 0, [Descriptor(9, 2)])]
    ensures attrs == [Fresh(65533, 1, CharacteristicAttribute), Fresh(65534, 9, DescriptorAttribute),
                      Fresh(1, 2, CharacteristicAttribute), Fresh(2, 9, DescriptorAttribute)]
    ensures Flattens(attrs, cs) && DistinctUuids(cs)
    ensures !Exact(AssignAll(attrs, Numbered(cs)), Numbered(cs))
  {
    cs := [Characteristic(1, 0, [Descriptor(9, 65534)]), Characteristic(2, 0, [Descriptor(9, 2)])];
    attrs := [Fresh(65533, 1, CharacteristicAttribute), Fresh(65534, 9, DescriptorAttribute),
              Fresh(1, 2, CharacteristicAttribute), Fresh(2, 9, DescriptorAttribute)];
    TwoNodesEach(cs[0], cs[1]);
    assert !DescriptorFirst(attrs, cs, 1, 0) by {
      assert attrs[1].uuid == attrs[3].uuid && attrs[1].handle > attrs[2].handle;
    }
    AmbiguousFails(attrs, cs);
  }

  /** Two characteristics with one UUID: the second handle overwrites the first. */
  lemma {:induction false} DuplicateBreaksTranslation() returns (attrs: seq<Attribute>, cs: seq<Characteristic>)
    ensures cs == [Characteristic(1, 0, []), Characteristic(1, 0, [])]
    ensures Flattens(attrs, cs) && Increasing(attrs)
    ensures !Exact(AssignAll(attrs, Numbered(cs)), Numbered(cs))
  {
    cs := [Characteristic(1, 0, []), Characteristic(1, 0, [])];
    attrs := [Fresh(1, 1, CharacteristicAttribute), Fresh(2, 1, CharacteristicAttribute)];
    assert [cs[0]][..0] == [] && cs[..1] == [cs[0]];
    assert Preorder([cs[0]]) == [Node(CharacteristicAttribute, 1, 0)];
    assert Preorder(cs) == [Node(CharacteristicAttribute, 1, 0), Node(CharacteristicAttribute, 1, 0)];
    assert cs[0].uuid == cs[1].uuid;
    AmbiguousFails(attrs, cs);
  }

  lemma {:induction false} TwoNodesEach(a: Characteristic, b: Characteristic)
    requires |a.descriptors| == |b.descriptors| == 1
    ensures Preorder([a, b]) == CharacteristicNodes(a) + CharacteristicNodes(b)
    ensures Offset([a, b], 0) == 0 && Offset([a, b], 1) == 2
  {
    assert [a, b][..1] == [a] && [a][..0] == [] && [a, b][..0] == [];
    assert Preorder([a]) == CharacteristicNodes(a);
  }
}
