/**
  The GATT object tree: services hold characteristics, characteristics hold descriptors, and every
  descriptor and characteristic points back to its holder.

  Elements live inside the vector of their holder, so a vector that grows puts its elements into new
  cells.  Descriptors are moved into the new cells; characteristics are copied, because their move
  constructor may throw.  Whether a vector has to grow is left open.
 */
module GattTree {
  import opened Basics

  /** A heap buffer; it is filled once and never written again. */
  class Buffer {
    const bytes: seq<Byte>

    constructor (bytes: seq<Byte>)
      ensures this.bytes == bytes
    {
      this.bytes := bytes;
    }
  }

  function Contents(b: Buffer?): seq<Byte> {
    if b == null then [] else b.bytes
  }

  datatype DescriptorView = DescriptorView(uuid: nat, handle: nat, permissions: int, bytes: seq<Byte>)

  class GattDescriptor {
    const uuid: nat
    const handle: nat
    const permissions: int
    var characteristic: GattCharacteristic?
    var value: Buffer?

    ghost function View(): DescriptorView
      reads this
    {
      DescriptorView(uuid, handle, permissions, Contents(value))
    }

    constructor (uuid: nat, handle: nat, permissions: int)
      ensures View() == DescriptorView(uuid, handle, permissions, []) && characteristic == null && value == null
    {
      this.uuid, this.handle, this.permissions := uuid, handle, permissions;
      characteristic, value := null, null;
    }

    constructor Copy(src: GattDescriptor)
      ensures View() == src.View() && characteristic == src.characteristic
      ensures value != null ==> fresh(value)
    {
      uuid, handle, permissions := src.uuid, src.handle, src.permissions;
      characteristic := src.characteristic;
      if src.value != null && |src.value.bytes| != 0 {
        value := new Buffer(src.value.bytes);
      } else {
        value := null;
      }
    }

    /** Takes the buffer over. */
    constructor Move(src: GattDescriptor)
      modifies src
      ensures View() == old(src.View()) && characteristic == old(src.characteristic) && value == old(src.value)
      ensures src.value == null && src.characteristic == old(src.characteristic)
    {
      uuid, handle, permissions := src.uuid, src.handle, src.permissions;
      characteristic, value := src.characteristic, src.value;
      new;
      src.value := null;
    }

    method SetValue(values: seq<Byte>)
      modifies this`value
      ensures View() == if values == [] then old(View()) else old(View()).(bytes := values)
      ensures value != old(value) ==> fresh(value)
    {
      if |values| == 0 {
        return;
      }
      value := new Buffer(values);
    }
  }

  ghost predicate DistinctCells<T>(cells: seq<T>) {
    forall i, j :: 0 <= i < j < |cells| ==> cells[i] != cells[j]
  }

  /** Moves the descriptors of a growing vector into new cells. */
  method Relocate(ds: seq<GattDescriptor>) returns (ns: seq<GattDescriptor>)
    requires DistinctCells(ds)
    modifies ds
    ensures |ns| == |ds| && DistinctCells(ns)
    ensures forall i :: 0 <= i < |ns| ==>
                          fresh(ns[i]) && ns[i].View() == old(ds[i].View()) && ns[i].characteristic == old(ds[i].characteristic)
                          && ns[i].value == old(ds[i].value)
  {
    ns := [];
    for k := 0 to |ds|
      invariant |ns| == k && DistinctCells(ns)
      invariant forall i :: 0 <= i < k ==>
                              fresh(ns[i]) && ns[i].View() == old(ds[i].View()) && ns[i].characteristic == old(ds[i].characteristic)
                              && ns[i].value == old(ds[i].value)
      invariant forall i :: k <= i < |ds| ==> ds[i].View() == old(ds[i].View())
                                              && ds[i].characteristic == old(ds[i].characteristic) && ds[i].value == old(ds[i].value)
    {
      var cell := new GattDescriptor.Move(ds[k]);
      ns := ns + [cell];
    }
  }

  /** Moves descriptors into new cells that belong to another characteristic. */
  method RelocateFor(ds: seq<GattDescriptor>, owner: GattCharacteristic) returns (ns: seq<GattDescriptor>)
    requires DistinctCells(ds)
    modifies ds
    ensures |ns| == |ds| && DistinctCells(ns)
    ensures forall i :: 0 <= i < |ns| ==>
                          fresh(ns[i]) && ns[i].View() == old(ds[i].View()) && ns[i].characteristic == owner
                          && ns[i].value == old(ds[i].value)
  {
    ns := Relocate(ds);
    for k := 0 to |ns|
      modifies ns
      invariant forall i :: 0 <= i < |ns| ==> ns[i].View() == old(ds[i].View()) && ns[i].value == old(ds[i].value)
      invariant forall i :: 0 <= i < k ==> ns[i].characteristic == owner
    {
      ns[k].characteristic := owner;
    }
  }

  /** Appends a cell to the vector of descriptors, which may have to grow. */
  method Append(ds: seq<GattDescriptor>, cell: GattDescriptor) returns (ns: seq<GattDescriptor>)
    requires DistinctCells(ds) && cell !in ds
    modifies ds
    ensures |ns| == |ds| + 1 && DistinctCells(ns) && ns[|ds|] == cell
    ensures forall i :: 0 <= i < |ds| ==>
                          (ns[i] == ds[i] || fresh(ns[i])) && ns[i].View() == old(ds[i].View())
                          && ns[i].characteristic == old(ds[i].characteristic) && ns[i].value == old(ds[i].value)
  {
    var grows: bool := *;
    if grows {
      ns := Relocate(ds);
      ns := ns + [cell];
    } else {
      ns := ds + [cell];
    }
  }

  ghost function Views(ds: seq<GattDescriptor>): (vs: seq<DescriptorView>)
    reads ds
    ensures |vs| == |ds| && forall i :: 0 <= i < |ds| ==> vs[i] == ds[i].View()
  {
    seq(|ds|, i requires 0 <= i < |ds| reads ds => ds[i].View())
  }

  datatype CharacteristicView =
    CharacteristicView(uuid: nat, handle: nat, permissions: int, properties: int, writeType: int, bytes: seq<Byte>,
                       descriptors: seq<DescriptorView>)

  class GattCharacteristic {
    const uuid: nat
    const handle: nat
    const permissions: int
    const properties: int
    var writeType: int
    var service: GattService?
    var value: Buffer?
    var descriptors: seq<GattDescriptor>

    /** Every stored descriptor points to this characteristic. */
    ghost predicate Valid()
      reads this, descriptors
    {
      DistinctCells(descriptors) && forall i :: 0 <= i < |descriptors| ==> descriptors[i].characteristic == this
    }

    ghost function View(): CharacteristicView
      reads this, descriptors
    {
      CharacteristicView(uuid, handle, permissions, properties, writeType, Contents(value), Views(descriptors))
    }

    constructor (uuid: nat, handle: nat, permissions: int, properties: int, writeType: int)
      ensures Valid() && service == null && value == null && descriptors == []
      ensures View() == CharacteristicView(uuid, handle, permissions, properties, writeType, [], [])
    {
      this.uuid, this.handle, this.permissions, this.properties := uuid, handle, permissions, properties;
      this.writeType := writeType;
      service, value, descriptors := null, null, [];
    }

    /** A copy of the descriptor goes to the end of the vector. */
    method AddDescriptor(descriptor: GattDescriptor)
      requires Valid()
      modifies this`descriptors, descriptors
      ensures Valid() && |descriptors| == |old(descriptors)| + 1
      ensures forall i :: 0 <= i < |old(descriptors)| ==>
                            (descriptors[i] == old(descriptors)[i] || fresh(descriptors[i]))
                            && descriptors[i].View() == old(descriptors[i].View()) && descriptors[i].value == old(descriptors[i].value)
      ensures var last := descriptors[|old(descriptors)|];
              fresh(last) && last.View() == old(descriptor.View()) && (last.value != null ==> fresh(last.value))
    {
      var cell := new GattDescriptor.Copy(descriptor);
      cell.characteristic := this;
      descriptors := Append(descriptors, cell);
    }

    method SetValue(values: seq<Byte>)
      modifies this`value
      ensures Contents(value) == if values == [] then old(Contents(value)) else values
      ensures value != old(value) ==> fresh(value)
    {
      if |values| == 0 {
        return;
      }
      value := new Buffer(values);
    }

    /** Copies value and descriptors into buffers of its own; the service pointer is taken over. */
    constructor Copy(src: GattCharacteristic)
      ensures Valid() && service == src.service && View() == src.View()
      ensures forall i :: 0 <= i < |descriptors| ==>
                            fresh(descriptors[i]) && (descriptors[i].value != null ==> fresh(descriptors[i].value))
      ensures value != null ==> fresh(value)
    {
      uuid, handle, permissions, properties := src.uuid, src.handle, src.permissions, src.properties;
      writeType, service, descriptors := src.writeType, src.service, [];
      if src.value != null && |src.value.bytes| != 0 {
        value := new Buffer(src.value.bytes);
      } else {
        value := null;
      }
      new;
      for k := 0 to |src.descriptors|
        modifies this`descriptors
        invariant Valid() && |descriptors| == k
        invariant forall i :: 0 <= i < k ==>
                                fresh(descriptors[i]) && descriptors[i].View() == src.descriptors[i].View()
                                && (descriptors[i].value != null ==> fresh(descriptors[i].value))
      {
        AddDescriptor(src.descriptors[k]);
      }
      assert Views(descriptors) == Views(src.descriptors);
    }

    /** Takes over the value, the buffers of the descriptors and the service pointer. */
    constructor Move(src: GattCharacteristic)
      requires DistinctCells(src.descriptors)
      modifies src`value, src`service, src.descriptors
      ensures Valid() && service == old(src.service) && View() == old(src.View()) && src.service == null
      ensures forall i :: 0 <= i < |descriptors| ==> fresh(descriptors[i])
      ensures forall i :: 0 <= i < |descriptors| ==> descriptors[i].value == old(src.descriptors[i].value)
      ensures value == old(src.value)
    {
      uuid, handle, permissions, properties := src.uuid, src.handle, src.permissions, src.properties;
      writeType, service, value, descriptors := src.writeType, src.service, src.value, [];
      new;
      src.value := null;
      descriptors := RelocateFor(src.descriptors, this);
      src.service := null;
      assert Views(descriptors) == old(Views(src.descriptors));
    }
  }

  /** The descriptor cells of some characteristics. */
  ghost function DescriptorCells(cs: seq<GattCharacteristic>): (cells: set<GattDescriptor>)
    reads cs
    ensures forall i, d :: 0 <= i < |cs| && d in cs[i].descriptors ==> d in cells
  {
    set i, d | 0 <= i < |cs| && d in cs[i].descriptors :: d
  }

  ghost function CharacteristicViews(cs: seq<GattCharacteristic>): (vs: seq<CharacteristicView>)
    reads cs, DescriptorCells(cs)
    ensures |vs| == |cs| && forall i :: 0 <= i < |cs| ==> vs[i] == cs[i].View()
  {
    seq(|cs|, i requires 0 <= i < |cs| reads cs, DescriptorCells(cs) => cs[i].View())
  }

  /** The cell, its descriptor cells and all their buffers are new. */
  twostate predicate AllNew(new c: GattCharacteristic)
    reads c, c.descriptors
  {
    && fresh(c) && (c.value != null ==> fresh(c.value))
    && forall i :: 0 <= i < |c.descriptors| ==>
                     fresh(c.descriptors[i]) && (c.descriptors[i].value != null ==> fresh(c.descriptors[i].value))
  }

  /** A copy: everything about it is new, the contents are the given ones. */
  twostate predicate CopyOf(new n: GattCharacteristic, view: CharacteristicView)
    reads n, n.descriptors
  {
    AllNew(n) && n.Valid() && n.View() == view
  }

  /** Copies the characteristics of a growing vector into new cells. */
  method RelocateByCopy(cs: seq<GattCharacteristic>, ghost views: seq<CharacteristicView>) returns (ns: seq<GattCharacteristic>)
    requires |views| == |cs| && forall i :: 0 <= i < |cs| ==> cs[i].View() == views[i]
    ensures |ns| == |cs| && DistinctCells(ns)
    ensures forall i :: 0 <= i < |ns| ==> CopyOf(ns[i], views[i]) && ns[i].service == cs[i].service
  {
    ns := [];
    for k := 0 to |cs|
      modifies {}
      invariant |ns| == k && DistinctCells(ns)
      invariant forall i :: 0 <= i < k ==> CopyOf(ns[i], views[i]) && ns[i].service == cs[i].service
    {
      var cell := new GattCharacteristic.Copy(cs[k]);
      assert CopyOf(cell, views[k]);
      ns := ns + [cell];
    }
  }

  /** Appends a cell to the vector of characteristics, which may have to grow. */
  method AppendByCopy(cs: seq<GattCharacteristic>, cell: GattCharacteristic, ghost views: seq<CharacteristicView>)
    returns (ns: seq<GattCharacteristic>)
    requires DistinctCells(cs) && cell !in cs && |views| == |cs|
    requires forall i :: 0 <= i < |cs| ==> cs[i].Valid() && cs[i].View() == views[i]
    ensures |ns| == |cs| + 1 && DistinctCells(ns) && ns[|cs|] == cell
    ensures forall i :: 0 <= i < |cs| ==>
                          (ns[i] == cs[i] || AllNew(ns[i])) && ns[i].Valid() && ns[i].View() == views[i]
                          && ns[i].service == cs[i].service
  {
    var grows: bool := *;
    if grows {
      ns := RelocateByCopy(cs, views);
      ns := ns + [cell];
    } else {
      ns := cs + [cell];
    }
  }

  /** Back-pointers keep the descriptors of different characteristics apart. */
  lemma {:induction false} OwnersSeparate(c: GattCharacteristic, c': GattCharacteristic, d: GattDescriptor)
    requires c.Valid() && c'.Valid() && c != c' && d in c.descriptors
    ensures d !in c'.descriptors
  {
    var i :| 0 <= i < |c.descriptors| && c.descriptors[i] == d;
    assert d.characteristic == c;
  }

  ghost predicate Separate(cs: seq<GattCharacteristic>)
    reads cs, DescriptorCells(cs)
  {
    && DistinctCells(cs) && (forall i :: 0 <= i < |cs| ==> cs[i].Valid())
    && (forall i, j, d :: 0 <= i < j < |cs| && d in cs[i].descriptors ==> d !in cs[j].descriptors)
  }

  /** Moves one characteristic into a new cell that belongs to another service. */
  method MoveOne(c: GattCharacteristic, owner: GattService) returns (cell: GattCharacteristic)
    requires c.Valid()
    modifies c`value, c`service, c.descriptors
    ensures fresh(cell) && cell.Valid() && cell.View() == old(c.View()) && cell.service == owner && cell.value == old(c.value)
    ensures forall j :: 0 <= j < |cell.descriptors| ==> fresh(cell.descriptors[j])
  {
    cell := new GattCharacteristic.Move(c);
    cell.service := owner;
  }

  ghost function TreeCells(cs: seq<GattCharacteristic>): (cells: set<object>)
    reads cs
    ensures forall i :: 0 <= i < |cs| ==> cs[i] in cells
    ensures forall i, d :: 0 <= i < |cs| && d in cs[i].descriptors ==> d in cells
  {
    var own: set<object> := set i | 0 <= i < |cs| :: cs[i];
    var held: set<object> := DescriptorCells(cs);
    own + held
  }

  ghost function Values(cs: seq<GattCharacteristic>): (bs: seq<Buffer?>)
    reads cs
    ensures |bs| == |cs| && forall i :: 0 <= i < |cs| ==> bs[i] == cs[i].value
  {
    seq(|cs|, i requires 0 <= i < |cs| reads cs => cs[i].value)
  }

  /**
    A moved characteristic: a new cell with new descriptor cells and the old contents.  It has the old
    buffer, unless it was copied again when the vector grew.
   */
  twostate predicate MovedTo(new n: GattCharacteristic, new owner: GattService, view: CharacteristicView, new value: Buffer?)
    reads n, n.descriptors
  {
    && fresh(n) && n.Valid() && n.View() == view && n.service == owner
    && (n.value == value || (n.value != null ==> fresh(n.value)))
    && forall j :: 0 <= j < |n.descriptors| ==> fresh(n.descriptors[j])
  }

  /** The characteristics have the given contents and buffers. */
  ghost predicate Hold(cs: seq<GattCharacteristic>, views: seq<CharacteristicView>, values: seq<Buffer?>)
    reads cs, DescriptorCells(cs)
  {
    |views| == |values| == |cs| && forall i :: 0 <= i < |cs| ==> cs[i].View() == views[i] && cs[i].value == values[i]
  }

  /** Moves characteristics one by one to the end of a growing vector that belongs to another service. */
  method MoveAll(cs: seq<GattCharacteristic>, owner: GattService,
                 ghost views: seq<CharacteristicView>, ghost values: seq<Buffer?>)
    returns (ns: seq<GattCharacteristic>)
    requires Separate(cs) && Hold(cs, views, values)
    modifies TreeCells(cs)
    ensures |ns| == |cs| && DistinctCells(ns)
    ensures forall i :: 0 <= i < |ns| ==> MovedTo(ns[i], owner, views[i], values[i])
  {
    if cs == [] {
      return [];
    }
    var n := |cs| - 1;
    var init, last := cs[..n], cs[n];
    LastIsSeparate(cs, n);
    var moved := MoveAll(init, owner, views[..n], values[..n]);
    assert last.Valid() && last.View() == views[n] && last.value == values[n];
    ns := MoveNext(moved, last, owner, views);
  }

  lemma {:induction false} LastIsSeparate(cs: seq<GattCharacteristic>, n: nat)
    requires Separate(cs) && n + 1 == |cs|
    ensures Separate(cs[..n]) && TreeCells(cs[..n]) <= TreeCells(cs)
    ensures cs[n] !in TreeCells(cs[..n]) && forall d :: d in cs[n].descriptors ==> d !in TreeCells(cs[..n])
  {
    assert forall i :: 0 <= i < n ==> cs[..n][i] == cs[i];
  }

  /** The cell was kept as it is, or was copied because the vector grew. */
  twostate predicate KeptOrCopied(n: GattCharacteristic, new r: GattCharacteristic)
    reads n, r, r.descriptors
  {
    (r == n && r.value == old(n.value) && r.descriptors == old(n.descriptors)) || AllNew(r)
  }

  /** The vector grows, if it has to, after the characteristic has been moved. */
  method MoveNext(cs: seq<GattCharacteristic>, c: GattCharacteristic, owner: GattService, ghost views: seq<CharacteristicView>)
    returns (ns: seq<GattCharacteristic>)
    requires c.Valid() && c !in cs && DistinctCells(cs) && |views| == |cs| + 1 && c.View() == views[|cs|]
    requires forall i :: 0 <= i < |cs| ==> cs[i].Valid() && cs[i].View() == views[i] && cs[i].service == owner
    modifies c`value, c`service, c.descriptors
    ensures |ns| == |cs| + 1 && DistinctCells(ns)
    ensures forall i :: 0 <= i < |ns| ==> ns[i].Valid() && ns[i].View() == views[i] && ns[i].service == owner
    ensures forall i :: 0 <= i < |cs| ==> KeptOrCopied(cs[i], ns[i])
    ensures MovedTo(ns[|cs|], owner, views[|cs|], old(c.value))
  {
    forall i, d | 0 <= i < |cs| && d in c.descriptors
      ensures d !in cs[i].descriptors
    {
      OwnersSeparate(c, cs[i], d);
    }
    var cell := MoveOne(c, owner);
    ns := AppendByCopy(cs, cell, views[..|cs|]);
  }

  class GattService {
    const uuid: nat
    const handle: nat
    const endHandle: nat
    const primary: bool
    var characteristics: seq<GattCharacteristic>
    var includeServices: seq<GattService>

    /** Every stored characteristic points to this service, and its descriptors to it. */
    ghost predicate Valid()
      reads this, characteristics, DescriptorCells(characteristics)
    {
      DistinctCells(characteristics)
      && forall i :: 0 <= i < |characteristics| ==> characteristics[i].service == this && characteristics[i].Valid()
    }

    constructor (uuid: nat, handle: nat, endHandle: nat, primary: bool)
      ensures Valid() && characteristics == [] && includeServices == []
      ensures this.uuid == uuid && this.handle == handle && this.endHandle == endHandle && this.primary == primary
    {
      this.uuid, this.handle, this.endHandle, this.primary := uuid, handle, endHandle, primary;
      characteristics, includeServices := [], [];
    }

    /** Included services are references. */
    method AddService(service: GattService)
      modifies this`includeServices
      ensures includeServices == old(includeServices) + [service]
    {
      includeServices := includeServices + [service];
    }

    /** A copy of the characteristic goes to the end of the vector. */
    method AddCharacteristic(characteristic: GattCharacteristic)
      requires Valid()
      modifies this`characteristics
      ensures Valid() && |characteristics| == |old(characteristics)| + 1
      ensures forall i :: 0 <= i < |old(characteristics)| ==>
                            (characteristics[i] == old(characteristics)[i] || AllNew(characteristics[i]))
                            && characteristics[i].View() == old(characteristics[i].View())
      ensures var last := characteristics[|old(characteristics)|];
              AllNew(last) && last.View() == old(characteristic.View())
    {
      ghost var views := CharacteristicViews(characteristics);
      var cell := CopyInto(characteristic);
      characteristics := AppendByCopy(characteristics, cell, views);
    }

    /** The first n of the given contents are stored. */
    ghost predicate Shows(views: seq<CharacteristicView>, n: nat)
      reads this, characteristics, DescriptorCells(characteristics)
    {
      |characteristics| == n <= |views| && forall i :: 0 <= i < n ==> characteristics[i].View() == views[i]
    }

    method AddNext(characteristic: GattCharacteristic, ghost views: seq<CharacteristicView>)
      requires Valid() && |characteristics| < |views| && Shows(views, |characteristics|)
      requires characteristic.View() == views[|characteristics|]
      modifies this`characteristics
      ensures Valid() && Shows(views, |old(characteristics)| + 1)
      ensures forall i :: 0 <= i < |characteristics| ==>
                            (i < |old(characteristics)| && characteristics[i] == old(characteristics)[i]) || AllNew(characteristics[i])
    {
      AddCharacteristic(characteristic);
    }

    /** A copy that belongs to this service. */
    method CopyInto(characteristic: GattCharacteristic) returns (cell: GattCharacteristic)
      ensures AllNew(cell) && cell.Valid() && cell.View() == characteristic.View() && cell.service == this
    {
      cell := new GattCharacteristic.Copy(characteristic);
      cell.service := this;
    }

    /** A descriptor added to the last characteristic stays apart from the others. */
    method AddDescriptorToLast(descriptor: GattDescriptor)
      requires Valid() && characteristics != []
      modifies characteristics[|characteristics| - 1], characteristics[|characteristics| - 1].descriptors
      ensures Valid() && characteristics == old(characteristics)
      ensures var last := characteristics[|characteristics| - 1];
              |last.descriptors| == |old(last.descriptors)| + 1
              && last.descriptors[|last.descriptors| - 1].View() == old(descriptor.View())
              && forall j :: 0 <= j < |old(last.descriptors)| ==>
                               last.descriptors[j].View() == old(last.descriptors[j].View())
                               && last.descriptors[j].value == old(last.descriptors[j].value)
      ensures forall i :: 0 <= i < |characteristics| - 1 ==> characteristics[i].View() == old(characteristics[i].View())
      ensures var last := characteristics[|characteristics| - 1];
              last.value == old(last.value) && last.writeType == old(last.writeType)
    {
      var last := characteristics[|characteristics| - 1];
      forall i, d | 0 <= i < |characteristics| - 1 && d in last.descriptors
        ensures d !in characteristics[i].descriptors
      {
        OwnersSeparate(last, characteristics[i], d);
      }
      last.AddDescriptor(descriptor);
    }

    /** Characteristics, descriptors and buffers of the copy are all its own. */
    constructor Copy(src: GattService)
      ensures Valid() && uuid == src.uuid && handle == src.handle && endHandle == src.endHandle && primary == src.primary
      ensures |characteristics| == |src.characteristics| && includeServices == src.includeServices
      ensures forall i :: 0 <= i < |characteristics| ==>
                            AllNew(characteristics[i]) && characteristics[i].View() == src.characteristics[i].View()
    {
      uuid, handle, endHandle, primary := src.uuid, src.handle, src.endHandle, src.primary;
      characteristics, includeServices := [], src.includeServices;
      new;
      ghost var views := CharacteristicViews(src.characteristics);
      for k := 0 to |src.characteristics|
        modifies this`characteristics
        invariant Valid() && Shows(views, k)
        invariant forall i :: 0 <= i < k ==> AllNew(characteristics[i])
      {
        AddNext(src.characteristics[k], views);
      }
    }

    lemma {:induction false} IsSeparate()
      requires Valid()
      ensures Separate(characteristics)
    {
      forall i, j, d | 0 <= i < j < |characteristics| && d in characteristics[i].descriptors
        ensures d !in characteristics[j].descriptors
      {
        OwnersSeparate(characteristics[i], characteristics[j], d);
      }
    }

    /** The characteristics move to new cells that belong to this service. */
    constructor Move(src: GattService)
      requires src.Valid()
      modifies TreeCells(src.characteristics)
      ensures Valid() && uuid == src.uuid && handle == src.handle && endHandle == src.endHandle && primary == src.primary
      ensures |characteristics| == |src.characteristics| && includeServices == old(src.includeServices)
      ensures forall i :: 0 <= i < |characteristics| ==>
                            MovedTo(characteristics[i], this, old(CharacteristicViews(src.characteristics)[i]),
                                    old(Values(src.characteristics)[i]))
    {
      uuid, handle, endHandle, primary := src.uuid, src.handle, src.endHandle, src.primary;
      characteristics, includeServices := [], src.includeServices;
      new;
      src.IsSeparate();
      ghost var views, values := CharacteristicViews(src.characteristics), Values(src.characteristics);
      characteristics := MoveAll(src.characteristics, this, views, values);
    }
  }
}
