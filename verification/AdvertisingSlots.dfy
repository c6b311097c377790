/**
  The seven advertising slots of the C adapter.

  A slot is taken when advertising is started and given back when the start fails, when the stack
  reports the stop, when the application does not claim it any more, and when the service goes away.
  All accesses hold the advertising lock; one locked section is one step.
 */
module AdvertisingSlots {
  import Q = Quarantine
  import Mac = MacAddress
  import opened Basics
  import opened SetFacts

  const MAX_BLE_ADV_NUM: nat := 7
  const BLE_ADDR_RANDOM: nat := 1

  /** The callback object of one advertising set; it knows the slot it was made for. */
  class BleAdvCallback {
    const advId: int

    constructor (advId: int)
      ensures this.advId == advId
    {
      this.advId := advId;
    }
  }

  datatype Status = Success | NotReady | ParmInvalid | Unhandled | DuplicatedAddr

  // ------------------------------------------------------------------------------------------
  // Occupancy
  // ------------------------------------------------------------------------------------------

  /** The lowest free slot, or the number of slots. */
  function LowestFree(used: seq<bool>): nat {
    FindFirst(used, (u: bool) => !u)
  }

  /** What the application answers when asked which ids it uses: nothing, or a count and an array. */
  datatype Answer = NoCallback | Reported(advNum: int, advIds: seq<int>)

  /** An answer that is acted upon: it claims fewer ids than there are slots. */
  predicate Usable(a: Answer) {
    a.Reported? && 0 <= a.advNum < MAX_BLE_ADV_NUM && |a.advIds| == MAX_BLE_ADV_NUM
  }

  predicate Claims(a: Answer, i: int)
    requires Usable(a)
  {
    i in a.advIds[..a.advNum]
  }

  /** An answer is acted upon exactly when it claims 0 to 6 ids. */
  lemma {:induction false} UsableIff(advNum: int, advIds: seq<int>)
    requires |advIds| == MAX_BLE_ADV_NUM
    ensures Usable(Reported(advNum, advIds)) <==> 0 <= advNum <= 6
    ensures !Usable(NoCallback)
  {
  }

  lemma {:induction false} ClaimsIff(a: Answer, i: int)
    requires Usable(a)
    ensures Claims(a, i) <==> exists j :: 0 <= j < a.advNum && a.advIds[j] == i
  {
    if Claims(a, i) {
      var j :| 0 <= j < a.advNum && a.advIds[..a.advNum][j] == i;
    }
    if j :| 0 <= j < a.advNum && a.advIds[j] == i {
      assert a.advIds[..a.advNum][j] == i;
    }
  }

  /** Occupancy after the check: below the first free slot, unclaimed slots are freed. */
  function Reclaimed(used: seq<bool>, a: Answer): (r: seq<bool>)
    ensures |r| == |used|
  {
    if !Usable(a) then used
    else
      var f := LowestFree(used);
      seq(|used|, i requires 0 <= i < |used| => if i < f then Claims(a, i) else used[i])
  }

  /** The occupancy in which a new slot is looked for: reclaiming is tried only when all are taken. */
  function Room(used: seq<bool>, a: Answer): (r: seq<bool>)
    ensures |r| == |used|
  {
    if LowestFree(used) < |used| then used else Reclaimed(used, a)
  }

  /**
    Reclaim always makes room: when all slots are taken and the application claims fewer than seven
    ids, whatever values it reports, exactly the unclaimed slots are freed and one of them is free for
    the second allocation.
   */
  lemma {:induction false} ReclaimMakesRoom(used: seq<bool>, a: Answer)
    requires |used| == MAX_BLE_ADV_NUM && LowestFree(used) == MAX_BLE_ADV_NUM && Usable(a)
    ensures forall i :: 0 <= i < MAX_BLE_ADV_NUM ==>
                          (Reclaimed(used, a)[i] <==> exists j :: 0 <= j < a.advNum && a.advIds[j] == i)
    ensures LowestFree(Reclaimed(used, a)) < MAX_BLE_ADV_NUM
    ensures forall j :: 0 <= j < a.advNum ==> a.advIds[j] != LowestFree(Reclaimed(used, a))
  {
    forall i | 0 <= i < MAX_BLE_ADV_NUM
      ensures Claims(a, i) <==> exists j :: 0 <= j < a.advNum && a.advIds[j] == i
    {
      ClaimsIff(a, i);
    }
    SomeMissing(a.advIds[..a.advNum], MAX_BLE_ADV_NUM);
    var i :| 0 <= i < MAX_BLE_ADV_NUM && i !in a.advIds[..a.advNum];
    assert !Reclaimed(used, a)[i];
  }

  // ------------------------------------------------------------------------------------------
  // The slots
  // ------------------------------------------------------------------------------------------

  datatype OwnAddr = OwnAddr(addr: seq<Byte>, addrType: nat)

  /** A resolvable private address: the two highest bits of the first byte are 01, of random type. */
  predicate IsRpa(own: OwnAddr) {
    |own.addr| == Mac.OHOS_BD_ADDR_LEN && own.addr[0] / 64 == 1 && own.addrType == BLE_ADDR_RANDOM
  }

  /** The two highest bits of the first byte are 01. */
  lemma {:induction false} IsRpaIff(own: OwnAddr)
    requires |own.addr| == 6
    ensures IsRpa(own) <==> own.addrType == 1 && 0x40 <= own.addr[0] <= 0x7F
    ensures IsRpa(own) <==> own.addrType == 1 && own.addr[0] / 128 == 0 && own.addr[0] / 64 % 2 == 1
  {
  }

  class AdvSlots {
    const bleAdvCallbacks: array<BleAdvCallback?>
    const quarantine: Q.AddressQuarantine
    var bleAdvertiser: bool      // the shared advertiser exists

    ghost predicate Shaped()
      reads this
    {
      bleAdvCallbacks.Length == MAX_BLE_ADV_NUM
    }

    ghost function Used(): (u: seq<bool>)
      requires Shaped()
      reads this, bleAdvCallbacks
      ensures |u| == MAX_BLE_ADV_NUM
    {
      seq(MAX_BLE_ADV_NUM, i requires 0 <= i < MAX_BLE_ADV_NUM && Shaped() reads this, bleAdvCallbacks
          => bleAdvCallbacks[i] != null)
    }

    /** An occupied slot holds the callback made for it. */
    ghost predicate OwnIds()
      requires Shaped()
      reads this, bleAdvCallbacks
    {
      forall i :: 0 <= i < MAX_BLE_ADV_NUM && bleAdvCallbacks[i] != null ==> bleAdvCallbacks[i].advId == i
    }

    /** At every release of the lock. */
    ghost predicate Valid()
      reads this, bleAdvCallbacks
    {
      Shaped() && OwnIds() && (forall i :: 0 <= i < MAX_BLE_ADV_NUM && bleAdvCallbacks[i] != null ==> bleAdvertiser)
    }

    lemma {:induction false} DifferentSlotsDiffer(i: nat, j: nat)
      requires Valid() && i < j < MAX_BLE_ADV_NUM && bleAdvCallbacks[i] != null
      ensures bleAdvCallbacks[i] != bleAdvCallbacks[j]
    {
    }

    /** Slots that stay occupied keep their callback. */
    twostate predicate OnlyFreed()
      requires Shaped()
      reads this, bleAdvCallbacks
    {
      forall i :: 0 <= i < MAX_BLE_ADV_NUM && bleAdvCallbacks[i] != null ==> bleAdvCallbacks[i] == old(bleAdvCallbacks[i])
    }

    constructor ()
      ensures Valid() && fresh(bleAdvCallbacks) && fresh(quarantine)
      ensures quarantine.Valid() && quarantine.Contents() == []
      ensures forall i :: 0 <= i < MAX_BLE_ADV_NUM ==> !Used()[i]
    {
      bleAdvCallbacks := new BleAdvCallback?[MAX_BLE_ADV_NUM](_ => null);
      quarantine := new Q.AddressQuarantine();
      bleAdvertiser := false;
    }

    method AllocateAdvHandle() returns (i: nat)
      requires Shaped() && OwnIds()
      modifies bleAdvCallbacks
      ensures i == LowestFree(old(Used())) && OwnIds()
      ensures i <= MAX_BLE_ADV_NUM && (forall k :: 0 <= k < i ==> old(bleAdvCallbacks[k]) != null)
      ensures i < MAX_BLE_ADV_NUM ==> old(bleAdvCallbacks[i]) == null
      ensures Used() == if i < MAX_BLE_ADV_NUM then old(Used())[i := true] else old(Used())
      ensures i < MAX_BLE_ADV_NUM ==> fresh(bleAdvCallbacks[i])
      ensures forall k :: 0 <= k < MAX_BLE_ADV_NUM && k != i ==> bleAdvCallbacks[k] == old(bleAdvCallbacks[k])
    {
      i := 0;
      while i < MAX_BLE_ADV_NUM
        invariant i <= MAX_BLE_ADV_NUM && forall k :: 0 <= k < i ==> Used()[k] && old(bleAdvCallbacks[k]) != null
        invariant bleAdvCallbacks[..] == old(bleAdvCallbacks[..])
      {
        if bleAdvCallbacks[i] == null {
          assert !Used()[i];
          bleAdvCallbacks[i] := new BleAdvCallback(i);
          return;
        }
        i := i + 1;
      }
    }

    method CheckAdvIdInUse(answer: Answer)
      requires Shaped() && OwnIds()
      requires answer.Reported? ==> |answer.advIds| == MAX_BLE_ADV_NUM
      modifies bleAdvCallbacks
      ensures OwnIds() && OnlyFreed()
      ensures Used() == Reclaimed(old(Used()), answer)
    {
      if answer.NoCallback? {
        return;
      }
      if answer.advNum < 0 || answer.advNum > MAX_BLE_ADV_NUM {
        return;
      }
      if answer.advNum == MAX_BLE_ADV_NUM {
        return;
      }
      ghost var was := Used();
      for i := 0 to MAX_BLE_ADV_NUM
        invariant OwnIds() && OnlyFreed() && i <= LowestFree(was)
        invariant forall k :: 0 <= k < i ==> Used()[k] == Claims(answer, k)
        invariant forall k :: i <= k < MAX_BLE_ADV_NUM ==> Used()[k] == was[k]
      {
        if bleAdvCallbacks[i] == null {
          assert !Used()[i];
          return;
        }
        assert Used()[i];
        var advIdInUse := false;
        for j := 0 to answer.advNum
          invariant !advIdInUse && forall m :: 0 <= m < j ==> answer.advIds[m] != i
        {
          if i == answer.advIds[j] {
            advIdInUse := true;
            break;
          }
        }
        assert advIdInUse == Claims(answer, i);
        if !advIdInUse {
          bleAdvCallbacks[i] := null;
        }
      }
    }

    /** Only slot i got a callback that it did not have; if there was room, it was free and nothing else changed. */
    twostate predicate OnlyTaken(i: int, hadRoom: bool)
      requires Shaped()
      reads this, bleAdvCallbacks
    {
      && (forall k :: 0 <= k < MAX_BLE_ADV_NUM && k != i && (hadRoom || bleAdvCallbacks[k] != null) ==>
                        bleAdvCallbacks[k] == old(bleAdvCallbacks[k]))
      && (hadRoom && 0 <= i < MAX_BLE_ADV_NUM ==> old(bleAdvCallbacks[i]) == null)
    }

    ghost predicate HasRoom()
      requires Shaped()
      reads this, bleAdvCallbacks
    {
      exists k :: 0 <= k < MAX_BLE_ADV_NUM && bleAdvCallbacks[k] == null
    }

    lemma {:induction false} HasRoomIff()
      requires Shaped()
      ensures HasRoom() <==> LowestFree(Used()) < MAX_BLE_ADV_NUM
    {
      if k :| 0 <= k < MAX_BLE_ADV_NUM && bleAdvCallbacks[k] == null {
        assert !Used()[k];
      }
      if LowestFree(Used()) < MAX_BLE_ADV_NUM {
        assert bleAdvCallbacks[LowestFree(Used())] == null;
      }
    }

    method CheckAndAllocateAdvHandle(answer: Answer) returns (i: nat)
      requires Shaped() && OwnIds()
      requires answer.Reported? ==> |answer.advIds| == MAX_BLE_ADV_NUM
      modifies bleAdvCallbacks
      ensures OwnIds()
      ensures i < MAX_BLE_ADV_NUM <==>
                old(HasRoom()) || (answer.Reported? && 0 <= answer.advNum <= 6)
      ensures var before := Room(old(Used()), answer);
              i == LowestFree(before) && Used() == if i < MAX_BLE_ADV_NUM then before[i := true] else before
      ensures i < MAX_BLE_ADV_NUM ==> fresh(bleAdvCallbacks[i])
      ensures OnlyTaken(i, old(HasRoom()))
    {
      HasRoomIff();
      i := AllocateAdvHandle();
      if i == MAX_BLE_ADV_NUM {
        if Usable(answer) {
          ReclaimMakesRoom(Used(), answer);
        }
        CheckAdvIdInUse(answer);
        i := AllocateAdvHandle();
      }
    }

    method FreeSlot(i: nat)
      requires Shaped() && OwnIds() && i < MAX_BLE_ADV_NUM
      modifies bleAdvCallbacks
      ensures OwnIds() && OnlyFreed() && Used() == old(Used())[i := false]
      ensures forall k :: 0 <= k < MAX_BLE_ADV_NUM && k != i ==> bleAdvCallbacks[k] == old(bleAdvCallbacks[k])
    {
      bleAdvCallbacks[i] := null;
    }

    /** Starts advertising under a private address of the caller's choice, unless it is in quarantine. */
    method BleStartAdvWithAddr(own: OwnAddr, bleOn: bool, answer: Answer, sweepMillis: nat, askMillis: nat)
      returns (status: Status, advId: int)
      requires Valid() && quarantine.Valid()
      requires sweepMillis <= askMillis && Q.NotAfter(quarantine.Contents(), sweepMillis)
      requires answer.Reported? ==> |answer.advIds| == MAX_BLE_ADV_NUM
      modifies bleAdvCallbacks, this`bleAdvertiser, quarantine
      ensures Valid() && quarantine.Valid()
      ensures status == if !IsRpa(own) then ParmInvalid else if !bleOn then NotReady
                        else if LowestFree(old(Used())) == MAX_BLE_ADV_NUM && !Usable(answer) then Unhandled
                        else if Verdict(old(quarantine.Contents()), own, sweepMillis, askMillis).Accepts() then Success
                        else DuplicatedAddr
      ensures var before := Room(old(Used()), answer);
              && (status == Success ==> advId == LowestFree(before) < MAX_BLE_ADV_NUM && Used() == before[advId := true])
              && (status == DuplicatedAddr ==> advId == -1 && Used() == before)
      ensures status != Success && status != DuplicatedAddr ==> Used() == old(Used()) && advId == -1
      ensures status == Success || status == DuplicatedAddr ==>
                quarantine.Contents() == Q.AskQueue(Q.Sweep(old(quarantine.Contents()), sweepMillis), AddrKey(own), askMillis)
      ensures status != Success && status != DuplicatedAddr ==>
                quarantine.Contents() == old(quarantine.Contents()) && quarantine.advAddrMap == old(quarantine.advAddrMap)
      ensures bleAdvertiser == (old(bleAdvertiser) || status == Success)
      ensures OnlyTaken(advId, old(HasRoom()))
    {
      if !IsRpa(own) {
        return ParmInvalid, -1;
      }
      if !bleOn {
        return NotReady, -1;
      }
      status, advId := StartLocked(own, answer, sweepMillis, askMillis);
    }

    /** The locked section of a start with an address. */
    method StartLocked(own: OwnAddr, answer: Answer, sweepMillis: nat, askMillis: nat) returns (status: Status, advId: int)
      requires Valid() && quarantine.Valid() && |own.addr| == Mac.OHOS_BD_ADDR_LEN
      requires sweepMillis <= askMillis && Q.NotAfter(quarantine.Contents(), sweepMillis)
      requires answer.Reported? ==> |answer.advIds| == MAX_BLE_ADV_NUM
      modifies bleAdvCallbacks, this`bleAdvertiser, quarantine
      ensures Valid() && quarantine.Valid()
      ensures status == if LowestFree(old(Used())) == MAX_BLE_ADV_NUM && !Usable(answer) then Unhandled
                        else if Verdict(old(quarantine.Contents()), own, sweepMillis, askMillis).Accepts() then Success
                        else DuplicatedAddr
      ensures var before := Room(old(Used()), answer);
              if status == Success then advId == LowestFree(before) < MAX_BLE_ADV_NUM && Used() == before[advId := true]
              else advId == -1 && Used() == before
      ensures status == Unhandled ==> Used() == old(Used())
      ensures status != Unhandled ==>
                quarantine.Contents() == Q.AskQueue(Q.Sweep(old(quarantine.Contents()), sweepMillis), AddrKey(own), askMillis)
      ensures status == Unhandled ==>
                quarantine.Contents() == old(quarantine.Contents()) && quarantine.advAddrMap == old(quarantine.advAddrMap)
      ensures bleAdvertiser == (old(bleAdvertiser) || status == Success)
      ensures OnlyTaken(advId, old(HasRoom()))
    {
      var i := TakeSlot(answer);
      if i == MAX_BLE_ADV_NUM {
        return Unhandled, -1;
      }
      status, advId := Admit(i, own, sweepMillis, askMillis, Room(old(Used()), answer));
    }

    /** The slot is taken: the quarantine decides whether it is kept. */
    method Admit(i: nat, own: OwnAddr, sweepMillis: nat, askMillis: nat, ghost before: seq<bool>)
      returns (status: Status, advId: int)
      requires Shaped() && OwnIds() && i < MAX_BLE_ADV_NUM == |before| && !before[i] && Used() == before[i := true]
      requires forall k :: 0 <= k < MAX_BLE_ADV_NUM && k != i && bleAdvCallbacks[k] != null ==> bleAdvertiser
      requires quarantine.Valid() && |own.addr| == Mac.OHOS_BD_ADDR_LEN
      requires sweepMillis <= askMillis && Q.NotAfter(quarantine.Contents(), sweepMillis)
      modifies bleAdvCallbacks, this`bleAdvertiser, quarantine
      ensures Valid() && quarantine.Valid()
      ensures if Verdict(old(quarantine.Contents()), own, sweepMillis, askMillis).Accepts()
              then status == Success && advId == i && Used() == before[i := true]
              else status == DuplicatedAddr && advId == -1 && Used() == before
      ensures quarantine.Contents() == Q.AskQueue(Q.Sweep(old(quarantine.Contents()), sweepMillis), AddrKey(own), askMillis)
      ensures bleAdvertiser == (old(bleAdvertiser) || status == Success)
      ensures forall k :: 0 <= k < MAX_BLE_ADV_NUM && (k != i || status == Success) ==>
                            bleAdvCallbacks[k] == old(bleAdvCallbacks[k])
      ensures status != Success ==> bleAdvCallbacks[i] == null
    {
      var allowed := StartAdvAddrTimer(own, sweepMillis, askMillis);
      status, advId := Settle(i, allowed, before);
    }

    /** The last part of a start: the slot is given back, or the advertiser is made sure of. */
    method Settle(i: nat, allowed: bool, ghost before: seq<bool>) returns (status: Status, advId: int)
      requires Shaped() && OwnIds() && i < MAX_BLE_ADV_NUM == |before| && !before[i] && Used() == before[i := true]
      requires forall k :: 0 <= k < MAX_BLE_ADV_NUM && k != i && bleAdvCallbacks[k] != null ==> bleAdvertiser
      modifies bleAdvCallbacks, this`bleAdvertiser
      ensures Valid()
      ensures if allowed then status == Success && advId == i && Used() == before[i := true]
              else status == DuplicatedAddr && advId == -1 && Used() == before
      ensures bleAdvertiser == (old(bleAdvertiser) || allowed)
      ensures forall k :: 0 <= k < MAX_BLE_ADV_NUM && (k != i || allowed) ==> bleAdvCallbacks[k] == old(bleAdvCallbacks[k])
      ensures !allowed ==> bleAdvCallbacks[i] == null
    {
      if !allowed {
        FreeSlot(i);
        assert before[i := true][i := false] == before;
        return DuplicatedAddr, -1;
      }
      bleAdvertiser := true;
      return Success, i;
    }

    /** The first part of a start: a slot is taken; the advertiser may not exist yet. */
    method TakeSlot(answer: Answer) returns (i: nat)
      requires Valid() && (answer.Reported? ==> |answer.advIds| == MAX_BLE_ADV_NUM)
      modifies bleAdvCallbacks
      ensures OwnIds() && i == LowestFree(Room(old(Used()), answer)) <= MAX_BLE_ADV_NUM
      ensures i == MAX_BLE_ADV_NUM <==> LowestFree(old(Used())) == MAX_BLE_ADV_NUM && !Usable(answer)
      ensures i == MAX_BLE_ADV_NUM ==> Used() == old(Used()) && Valid()
      ensures OnlyTaken(i, old(HasRoom()))
      ensures i < MAX_BLE_ADV_NUM ==> Used() == Room(old(Used()), answer)[i := true]
      ensures forall k :: 0 <= k < MAX_BLE_ADV_NUM && k != i && bleAdvCallbacks[k] != null ==> bleAdvertiser
    {
      i := CheckAndAllocateAdvHandle(answer);
    }

    /** Sweeps the quarantine and asks it about the address. */
    method StartAdvAddrTimer(own: OwnAddr, sweepMillis: nat, askMillis: nat) returns (allowed: bool)
      requires quarantine.Valid() && |own.addr| == Mac.OHOS_BD_ADDR_LEN
      requires sweepMillis <= askMillis && Q.NotAfter(quarantine.Contents(), sweepMillis)
      modifies quarantine
      ensures quarantine.Valid()
      ensures allowed == Verdict(old(quarantine.Contents()), own, sweepMillis, askMillis).Accepts()
      ensures quarantine.Contents() ==
              Q.AskQueue(Q.Sweep(old(quarantine.Contents()), sweepMillis), AddrKey(own), askMillis)
    {
      ghost var was := quarantine.Contents();
      quarantine.RemoveTimeoutAdvAddr(sweepMillis);
      Q.SweepIsSuffix(was, sweepMillis);
      Q.SuffixNotAfter(was, Q.ExpiredPrefix(was, sweepMillis), askMillis);
      allowed := quarantine.CanStartAdv(Mac.Print(own.addr), askMillis);
    }

    method BleStartAdvEx(bleOn: bool, answer: Answer) returns (status: Status, advId: int)
      requires Valid()
      requires answer.Reported? ==> |answer.advIds| == MAX_BLE_ADV_NUM
      modifies bleAdvCallbacks, this`bleAdvertiser
      ensures Valid()
      ensures status == if !bleOn then NotReady
                        else if LowestFree(old(Used())) == MAX_BLE_ADV_NUM && !Usable(answer) then Unhandled else Success
      ensures var before := Room(old(Used()), answer);
              status == Success ==> advId == LowestFree(before) < MAX_BLE_ADV_NUM && Used() == before[advId := true]
      ensures status != Success ==> Used() == old(Used()) && advId == -1
      ensures bleAdvertiser == (old(bleAdvertiser) || bleOn)
      ensures OnlyTaken(advId, old(HasRoom()))
    {
      advId := -1;
      if !bleOn {
        return NotReady, -1;
      }
      bleAdvertiser := true;
      var i := TakeSlot(answer);
      if i == MAX_BLE_ADV_NUM {
        return Unhandled, -1;
      }
      return Success, i;
    }

    /** The queued start task, as far as the slots are concerned: a failed start gives the slot back. */
    method RunStartTask(i: nat, started: bool)
      requires Valid() && i < MAX_BLE_ADV_NUM
      modifies bleAdvCallbacks
      ensures Valid() && OnlyFreed()
      ensures Used() == if started then old(Used()) else old(Used())[i := false]
    {
      if !started {
        FreeSlot(i);
      }
    }

    /** After a stop result; the shared advertiser goes with the last slot. */
    method ClearAdvertisingResource(advId: int)
      requires Valid()
      modifies bleAdvCallbacks, this`bleAdvertiser
      ensures Valid() && OnlyFreed()
      ensures Used() == if 0 <= advId < MAX_BLE_ADV_NUM then old(Used())[advId := false] else old(Used())
      ensures 0 <= advId < MAX_BLE_ADV_NUM ==>
                bleAdvertiser == (old(bleAdvertiser) && exists i :: 0 <= i < MAX_BLE_ADV_NUM && Used()[i])
      ensures !(0 <= advId < MAX_BLE_ADV_NUM) ==> bleAdvertiser == old(bleAdvertiser)
    {
      if advId < 0 || advId >= MAX_BLE_ADV_NUM {
        return;
      }
      FreeSlot(advId);
      var i := 0;
      while i < MAX_BLE_ADV_NUM
        invariant 0 <= i <= MAX_BLE_ADV_NUM && forall k :: 0 <= k < i ==> bleAdvCallbacks[k] == null
      {
        if bleAdvCallbacks[i] != null {
          assert Used()[i];
          break;
        }
        i := i + 1;
      }
      if i == MAX_BLE_ADV_NUM {
        bleAdvertiser := false;
      }
    }

    method ClearGlobalResource()
      requires Valid()
      modifies bleAdvCallbacks
      ensures Valid() && forall i :: 0 <= i < MAX_BLE_ADV_NUM ==> !Used()[i]
    {
      for i := 0 to MAX_BLE_ADV_NUM
        invariant Valid() && forall k :: 0 <= k < i ==> bleAdvCallbacks[k] == null
      {
        if bleAdvCallbacks[i] != null {
          bleAdvCallbacks[i] := null;
        }
      }
    }
  }

  /** The quarantine's key for an address. */
  function AddrKey(own: OwnAddr): string
    requires |own.addr| == Mac.OHOS_BD_ADDR_LEN
  {
    Q.Key(Mac.Print(own.addr))
  }

  function Verdict(held: seq<Q.Record>, own: OwnAddr, sweepMillis: nat, askMillis: nat): Q.Verdict
    requires |own.addr| == Mac.OHOS_BD_ADDR_LEN
  {
    Q.AskVerdict(Q.Sweep(held, sweepMillis), AddrKey(own), askMillis)
  }

  /** Different addresses have different keys. */
  lemma {:induction false} SameAddrKeyIff(a: OwnAddr, b: OwnAddr)
    requires |a.addr| == |b.addr| == Mac.OHOS_BD_ADDR_LEN
    ensures AddrKey(a) == AddrKey(b) <==> a.addr == b.addr
  {
    if AddrKey(a) == AddrKey(b) {
      PrintedKeyIsFaithful(a.addr, b.addr);
      Mac.ParsePrint(a.addr);
      Mac.ParsePrint(b.addr);
    }
  }

  /** Printed addresses have no small letters, so letter case does not identify different ones. */
  lemma {:induction false} PrintedKeyIsFaithful(a: seq<Byte>, b: seq<Byte>)
    requires a != [] && b != [] && Q.Key(Mac.Print(a)) == Q.Key(Mac.Print(b))
    ensures Mac.Print(a) == Mac.Print(b)
  {
    var s, t := Mac.Print(a), Mac.Print(b);
    Mac.PrintShape(a);
    Mac.PrintShape(b);
    assert |s| == |Q.Key(s)| == |Q.Key(t)| == |t|;
    forall i | 0 <= i < |s|
      ensures s[i] == t[i]
    {
      assert Q.Key(s)[i] == Q.Key(t)[i] && Mac.WellPlaced(s, i) && Mac.WellPlaced(t, i);
    }
  }

  /** An address that none of the held records was made for is accepted and recorded. */
  lemma {:induction false} UnheldAddressIsAccepted(held: seq<Q.Record>, others: seq<OwnAddr>, own: OwnAddr,
                                                   sweepMillis: nat, askMillis: nat)
    requires Q.TimeSorted(held) && |own.addr| == Mac.OHOS_BD_ADDR_LEN && |others| == |held|
    requires forall p :: 0 <= p < |held| ==> |others[p].addr| == Mac.OHOS_BD_ADDR_LEN && others[p].addr != own.addr
    requires forall p :: 0 <= p < |held| ==> held[p].key == AddrKey(others[p])
    ensures Verdict(held, own, sweepMillis, askMillis) == Q.Recorded
  {
    var swept, d := Q.Sweep(held, sweepMillis), Q.ExpiredPrefix(held, sweepMillis);
    Q.SweepIsSuffix(held, sweepMillis);
    forall p | 0 <= p < |swept|
      ensures swept[p].key != AddrKey(own)
    {
      assert swept[p] == held[d + p];
      SameAddrKeyIff(others[d + p], own);
    }
  }
}
