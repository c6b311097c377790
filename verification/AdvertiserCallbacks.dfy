/**
  The table from advertising handles to callbacks in the BLE advertiser.

  The table is an ordered map, walked in ascending order of the handles.  Handles are 32-bit numbers
  given by the service; several lookups go through an 8-bit handle, of which 255 means "none".  One
  API call or one callback of the service is one step.
 */
module AdvertiserCallbacks {
  import opened Basics

  const BLE_INVALID_ADVERTISING_HANDLE: nat := 0xFF

  /** The identity of a callback object. */
  type Observer = nat

  datatype Entry = Entry(handle: int, observer: Observer)

  function ToUint8(handle: int): nat {
    handle % 256
  }

  // ------------------------------------------------------------------------------------------
  // The table as a value
  // ------------------------------------------------------------------------------------------

  ghost predicate Sorted(es: seq<Entry>) {
    forall i, j :: 0 <= i < j < |es| ==> es[i].handle < es[j].handle
  }

  /** No callback sits under two handles. */
  ghost predicate Injective(es: seq<Entry>) {
    forall i, j :: 0 <= i < j < |es| ==> es[i].observer != es[j].observer
  }

  function AtHandle(es: seq<Entry>, handle: int): nat {
    FindFirst(es, (e: Entry) => e.handle == handle)
  }

  function AtObserver(es: seq<Entry>, observer: Observer): nat {
    FindFirst(es, (e: Entry) => e.observer == observer)
  }

  function Without(es: seq<Entry>, p: nat): seq<Entry> {
    if p < |es| then es[..p] + es[p + 1..] else es
  }

  /** Where a new handle belongs. */
  function Place(es: seq<Entry>, handle: int): nat {
    FindFirst(es, (e: Entry) => e.handle > handle)
  }

  /** A callback already under the handle is replaced. */
  function Put(es: seq<Entry>, handle: int, observer: Observer): seq<Entry> {
    var p := AtHandle(es, handle);
    if p < |es| then es[p := Entry(handle, observer)]
    else es[..Place(es, handle)] + [Entry(handle, observer)] + es[Place(es, handle)..]
  }

  function ObserverAt(es: seq<Entry>, advHandle: nat): Option<Observer> {
    var p := AtHandle(es, advHandle);
    if p < |es| then Some(es[p].observer) else None
  }

  function HandleFor(es: seq<Entry>, observer: Observer): nat {
    var p := AtObserver(es, observer);
    if p < |es| then ToUint8(es[p].handle) else BLE_INVALID_ADVERTISING_HANDLE
  }

  // ------------------------------------------------------------------------------------------
  // The table as an object
  // ------------------------------------------------------------------------------------------

  class ObserverMap {
    var observers: seq<Entry>

    ghost predicate Valid()
      reads this
    {
      Sorted(observers)
    }

    constructor ()
      ensures Valid() && observers == []
    {
      observers := [];
    }

    method FindHandle(handle: int) returns (p: nat)
      ensures p == AtHandle(observers, handle)
    {
      p := 0;
      while p < |observers|
        invariant p <= |observers| && forall i :: 0 <= i < p ==> observers[i].handle != handle
      {
        if observers[p].handle == handle {
          return;
        }
        p := p + 1;
      }
    }

    method FindObserver(observer: Observer) returns (p: nat)
      ensures p == AtObserver(observers, observer)
    {
      p := 0;
      while p < |observers|
        invariant p <= |observers| && forall i :: 0 <= i < p ==> observers[i].observer != observer
      {
        if observers[p].observer == observer {
          return;
        }
        p := p + 1;
      }
    }

    method Register(handle: int, observer: Observer)
      requires Valid()
      modifies this
      ensures Valid() && observers == Put(old(observers), handle, observer)
    {
      PutKeepsSorted(observers, handle, observer);
      var p := FindHandle(handle);
      if p < |observers| {
        observers := observers[p := Entry(handle, observer)];
        return;
      }
      observers := observers[..Place(observers, handle)] + [Entry(handle, observer)] + observers[Place(observers, handle)..];
    }

    method Deregister(observer: Observer) returns (removed: bool)
      requires Valid()
      modifies this
      ensures Valid() && observers == Without(old(observers), AtObserver(old(observers), observer))
      ensures removed <==> exists i :: 0 <= i < |old(observers)| && old(observers)[i].observer == observer
    {
      WithoutKeepsSorted(observers, AtObserver(observers, observer));
      var p := FindObserver(observer);
      removed := p < |observers|;
      if removed {
        observers := observers[..p] + observers[p + 1..];
      }
    }

    method GetAdvertiserHandle(observer: Option<Observer>) returns (advHandle: nat)
      ensures advHandle == if observer.None? then BLE_INVALID_ADVERTISING_HANDLE else HandleFor(observers, observer.value)
    {
      if observer.None? {
        return BLE_INVALID_ADVERTISING_HANDLE;
      }
      var p := FindObserver(observer.value);
      return if p < |observers| then ToUint8(observers[p].handle) else BLE_INVALID_ADVERTISING_HANDLE;
    }

    method PopAdvertiserObserver(advHandle: nat) returns (observer: Option<Observer>)
      requires Valid()
      modifies this
      ensures Valid() && observers == Without(old(observers), AtHandle(old(observers), advHandle))
      ensures observer == ObserverAt(old(observers), advHandle)
    {
      WithoutKeepsSorted(observers, AtHandle(observers, advHandle));
      var p := FindHandle(advHandle);
      if p == |observers| {
        return None;
      }
      observer := Some(observers[p].observer);
      observers := observers[..p] + observers[p + 1..];
    }

    method GetAdvertiserObserver(advHandle: nat) returns (observer: Option<Observer>)
      ensures observer == ObserverAt(observers, advHandle)
    {
      var p := FindHandle(advHandle);
      return if p < |observers| then Some(observers[p].observer) else None;
    }

    method IsExistAdvertiserCallback(observer: Option<Observer>) returns (exist: bool, handle: int)
      ensures exist <==> observer.Some? && AtObserver(observers, observer.value) < |observers|
      ensures exist ==> handle == observers[AtObserver(observers, observer.value)].handle
    {
      handle := BLE_INVALID_ADVERTISING_HANDLE;
      if observer.None? {
        return false, handle;
      }
      var p := FindObserver(observer.value);
      exist := p < |observers|;
      if exist {
        handle := observers[p].handle;
      }
    }
  }

  // ------------------------------------------------------------------------------------------
  // The advertiser over a run
  // ------------------------------------------------------------------------------------------

  datatype Event =
    | Start(callback: Observer, granted: Option<int>)  // the service grants a handle, or none
    | StartFailed(advHandle: int)                      // start result with the failure code
    | Stopped(advHandle: int)
    | AutoStopped(advHandle: int)
    | Close(callback: Observer)
    | ServiceDied

  function DeregisterFound(es: seq<Entry>, o: Option<Observer>): seq<Entry> {
    if o.Some? then Without(es, AtObserver(es, o.value)) else es
  }

  function Apply(es: seq<Entry>, e: Event): seq<Entry> {
    match e
    case Start(callback, granted) =>
      if AtObserver(es, callback) < |es| || granted.None? || granted.value == BLE_INVALID_ADVERTISING_HANDLE then es
      else Put(es, granted.value, callback)
    case StartFailed(advHandle) => Without(es, AtHandle(es, ToUint8(advHandle)))
    case Stopped(advHandle) => Without(es, AtHandle(es, ToUint8(advHandle)))
    case AutoStopped(advHandle) => DeregisterFound(es, ObserverAt(es, ToUint8(advHandle)))
    case Close(callback) => DeregisterFound(es, ObserverAt(es, HandleFor(es, callback)))
    case ServiceDied => []
  }

  /** The advertiser's calls and the service's callbacks, as far as they touch the table. */
  class BleAdvertiser {
    const callbacks: ObserverMap

    constructor ()
      ensures fresh(callbacks) && callbacks.Valid() && callbacks.observers == []
    {
      callbacks := new ObserverMap();
    }

    method StartAdvertising(callback: Observer, granted: Option<int>)
      requires callbacks.Valid()
      modifies callbacks
      ensures callbacks.Valid() && callbacks.observers == Apply(old(callbacks.observers), Start(callback, granted))
    {
      var exist, _ := callbacks.IsExistAdvertiserCallback(Some(callback));
      if !exist {
        if granted.None? || granted.value == BLE_INVALID_ADVERTISING_HANDLE {
          return;
        }
        callbacks.Register(granted.value, callback);
      }
    }

    /** The callback that receives the result; a failed start removes it from the table. */
    method OnStartResultEvent(advHandle: int, failed: bool) returns (observer: Option<Observer>)
      requires callbacks.Valid()
      modifies callbacks
      ensures callbacks.Valid() && observer == ObserverAt(old(callbacks.observers), ToUint8(advHandle))
      ensures callbacks.observers ==
              if failed then Apply(old(callbacks.observers), StartFailed(advHandle)) else old(callbacks.observers)
    {
      if failed {
        observer := callbacks.PopAdvertiserObserver(ToUint8(advHandle));
      } else {
        observer := callbacks.GetAdvertiserObserver(ToUint8(advHandle));
      }
    }

    method OnStopResultEvent(advHandle: int) returns (observer: Option<Observer>)
      requires callbacks.Valid()
      modifies callbacks
      ensures callbacks.Valid() && observer == ObserverAt(old(callbacks.observers), ToUint8(advHandle))
      ensures callbacks.observers == Apply(old(callbacks.observers), Stopped(advHandle))
    {
      observer := callbacks.PopAdvertiserObserver(ToUint8(advHandle));
    }

    method OnAutoStopAdvEvent(advHandle: int)
      requires callbacks.Valid()
      modifies callbacks
      ensures callbacks.Valid() && callbacks.observers == Apply(old(callbacks.observers), AutoStopped(advHandle))
    {
      var observer := callbacks.GetAdvertiserObserver(ToUint8(advHandle));
      if observer.Some? {
        var _ := callbacks.Deregister(observer.value);
      }
    }

    method CloseCallback(callback: Observer)
      requires callbacks.Valid()
      modifies callbacks
      ensures callbacks.Valid() && callbacks.observers == Apply(old(callbacks.observers), Close(callback))
    {
      var advHandle := callbacks.GetAdvertiserHandle(Some(callback));
      var observer := callbacks.GetAdvertiserObserver(advHandle);
      if observer.Some? {
        var _ := callbacks.Deregister(observer.value);
      }
    }

    method OnRemoteDied()
      requires callbacks.Valid()
      modifies callbacks
      ensures callbacks.Valid() && callbacks.observers == Apply(old(callbacks.observers), ServiceDied)
    {
      callbacks.observers := [];
    }
  }

  function After(events: seq<Event>, n: nat): seq<Entry>
    requires n <= |events|
  {
    if n == 0 then [] else Apply(After(events, n - 1), events[n - 1])
  }

  /** In every state of every run: ordered, no callback twice, and 255 is not in use. */
  ghost predicate Inv(es: seq<Entry>) {
    Sorted(es) && Injective(es) && forall i :: 0 <= i < |es| ==> es[i].handle != BLE_INVALID_ADVERTISING_HANDLE
  }

  lemma {:induction false} WithoutKeepsSorted(es: seq<Entry>, p: nat)
    requires Sorted(es)
    ensures Sorted(Without(es, p))
  {
  }

  lemma {:induction false} WithoutKeepsInv(es: seq<Entry>, p: nat)
    requires Inv(es)
    ensures Inv(Without(es, p))
  {
    WithoutKeepsSorted(es, p);
    var r := Without(es, p);
    assert forall i :: 0 <= i < |r| ==> r[i] == es[if i < p then i else i + 1];
  }

  lemma {:induction false} PutKeepsSorted(es: seq<Entry>, handle: int, observer: Observer)
    requires Sorted(es)
    ensures Sorted(Put(es, handle, observer))
  {
  }

  /** Where an entry of the table comes from after a handle was put. */
  lemma {:induction false} PutOrigin(es: seq<Entry>, handle: int, observer: Observer, i: nat) returns (k: nat)
    requires i < |Put(es, handle, observer)|
    ensures k <= |es|
    ensures Put(es, handle, observer)[i] == if k < |es| then es[k] else Entry(handle, observer)
    ensures AtHandle(es, handle) < |es| ==> k == if i == AtHandle(es, handle) then |es| else i
    ensures AtHandle(es, handle) == |es| ==>
              k == if i < Place(es, handle) then i else if i == Place(es, handle) then |es| else i - 1
  {
    if AtHandle(es, handle) < |es| {
      k := if i == AtHandle(es, handle) then |es| else i;
    } else {
      k := if i < Place(es, handle) then i else if i == Place(es, handle) then |es| else i - 1;
    }
  }

  lemma {:induction false} PutKeepsInv(es: seq<Entry>, handle: int, observer: Observer)
    requires Inv(es) && AtObserver(es, observer) == |es| && handle != BLE_INVALID_ADVERTISING_HANDLE
    ensures Inv(Put(es, handle, observer))
  {
    PutKeepsSorted(es, handle, observer);
    var r := Put(es, handle, observer);
    forall i, j | 0 <= i < j < |r|
      ensures r[i].observer != r[j].observer
    {
      var k := PutOrigin(es, handle, observer, i);
      var l := PutOrigin(es, handle, observer, j);
    }
    forall i | 0 <= i < |r|
      ensures r[i].handle != BLE_INVALID_ADVERTISING_HANDLE
    {
      var k := PutOrigin(es, handle, observer, i);
    }
  }

  lemma {:induction false} StepKeepsInv(es: seq<Entry>, e: Event)
    requires Inv(es)
    ensures Inv(Apply(es, e))
  {
    match e {
      case Start(callback, granted) =>
        if Apply(es, e) != es { PutKeepsInv(es, granted.value, callback); }
      case StartFailed(h) => WithoutKeepsInv(es, AtHandle(es, ToUint8(h)));
      case Stopped(h) => WithoutKeepsInv(es, AtHandle(es, ToUint8(h)));
      case AutoStopped(h) =>
        var o := ObserverAt(es, ToUint8(h));
        if o.Some? { WithoutKeepsInv(es, AtObserver(es, o.value)); }
      case Close(callback) =>
        var o := ObserverAt(es, HandleFor(es, callback));
        if o.Some? { WithoutKeepsInv(es, AtObserver(es, o.value)); }
      case ServiceDied =>
    }
  }

  /** The table is a partial bijection over every run, whatever handles the service grants. */
  lemma {:induction false} AlwaysBijective(events: seq<Event>, n: nat)
    requires n <= |events|
    ensures Inv(After(events, n))
  {
    if n > 0 {
      AlwaysBijective(events, n - 1);
      StepKeepsInv(After(events, n - 1), events[n - 1]);
    }
  }

  lemma {:induction false} StartAppends(es: seq<Entry>, callback: Observer, handle: int)
    requires forall i :: 0 <= i < |es| ==> es[i].observer != callback && es[i].handle < handle
    requires handle != BLE_INVALID_ADVERTISING_HANDLE
    ensures Apply(es, Start(callback, Some(handle))) == es + [Entry(handle, callback)]
  {
    assert AtObserver(es, callback) == |es|;
    assert AtHandle(es, handle) == |es| && Place(es, handle) == |es|;
    assert es[..|es|] == es && es[|es|..] == [];
  }

  /**
    What an out-of-range handle does: callback b under handle h + 256 is not found through its handle, and
    closing it removes the innocent callback a under handle h instead.
   */
  lemma {:induction false} WideHandleClosesAnother(a: Observer, b: Observer, h: nat) returns (events: seq<Event>)
    requires a != b && h < BLE_INVALID_ADVERTISING_HANDLE
    ensures events == [Start(a, Some(h)), Start(b, Some(h + 256)), Close(b)]
    ensures After(events, 2) == [Entry(h, a), Entry(h + 256, b)]
    ensures ObserverAt(After(events, 2), HandleFor(After(events, 2), b)) == Some(a)
    ensures After(events, 3) == [Entry(h + 256, b)]
  {
    events := [Start(a, Some(h)), Start(b, Some(h + 256)), Close(b)];
    StartAppends([], a, h);
    StartAppends([Entry(h, a)], b, h + 256);
    var es := [Entry(h, a), Entry(h + 256, b)];
    assert After(events, 1) == [Entry(h, a)];
    assert After(events, 2) == es;
    WideLeadsToFirst(es, a, b, h);
  }

  lemma {:induction false} WideLeadsToFirst(es: seq<Entry>, a: Observer, b: Observer, h: nat)
    requires a != b && h < BLE_INVALID_ADVERTISING_HANDLE && es == [Entry(h, a), Entry(h + 256, b)]
    ensures ObserverAt(es, HandleFor(es, b)) == Some(a)
    ensures Apply(es, Close(b)) == [Entry(h + 256, b)]
  {
    assert es[0] == Entry(h, a) && es[1] == Entry(h + 256, b);
    assert AtObserver(es, b) == 1;
    assert ToUint8(h + 256) == h;
    assert AtHandle(es, h) == 0 && AtObserver(es, a) == 0;
  }

  /** The handle of a registered callback leads back to it exactly when it fits into 8 bits. */
  lemma {:induction false} HandleRoundTripIff(es: seq<Entry>, p: nat)
    requires Inv(es) && p < |es|
    ensures ObserverAt(es, HandleFor(es, es[p].observer)) == Some(es[p].observer)
            <==> 0 <= es[p].handle < BLE_INVALID_ADVERTISING_HANDLE
  {
    assert AtObserver(es, es[p].observer) == p;
    var t := ToUint8(es[p].handle);
    if t == es[p].handle {
      assert AtHandle(es, t) == p;
    }
  }

  /** Deregistering a callback removes every trace of it and nothing else. */
  lemma {:induction false} DeregisterRemovesEveryTrace(es: seq<Entry>, observer: Observer)
    requires Inv(es)
    ensures forall e :: e in Without(es, AtObserver(es, observer)) <==> e in es && e.observer != observer
  {
    var p := AtObserver(es, observer);
    forall e | e in es && e.observer != observer
      ensures e in Without(es, p)
    {
      var i :| 0 <= i < |es| && es[i] == e;
      OthersStay(es, p, i);
    }
    forall e | e in Without(es, p)
      ensures e in es && e.observer != observer
    {
      var i := WithoutOrigin(es, p, e);
    }
  }

  lemma {:induction false} OthersStay(es: seq<Entry>, p: nat, i: nat)
    requires i < |es| && i != p
    ensures es[i] in Without(es, p)
  {
    if p < |es| {
      assert Without(es, p)[if i < p then i else i - 1] == es[i];
    }
  }

  lemma {:induction false} WithoutOrigin(es: seq<Entry>, p: nat, e: Entry) returns (i: nat)
    requires e in Without(es, p)
    ensures i < |es| && i != p && es[i] == e
  {
    var k :| 0 <= k < |Without(es, p)| && Without(es, p)[k] == e;
    i := if k < p then k else k + 1;
  }

  /** Closing a callback removes it exactly when its handle fits into 8 bits. */
  lemma {:induction false} CloseRemovesIff(es: seq<Entry>, p: nat)
    requires Inv(es) && p < |es|
    ensures AtObserver(Apply(es, Close(es[p].observer)), es[p].observer) == |Apply(es, Close(es[p].observer))|
            <==> 0 <= es[p].handle < BLE_INVALID_ADVERTISING_HANDLE
    ensures 0 <= es[p].handle < BLE_INVALID_ADVERTISING_HANDLE ==> Apply(es, Close(es[p].observer)) == Without(es, p)
  {
    var me := es[p].observer;
    assert AtObserver(es, me) == p;
    HandleRoundTripIff(es, p);
    var o := ObserverAt(es, HandleFor(es, me));
    var r := Apply(es, Close(me));
    if o == Some(me) {
      DeregisterRemovesEveryTrace(es, me);
      assert forall i :: 0 <= i < |r| ==> r[i] in r;
    } else if o.Some? {
      DeregisterRemovesEveryTrace(es, o.value);
      assert es[p] in r;
      var i :| 0 <= i < |r| && r[i] == es[p];
    }
  }

  // ------------------------------------------------------------------------------------------
  // What each call and callback does, entry by entry
  // ------------------------------------------------------------------------------------------

  /** A start enters a new callback under the granted handle, in the place of whichever was there. */
  lemma {:induction false} StartEffect(es: seq<Entry>, callback: Observer, granted: Option<int>, e: Entry)
    requires Inv(es)
    ensures (exists k :: 0 <= k < |es| && es[k].observer == callback) || granted.None? || granted.value == 255 ==>
              Apply(es, Start(callback, granted)) == es
    ensures (forall k :: 0 <= k < |es| ==> es[k].observer != callback) && granted.Some? && granted.value != 255 ==>
              (e in Apply(es, Start(callback, granted)) <==>
                 e == Entry(granted.value, callback) || (e in es && e.handle != granted.value))
  {
    if AtObserver(es, callback) == |es| && granted.Some? && granted.value != 255 {
      PutEffect(es, granted.value, callback, e);
    }
  }

  lemma {:induction false} PutEffect(es: seq<Entry>, handle: int, observer: Observer, e: Entry)
    requires Sorted(es)
    ensures e in Put(es, handle, observer) <==> e == Entry(handle, observer) || (e in es && e.handle != handle)
  {
    var r, p := Put(es, handle, observer), AtHandle(es, handle);
    if e in r {
      var i :| 0 <= i < |r| && r[i] == e;
      var k := PutOrigin(es, handle, observer, i);
    }
    if p < |es| {
      assert r[p] == Entry(handle, observer);
      forall i | 0 <= i < |es| && i != p
        ensures es[i] in r
      {
        assert r[i] == es[i];
      }
    } else {
      assert es == es[..Place(es, handle)] + es[Place(es, handle)..];
      assert r[Place(es, handle)] == Entry(handle, observer);
    }
  }

  /** A failed start and a stop remove the entry of the handle, cut to 8 bits, and nothing else. */
  lemma {:induction false} StopEffect(es: seq<Entry>, advHandle: int, e: Entry)
    requires Inv(es)
    ensures e in Apply(es, Stopped(advHandle)) <==> e in es && e.handle != advHandle % 256
    ensures e in Apply(es, StartFailed(advHandle)) <==> e in es && e.handle != advHandle % 256
  {
    RemoveAtEffect(es, AtHandle(es, advHandle % 256), e);
  }

  /** Removing one position removes its entry and no other. */
  lemma {:induction false} RemoveAtEffect(es: seq<Entry>, p: nat, e: Entry)
    requires Sorted(es)
    ensures e in Without(es, p) <==> e in es && (p < |es| ==> e.handle != es[p].handle)
  {
    if e in Without(es, p) {
      var i := WithoutOrigin(es, p, e);
    }
    if e in es && (p < |es| ==> e.handle != es[p].handle) {
      var i :| 0 <= i < |es| && es[i] == e;
      OthersStay(es, p, i);
    }
  }

  /** So does an automatic stop, and the death of the service empties the table. */
  lemma {:induction false} AutoStopEffect(es: seq<Entry>, advHandle: int, e: Entry)
    requires Inv(es)
    ensures e in Apply(es, AutoStopped(advHandle)) <==> e in es && e.handle != advHandle % 256
    ensures Apply(es, ServiceDied) == []
  {
    var p := AtHandle(es, advHandle % 256);
    if p < |es| {
      assert AtObserver(es, es[p].observer) == p;
    }
    RemoveAtEffect(es, p, e);
  }

  /** Closing removes whatever is under the handle of the callback, cut to 8 bits; an unknown callback removes nothing. */
  lemma {:induction false} CloseEffect(es: seq<Entry>, callback: Observer, e: Entry)
    requires Inv(es)
    ensures e in Apply(es, Close(callback)) <==>
              e in es && forall k :: 0 <= k < |es| && es[k].observer == callback ==> e.handle != es[k].handle % 256
  {
    var c := AtObserver(es, callback);
    var h := HandleFor(es, callback);
    var p := AtHandle(es, h);
    if p < |es| {
      assert AtObserver(es, es[p].observer) == p;
    }
    RemoveAtEffect(es, p, e);
    assert forall k :: 0 <= k < |es| && es[k].observer == callback ==> k == c;
  }

  /** Over every run in which the service grants handles from 0 to 254, a registered callback is found
      through its handle, and closing it removes it. */
  lemma {:induction false} RegisteredIsReachable(events: seq<Event>, n: nat, callback: Observer)
    requires n <= |events|
    requires forall i :: 0 <= i < |events| && events[i].Start? && events[i].granted.Some? ==>
                           0 <= events[i].granted.value <= BLE_INVALID_ADVERTISING_HANDLE
    requires AtObserver(After(events, n), callback) < |After(events, n)|
    ensures ObserverAt(After(events, n), HandleFor(After(events, n), callback)) == Some(callback)
    ensures AtObserver(Apply(After(events, n), Close(callback)), callback) == |Apply(After(events, n), Close(callback))|
  {
    var es := After(events, n);
    AlwaysBijective(events, n);
    GrantedRange(events, n);
    HandleRoundTripIff(es, AtObserver(es, callback));
    CloseRemovesIff(es, AtObserver(es, callback));
  }

  lemma {:induction false} GrantedRange(events: seq<Event>, n: nat)
    requires n <= |events|
    requires forall i :: 0 <= i < |events| && events[i].Start? && events[i].granted.Some? ==>
                           0 <= events[i].granted.value <= BLE_INVALID_ADVERTISING_HANDLE
    ensures forall i :: 0 <= i < |After(events, n)| ==> 0 <= After(events, n)[i].handle <= BLE_INVALID_ADVERTISING_HANDLE
  {
    if n > 0 {
      GrantedRange(events, n - 1);
      var es, e, r := After(events, n - 1), events[n - 1], After(events, n);
      forall i | 0 <= i < |r|
        ensures 0 <= r[i].handle <= BLE_INVALID_ADVERTISING_HANDLE
      {
        EntriesComeFrom(es, e, i);
      }
    }
  }

  lemma {:induction false} EntriesComeFrom(es: seq<Entry>, e: Event, i: nat)
    requires i < |Apply(es, e)|
    ensures (exists k :: 0 <= k < |es| && es[k] == Apply(es, e)[i])
            || (e.Start? && e.granted.Some? && Apply(es, e)[i].handle == e.granted.value)
  {
    if e.Start? {
      if Apply(es, e) != es {
        var k := PutOrigin(es, e.granted.value, e.callback, i);
      }
    } else if e.StartFailed? || e.Stopped? {
      var k := WithoutOrigin(es, AtHandle(es, ToUint8(e.advHandle)), Apply(es, e)[i]);
    } else if e.AutoStopped? || e.Close? {
      var o := ObserverAt(es, if e.AutoStopped? then ToUint8(e.advHandle) else HandleFor(es, e.callback));
      if o.Some? {
        var k := WithoutOrigin(es, AtObserver(es, o.value), Apply(es, e)[i]);
      }
    }
  }
}
