/**
  The id map of the C adapter: objects under small numbers, with two ways to choose the number.
 */
module ObjectMap {
  import opened Basics

  /** The next number of the counter, which starts over after maxSize. */
  function NextId(objectIncrease: int, maxSize: int): int {
    if objectIncrease > maxSize then 1 else objectIncrease
  }

  class BluetoothObjectMap<T> {
    const maxSize: int
    var objectsMap: map<int, T>
    var objectIncrease: int

    ghost predicate Valid()
      reads this
    {
      1 <= maxSize && 1 <= objectIncrease <= maxSize + 1
    }

    ghost function State(): Table<T>
      reads this
    {
      Table(objectsMap, objectIncrease)
    }

    constructor (maxSize: int)
      requires 1 <= maxSize
      ensures Valid() && this.maxSize == maxSize && objectsMap == map[] && objectIncrease == 1
    {
      this.maxSize := maxSize;
      objectsMap := map[];
      objectIncrease := 1;
    }

    /** The insertion leaves an object already under the number in place. */
    method AddObject(object_: T) returns (id: int)
      requires Valid()
      modifies this
      ensures Valid() && State() == Step(old(State()), Add(object_), maxSize)
      ensures id == IdGiven(old(State()), maxSize) && 1 <= id <= maxSize
    {
      if objectIncrease > maxSize {
        objectIncrease := 1;
      }
      if objectIncrease !in objectsMap {
        objectsMap := objectsMap[objectIncrease := object_];
      }
      id := objectIncrease;
      objectIncrease := objectIncrease + 1;
    }

    method RemoveObject(objectId: int)
      requires Valid()
      modifies this`objectsMap
      ensures Valid() && State() == Step(old(State()), Remove(objectId), maxSize)
    {
      objectsMap := objectsMap - {objectId};
    }

    method RemoveAllObject()
      requires Valid()
      modifies this`objectsMap
      ensures Valid() && State() == Step(old(State()), RemoveAll, maxSize)
    {
      objectsMap := map[];
    }

    method GetObject(objectId: int) returns (r: Option<T>)
      ensures r == if objectId in objectsMap then Some(objectsMap[objectId]) else None
    {
      return if objectId in objectsMap then Some(objectsMap[objectId]) else None;
    }

    /** -1 exactly when the numbers 1 to maxSize - 1 are all taken, otherwise the lowest free one. */
    method AddLimitedObject(object_: T) returns (id: int)
      requires Valid()
      modifies this`objectsMap
      ensures Valid() && State() == Step(old(State()), AddLimited(object_), maxSize)
      ensures id == LimitedId(old(State()), maxSize)
      ensures id == -1 <==> forall k :: 1 <= k < maxSize ==> k in old(objectsMap)
      ensures id == -1 ==> objectsMap == old(objectsMap)
      ensures id != -1 ==> 1 <= id < maxSize && id !in old(objectsMap) && objectsMap == old(objectsMap)[id := object_]
                           && forall k :: 1 <= k < id ==> k in old(objectsMap)
    {
      var i := 1;
      while i < maxSize
        invariant 1 <= i <= maxSize && forall k :: 1 <= k < i ==> k in objectsMap
        invariant LowestFree(objectsMap, 1, maxSize) == LowestFree(objectsMap, i, maxSize)
      {
        if i !in objectsMap {
          break;
        }
        i := i + 1;
      }
      if i == maxSize {
        return -1;
      }
      objectsMap := objectsMap[i := object_];
      return i;
    }
  }

  // ------------------------------------------------------------------------------------------
  // Runs
  // ------------------------------------------------------------------------------------------

  datatype Event<T> = Add(object_: T) | AddLimited(object_: T) | Remove(id: int) | RemoveAll

  datatype Table<T> = Table(objects: map<int, T>, next: int)

  function IdGiven<T>(t: Table<T>, maxSize: int): int {
    NextId(t.next, maxSize)
  }

  /** The lowest free number from i on and below maxSize, or -1. */
  function LowestFree<T>(objects: map<int, T>, i: int, maxSize: int): int
    decreases maxSize - i
  {
    if i >= maxSize then -1 else if i !in objects then i else LowestFree(objects, i + 1, maxSize)
  }

  function LimitedId<T>(t: Table<T>, maxSize: int): int {
    LowestFree(t.objects, 1, maxSize)
  }

  function Step<T>(t: Table<T>, e: Event<T>, maxSize: int): Table<T> {
    match e
    case Add(o) =>
      var id := IdGiven(t, maxSize);
      Table(if id in t.objects then t.objects else t.objects[id := o], id + 1)
    case AddLimited(o) =>
      var id := LimitedId(t, maxSize);
      if id == -1 then t else t.(objects := t.objects[id := o])
    case Remove(id) => t.(objects := t.objects - {id})
    case RemoveAll => t.(objects := map[])
  }

  function After<T>(events: seq<Event<T>>, n: nat, maxSize: int): Table<T>
    requires n <= |events|
  {
    if n == 0 then Table(map[], 1) else Step(After(events, n - 1, maxSize), events[n - 1], maxSize)
  }

  function Additions<T>(events: seq<Event<T>>, n: nat): nat
    requires n <= |events|
  {
    if n == 0 then 0 else Additions(events, n - 1) + if events[n - 1].Add? then 1 else 0
  }

  /** AddLimitedObject has given out this number. */
  ghost predicate GivenLimited<T>(events: seq<Event<T>>, n: nat, maxSize: int, id: int)
    requires n <= |events|
  {
    exists i :: 0 <= i < n && events[i].AddLimited? && LimitedId(After(events, i, maxSize), maxSize) == id
  }

  /**
    Before the counter has gone round, the numbers in use are below the one to be given next, except those
    that AddLimitedObject gave out.
   */
  lemma {:induction false} FirstLap<T>(events: seq<Event<T>>, n: nat, maxSize: int)
    requires n <= |events| && 1 <= maxSize && Additions(events, n) < maxSize
    ensures After(events, n, maxSize).next == Additions(events, n) + 1
    ensures forall id :: id in After(events, n, maxSize).objects ==>
                           1 <= id <= Additions(events, n) || GivenLimited(events, n, maxSize, id)
  {
    if n > 0 {
      FirstLap(events, n - 1, maxSize);
      var t := After(events, n - 1, maxSize);
      forall id | id in After(events, n, maxSize).objects
        ensures 1 <= id <= Additions(events, n) || GivenLimited(events, n, maxSize, id)
      {
        if id in t.objects {
          assert 1 <= id <= Additions(events, n - 1) || GivenLimited(events, n - 1, maxSize, id);
        }
      }
    }
  }

  /**
    The number returned by an addition leads to its object exactly when the number was free, or already
    stood for an equal object; in particular it does for each of the first maxSize additions whose number
    AddLimitedObject has not given out.
   */
  lemma {:induction false} AddYieldsObjectIff<T>(events: seq<Event<T>>, n: nat, maxSize: int)
    requires n < |events| && events[n].Add? && 1 <= maxSize
    ensures var t, t' := After(events, n, maxSize), After(events, n + 1, maxSize);
            var id := IdGiven(t, maxSize);
            && id in t'.objects
            && (t'.objects[id] == events[n].object_ <==> id !in t.objects || t.objects[id] == events[n].object_)
    ensures Additions(events, n) < maxSize && !GivenLimited(events, n, maxSize, Additions(events, n) + 1) ==>
              var id := IdGiven(After(events, n, maxSize), maxSize);
              id in After(events, n + 1, maxSize).objects && After(events, n + 1, maxSize).objects[id] == events[n].object_
  {
    if Additions(events, n) < maxSize {
      FirstLap(events, n, maxSize);
    }
  }

  /** What each call does to the numbers in use. */
  lemma {:induction false} StepEffects<T>(t: Table<T>, e: Event<T>, maxSize: int, id: int)
    requires 1 <= maxSize && 1 <= t.next <= maxSize + 1
    ensures e == Remove(id) ==> id !in Step(t, e, maxSize).objects
    ensures e.Remove? && e.id != id ==> (id in Step(t, e, maxSize).objects <==> id in t.objects)
    ensures e.RemoveAll? ==> id !in Step(t, e, maxSize).objects
    ensures id in t.objects && id in Step(t, e, maxSize).objects ==> Step(t, e, maxSize).objects[id] == t.objects[id]
    ensures e.Add? || e.AddLimited? ==> (id in t.objects ==> id in Step(t, e, maxSize).objects)
    ensures Step(t, e, maxSize).next == if !e.Add? then t.next else if t.next <= maxSize then t.next + 1 else 2
  {
    if e.AddLimited? {
      LimitedIsFree(t.objects, 1, maxSize);
    }
  }

  lemma {:induction false} LimitedIsFree<T>(objects: map<int, T>, i: int, maxSize: int)
    requires 0 <= i
    ensures LowestFree(objects, i, maxSize) != -1 ==> LowestFree(objects, i, maxSize) !in objects
    decreases maxSize - i
  {
    if i < maxSize && i in objects {
      LimitedIsFree(objects, i + 1, maxSize);
    }
  }

  /** The two ways of adding get into each other's way even before that. */
  lemma {:induction false} LimitedTakesTheNumber(a: nat, b: nat) returns (events: seq<Event<nat>>)
    ensures events == [AddLimited(a), Add(b)]
    ensures IdGiven(After(events, 1, 2), 2) == 1 && After(events, 2, 2).objects == map[1 := a]
  {
    events := [AddLimited(a), Add(b)];
    assert After(events, 1, 2) == Table(map[1 := a], 1);
  }

  /** After a lap the counter meets a number still in use: the third object gets the number of the first. */
  lemma {:induction false} LapKeepsTheOldObject() returns (events: seq<Event<nat>>)
    ensures events == [Add(10), Add(20), Add(30)]
    ensures IdGiven(After(events, 2, 2), 2) == 1 && After(events, 3, 2).objects == map[1 := 10, 2 := 20]
  {
    events := [Add(10), Add(20), Add(30)];
    assert After(events, 1, 2) == Table(map[1 := 10], 2);
    assert After(events, 2, 2) == Table(map[1 := 10, 2 := 20], 3);
  }
}
