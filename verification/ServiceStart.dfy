/**
  Registration of profile functions against the start of the Bluetooth service.

  Any number of threads run RegisterFunc while the system-ability listener runs OnAddSystemAbility
  and OnRemoveSystemAbility, in any order and any number of times.  RegisterFunc inserts its function
  into the shared map, then reads the service flag, and if it is set looks up the remote object and
  calls the function.  OnAddSystemAbility sets the flag, opens the gate of the remote lookup, and
  iterates over the map calling every function.  Each of these is a separate step, except that the
  iteration holds the lock of the map, so nothing is inserted or erased while it runs.
 */
module ServiceStart {

  type Id = nat

  /** The names of remote objects: the Bluetooth host and its profiles. */
  datatype Name = BluetoothHost | Profile(n: nat)

  datatype Phase =
    | Numbered     // has its id
    | Inserted     // its function is in the map
    | FlagSeen     // read the service flag as set
    | HasRemote    // looked up the remote object and is about to call the function
    | Done
    | Deregistered

  datatype Registration = Registration(objectName: Name, phase: Phase)

  /** Where the listener is. */
  datatype Listener =
    | Idle
    | FlagSet                       // OnAdd, before the gate is opened
    | GateOpen                      // OnAdd, before the iteration
    | Iterating(pending: set<Id>)   // OnAdd, calling the functions of the map
    | CacheCleared                  // OnRemove, before the flag is cleared
    | FlagCleared                   // OnRemove, before the gate is opened again

  /**
    The remote objects: the gate of the lookup, the objects found so far, and whether the system ability
    manager would find the service.  hostMissing is history: since the gate was last opened by OnAdd a
    lookup found the service missing, which shuts the gate.
   */
  datatype Remotes = Remotes(gate: bool, cache: set<Name>, up: bool, hostMissing: bool)

  /**
    What happened since the flag was last set: how often each function ran, with any remote and with a
    remote object; the functions the iteration began with; and those for which an object was found, the
    ones whose call was still to come when the flag was set included.  noObject and shut are the functions
    for which a lookup found no object or met a shut gate since the gate was last opened by OnAdd.
   */
  datatype History = History(calls: map<Id, nat>, served: map<Id, nat>, iterated: set<Id>,
                             found: set<Id>, noObject: set<Id>, shut: set<Id>)

  datatype State = State(serviceOn: bool, remotes: Remotes, lastId: nat, regs: map<Id, Registration>,
                         functions: set<Id>, listener: Listener, history: History)

  function Start(): State {
    State(false, Remotes(true, {}, false, false), 0, map[], {}, Idle, History(map[], map[], {}, {}, {}, {}))
  }

  // ------------------------------------------------------------------------------------------
  // GetProfileRemote and GetHostRemote
  // ------------------------------------------------------------------------------------------

  datatype LookupResult = Found | GateShut | NoObject

  /** What a lookup meets outside: whether there is a system ability manager, and the host's answer. */
  datatype Answer = Answer(manager: bool, profileUp: bool)

  /** The lookup gets as far as asking the manager for the service, and it is not there. */
  predicate FindsHostMissing(r: Remotes, name: Name, answer: Answer) {
    name !in r.cache && BluetoothHost !in r.cache && r.gate && answer.manager && !r.up
  }

  function LookupOutcome(r: Remotes, name: Name, answer: Answer): LookupResult {
    if name in r.cache then Found
    else if BluetoothHost !in r.cache && !r.gate then GateShut
    else if BluetoothHost !in r.cache && (!answer.manager || !r.up) then NoObject
    else if name.Profile? && !answer.profileUp then NoObject
    else Found
  }

  /** A found object is cached; a service that is not there shuts the gate, a missing manager does not. */
  function AfterLookup(r: Remotes, name: Name, answer: Answer): Remotes {
    match LookupOutcome(r, name, answer)
    case Found => r.(cache := r.cache + {name})
    case GateShut => r
    case NoObject => if FindsHostMissing(r, name, answer) then r.(gate := false, hostMissing := true) else r
  }

  // ------------------------------------------------------------------------------------------
  // Steps
  // ------------------------------------------------------------------------------------------

  datatype Action =
    | TakeId(objectName: Name) | Insert(id: Id) | ReadFlag(id: Id)
    | LookUp(id: Id, answer: Answer) | CallFunction(id: Id) | Deregister(id: Id)
    | SetFlag | OpenGate | BeginIteration | Visit(id: Id, answer: Answer) | EndIteration
    | ClearCache | ClearFlag | ReopenGate
    | AbilityChanged(up: bool)
    | OtherLookUp(objectName: Name, answer: Answer)   // by any other call of the framework
    | LateInsert(objectName: Name)   // by a lookup that began before the cache was cleared

  predicate In(s: State, id: Id, phase: Phase) {
    id in s.regs && s.regs[id].phase == phase
  }

  predicate Enabled(s: State, a: Action) {
    match a
    case TakeId(_) => true
    case Insert(id) => In(s, id, Numbered) && !s.listener.Iterating?
    case ReadFlag(id) => In(s, id, Inserted)
    case LookUp(id, _) => In(s, id, FlagSeen)
    case CallFunction(id) => In(s, id, HasRemote)
    case Deregister(id) => In(s, id, Done) && !s.listener.Iterating?
    case SetFlag => s.listener.Idle?
    case OpenGate => s.listener.FlagSet?
    case BeginIteration => s.listener.GateOpen?
    case Visit(id, _) => s.listener.Iterating? && id in s.listener.pending && id in s.regs
    case EndIteration => s.listener.Iterating? && s.listener.pending == {}
    case ClearCache => s.listener.Idle?
    case ClearFlag => s.listener.CacheCleared?
    case ReopenGate => s.listener.FlagCleared?
    case AbilityChanged(_) => true
    case OtherLookUp(_, _) => true
    case LateInsert(_) => true
  }

  function Count(m: map<Id, nat>, id: Id): nat {
    if id in m then m[id] else 0
  }

  function Counted(m: map<Id, nat>, id: Id): map<Id, nat> {
    m[id := Count(m, id) + 1]
  }

  /** How often the function ran since the flag was last set, and how often with a remote object. */
  function CallsOf(s: State, id: Id): nat {
    Count(s.history.calls, id)
  }

  function ServedOf(s: State, id: Id): nat {
    Count(s.history.served, id)
  }

  function At(s: State, id: Id, phase: Phase): map<Id, Registration>
    requires id in s.regs
  {
    s.regs[id := s.regs[id].(phase := phase)]
  }

  function Outcome(s: State, id: Id, answer: Answer): LookupResult
    requires id in s.regs
  {
    LookupOutcome(s.remotes, s.regs[id].objectName, answer)
  }

  function Searched(s: State, id: Id, answer: Answer): Remotes
    requires id in s.regs
  {
    AfterLookup(s.remotes, s.regs[id].objectName, answer)
  }

  function Noted(h: History, id: Id, r: LookupResult): History {
    match r
    case Found => h.(found := h.found + {id})
    case GateShut => h.(shut := h.shut + {id})
    case NoObject => h.(noObject := h.noObject + {id})
  }

  /** The function runs; with a remote object unless the lookup for it failed. */
  function Ran(h: History, id: Id, withObject: bool): History {
    h.(calls := Counted(h.calls, id), served := if withObject then Counted(h.served, id) else h.served)
  }

  function Restarted(s: State): History {
    s.history.(calls := map[], served := map[], iterated := {}, found := set id | id in s.regs && In(s, id, HasRemote))
  }

  function Apply(s: State, a: Action): State
    requires Enabled(s, a)
  {
    match a
    case TakeId(name) => s.(lastId := s.lastId + 1, regs := s.regs[s.lastId + 1 := Registration(name, Numbered)])
    case Insert(id) => s.(regs := At(s, id, Inserted), functions := s.functions + {id})
    case ReadFlag(id) => s.(regs := At(s, id, if s.serviceOn then FlagSeen else Done))
    case LookUp(id, answer) =>
      var r := Outcome(s, id, answer);
      s.(remotes := Searched(s, id, answer), regs := At(s, id, if r.Found? then HasRemote else Done),
         history := Noted(s.history, id, r))
    case CallFunction(id) => s.(history := Ran(s.history, id, true), regs := At(s, id, Done))
    case Deregister(id) => s.(regs := At(s, id, Deregistered), functions := s.functions - {id})
    case SetFlag => s.(serviceOn := true, listener := FlagSet, history := Restarted(s))
    case OpenGate =>
      s.(remotes := s.remotes.(gate := true, hostMissing := false), listener := GateOpen,
         history := s.history.(noObject := {}, shut := {}))
    case BeginIteration => s.(listener := Iterating(s.functions), history := s.history.(iterated := s.functions))
    case Visit(id, answer) =>
      var r := Outcome(s, id, answer);
      s.(remotes := Searched(s, id, answer), listener := Iterating(s.listener.pending - {id}),
         history := Ran(Noted(s.history, id, r), id, r.Found?))
    case EndIteration => s.(listener := Idle)
    case ClearCache => s.(remotes := s.remotes.(cache := {}), listener := CacheCleared)
    case ClearFlag => s.(serviceOn := false, listener := FlagCleared)
    case ReopenGate => s.(remotes := s.remotes.(gate := true), listener := Idle)
    case AbilityChanged(up) => s.(remotes := s.remotes.(up := up))
    case OtherLookUp(name, answer) => s.(remotes := AfterLookup(s.remotes, name, answer))
    case LateInsert(name) => s.(remotes := s.remotes.(cache := s.remotes.cache + {name}))
  }

  ghost predicate IsRun(ss: seq<State>, actions: seq<Action>) {
    && |ss| == |actions| + 1 && ss[0] == Start()
    && (forall i :: 0 <= i < |actions| ==> Enabled(ss[i], actions[i]) && ss[i + 1] == Apply(ss[i], actions[i]))
  }

  // ------------------------------------------------------------------------------------------
  // What every step keeps
  // ------------------------------------------------------------------------------------------

  /** Ids are never given twice, and the map holds the functions of live registrations. */
  ghost predicate MapInv(s: State, id: Id) {
    && (id in s.regs ==> id <= s.lastId)
    && (id in s.functions <==> id in s.regs && !s.regs[id].phase.Numbered? && !s.regs[id].phase.Deregistered?)
    && (s.listener.Iterating? && id in s.listener.pending ==> id in s.functions)
    && (id in s.history.calls ==> id in s.regs)
  }

  /** From the opening of the gate on, until the flag is cleared, only a missing service shuts it. */
  ghost predicate GateInv(s: State) {
    && (s.listener.FlagSet? || s.listener.GateOpen? || s.listener.Iterating? ==> s.serviceOn)
    && (s.listener.FlagCleared? ==> !s.serviceOn)
    && (s.listener.GateOpen? || Started(s) ==> s.remotes.gate || s.remotes.hostMissing)
  }

  ghost predicate ShutInv(s: State, id: Id) {
    (s.listener.GateOpen? || Started(s)) && id in s.history.shut ==> s.remotes.hostMissing
  }

  /** The listener may have called this function since the flag was last set. */
  predicate Passed(s: State, id: Id) {
    match s.listener
    case FlagSet => false
    case GateOpen => false
    case Iterating(pending) => id !in pending
    case _ => true
  }

  /** RegisterFunc may have called this function. */
  predicate RanItself(s: State, id: Id) {
    In(s, id, Done) || In(s, id, Deregistered)
  }

  ghost predicate AtMostTwice(s: State, id: Id) {
    CallsOf(s, id) <= (if Passed(s, id) then 1 else 0) + (if RanItself(s, id) then 1 else 0)
  }

  /** The service has been on since its last start, and the functions have been or are being called. */
  predicate Started(s: State) {
    s.listener.Iterating? || (s.listener.Idle? && s.serviceOn)
  }

  predicate Awaiting(s: State, id: Id) {
    s.listener.Iterating? && id in s.listener.pending
  }

  /** Objects that were found and calls made with them belong together. */
  ghost predicate ServedInv(s: State, id: Id) {
    && (id in s.history.found <==> In(s, id, HasRemote) || ServedOf(s, id) >= 1)
    && ServedOf(s, id) <= CallsOf(s, id)
  }

  /** The functions of the iteration have been called or are about to be, and only those and the found ones. */
  ghost predicate CalledInv(s: State, id: Id) {
    && (Awaiting(s, id) ==> id in s.history.iterated)
    && (s.listener.FlagSet? || s.listener.GateOpen? ==> id !in s.history.iterated)
    && (Started(s) && id in s.history.iterated ==> CallsOf(s, id) >= 1 || Awaiting(s, id))
    && (CallsOf(s, id) >= 1 ==> ServedOf(s, id) >= 1 || id in s.history.iterated)
  }

  /** A registration that is through has been called with an object, is about to be, or was turned away. */
  ghost predicate NotMissed(s: State, id: Id) {
    Started(s) && In(s, id, Done) ==>
      ServedOf(s, id) >= 1 || Awaiting(s, id) || TurnedAway(s, id)
  }

  /** A lookup made for this function since the gate was opened found no object or met a shut gate. */
  predicate TurnedAway(s: State, id: Id) {
    id in s.history.noObject || id in s.history.shut
  }

  ghost predicate IdInv(s: State, id: Id) {
    MapInv(s, id) && ShutInv(s, id) && AtMostTwice(s, id) && ServedInv(s, id) && CalledInv(s, id) && NotMissed(s, id)
  }

  ghost predicate Inv(s: State) {
    GateInv(s) && forall id: Id :: IdInv(s, id)
  }

  predicate OfListener(a: Action) {
    !a.TakeId? && !a.Insert? && !a.ReadFlag? && !a.LookUp? && !a.CallFunction? && !a.Deregister?
  }

  /** Steps of the listener leave the registrations and the map alone. */
  lemma {:induction false} ListenerFrame(s: State, a: Action, id: Id)
    requires Enabled(s, a) && OfListener(a)
    ensures Apply(s, a).regs == s.regs && Apply(s, a).functions == s.functions && Apply(s, a).lastId == s.lastId
    ensures a.SetFlag? ==> CallsOf(Apply(s, a), id) == 0
    ensures CallsOf(Apply(s, a), id) <= CallsOf(s, id) + if a.Visit? && a.id == id then 1 else 0
    ensures id in Apply(s, a).history.calls ==> id in s.history.calls || (a.Visit? && a.id == id)
  {
  }

  /** A step of RegisterFunc or DeregisterFunc concerns one id and leaves the listener alone. */
  lemma {:induction false} RegistrationFrame(s: State, a: Action, id: Id)
    requires Enabled(s, a) && !OfListener(a)
    ensures Apply(s, a).listener == s.listener && Apply(s, a).serviceOn == s.serviceOn
    ensures CallsOf(Apply(s, a), id) == CallsOf(s, id) + (if a == CallFunction(id) then 1 else 0)
    ensures id in Apply(s, a).history.calls <==> id in s.history.calls || a == CallFunction(id)
    ensures Concerned(s, a) != id ==>
              && (id in Apply(s, a).regs <==> id in s.regs)
              && (id in s.regs ==> Apply(s, a).regs[id] == s.regs[id])
              && (id in Apply(s, a).functions <==> id in s.functions)
  {
  }

  function Concerned(s: State, a: Action): Id
    requires !OfListener(a)
  {
    if a.TakeId? then s.lastId + 1 else a.id
  }

  lemma {:induction false} StepKeepsMap(s: State, a: Action, id: Id)
    requires Enabled(s, a) && MapInv(s, id) && MapInv(s, s.lastId + 1)
    ensures MapInv(Apply(s, a), id)
  {
    if OfListener(a) {
      ListenerFrame(s, a, id);
    } else {
      RegistrationFrame(s, a, id);
    }
  }

  lemma {:induction false} StepKeepsGate(s: State, a: Action)
    requires Enabled(s, a) && GateInv(s)
    ensures GateInv(Apply(s, a))
  {
  }

  lemma {:induction false} StepKeepsShut(s: State, a: Action, id: Id)
    requires Enabled(s, a) && GateInv(s) && ShutInv(s, id)
    ensures ShutInv(Apply(s, a), id)
  {
  }

  lemma {:induction false} ListenerKeepsAtMostTwice(s: State, a: Action, id: Id)
    requires Enabled(s, a) && OfListener(a) && AtMostTwice(s, id)
    ensures AtMostTwice(Apply(s, a), id)
  {
    ListenerFrame(s, a, id);
  }

  lemma {:induction false} RegistrationKeepsAtMostTwice(s: State, a: Action, id: Id)
    requires Enabled(s, a) && !OfListener(a) && MapInv(s, id) && MapInv(s, s.lastId + 1) && AtMostTwice(s, id)
    ensures AtMostTwice(Apply(s, a), id)
  {
    RegistrationFrame(s, a, id);
  }

  lemma {:induction false} StepKeepsServed(s: State, a: Action, id: Id)
    requires Enabled(s, a) && MapInv(s, id) && MapInv(s, s.lastId + 1) && ServedInv(s, id)
    ensures ServedInv(Apply(s, a), id)
  {
  }

  lemma {:induction false} StepKeepsCalled(s: State, a: Action, id: Id)
    requires Enabled(s, a) && MapInv(s, id) && GateInv(s) && ServedInv(s, id) && CalledInv(s, id)
    ensures CalledInv(Apply(s, a), id)
  {
  }

  lemma {:induction false} StepKeepsNotMissed(s: State, a: Action, id: Id)
    requires Enabled(s, a) && MapInv(s, id) && GateInv(s) && NotMissed(s, id)
    ensures NotMissed(Apply(s, a), id)
  {
  }

  lemma {:induction false} StepKeepsIdInv(s: State, a: Action, id: Id)
    requires Enabled(s, a) && GateInv(s) && IdInv(s, id) && MapInv(s, s.lastId + 1)
    ensures IdInv(Apply(s, a), id)
  {
    StepKeepsMap(s, a, id);
    StepKeepsShut(s, a, id);
    if OfListener(a) {
      ListenerKeepsAtMostTwice(s, a, id);
    } else {
      RegistrationKeepsAtMostTwice(s, a, id);
    }
    StepKeepsServed(s, a, id);
    StepKeepsCalled(s, a, id);
    StepKeepsNotMissed(s, a, id);
  }

  lemma {:induction false} StepKeepsInv(s: State, a: Action)
    requires Enabled(s, a) && Inv(s)
    ensures Inv(Apply(s, a))
  {
    StepKeepsGate(s, a);
    assert IdInv(s, s.lastId + 1);
    forall id: Id
      ensures IdInv(Apply(s, a), id)
    {
      assert IdInv(s, id);
      StepKeepsIdInv(s, a, id);
    }
  }

  lemma {:induction false} RunKeepsInv(ss: seq<State>, actions: seq<Action>, n: nat)
    requires IsRun(ss, actions) && n < |ss|
    ensures Inv(ss[n])
  {
    if n > 0 {
      RunKeepsInv(ss, actions, n - 1);
      assert Enabled(ss[n - 1], actions[n - 1]) && ss[n - 1 + 1] == Apply(ss[n - 1], actions[n - 1]);
      StepKeepsInv(ss[n - 1], actions[n - 1]);
    }
  }

  /** The listener is through with a start and the service has stayed on; RegisterFunc has returned. */
  predicate Settled(s: State, id: Id) {
    s.listener.Idle? && s.serviceOn && In(s, id, Done)
  }

  /**
    No missed service start: in every interleaving a settled function ran at least once and at most twice
    for the start with a remote object, unless a lookup made for this very function since the gate was
    opened was turned away.  What happens to other lookups, or to its own before the gate was opened,
    does no harm.
   */
  lemma {:induction false} NoMissedStart(ss: seq<State>, actions: seq<Action>, n: nat, id: Id)
    requires IsRun(ss, actions) && n < |ss| && Settled(ss[n], id) && !TurnedAway(ss[n], id)
    ensures 1 <= ServedOf(ss[n], id) <= CallsOf(ss[n], id) <= 2
  {
    RunKeepsInv(ss, actions, n);
    assert IdInv(ss[n], id);
  }

  /**
    Exactly when a start is missed: a settled function never ran with a remote object if and only if no
    lookup for it found one and at least one was turned away.
   */
  lemma {:induction false} MissedExactly(ss: seq<State>, actions: seq<Action>, n: nat, id: Id)
    requires IsRun(ss, actions) && n < |ss| && Settled(ss[n], id)
    ensures ServedOf(ss[n], id) == 0 <==> id !in ss[n].history.found && TurnedAway(ss[n], id)
  {
    RunKeepsInv(ss, actions, n);
    assert IdInv(ss[n], id);
  }

  /**
    A settled function did not run at all, not even without an object, if and only if the iteration had
    begun without it and no lookup for it found an object.
   */
  lemma {:induction false} UncalledExactly(ss: seq<State>, actions: seq<Action>, n: nat, id: Id)
    requires IsRun(ss, actions) && n < |ss| && Settled(ss[n], id)
    ensures CallsOf(ss[n], id) == 0 <==> id !in ss[n].history.iterated && id !in ss[n].history.found
    ensures CallsOf(ss[n], id) == 0 ==> TurnedAway(ss[n], id)
  {
    RunKeepsInv(ss, actions, n);
    assert IdInv(ss[n], id);
  }

  /** As long as no lookup finds the service itself missing, no function meets a shut gate. */
  lemma {:induction false} ShutGateMeansMissingService(ss: seq<State>, actions: seq<Action>, n: nat, id: Id)
    requires IsRun(ss, actions) && n < |ss| && Settled(ss[n], id) && id in ss[n].history.shut
    ensures ss[n].remotes.hostMissing
  {
    RunKeepsInv(ss, actions, n);
    assert IdInv(ss[n], id);
  }

  // ------------------------------------------------------------------------------------------
  // What the surroundings must do
  // ------------------------------------------------------------------------------------------

  /** The action looks up the remote object for this function, and everything it asks answers. */
  predicate AnsweredFor(a: Action, id: Id) {
    (a.LookUp? || a.Visit?) && a.id == id ==> a.answer.manager && a.answer.profileUp
  }

  /** While a start is under way or done, the gate is open and no lookup for this function was turned away. */
  ghost predicate Welcome(s: State, id: Id) {
    s.listener.GateOpen? || Started(s) ==> s.remotes.gate && !TurnedAway(s, id)
  }

  lemma {:induction false} OpeningIsWelcome(s: State, id: Id)
    requires Enabled(s, OpenGate)
    ensures Welcome(Apply(s, OpenGate), id)
  {
  }

  lemma {:induction false} StepKeepsWelcome(s: State, a: Action, id: Id)
    requires Enabled(s, a) && GateInv(s) && Welcome(s, id) && s.remotes.up && AnsweredFor(a, id) && !a.OpenGate?
    ensures Welcome(Apply(s, a), id)
  {
  }

  /** Action o opened the gate; since then the service was there and every lookup for this function was answered. */
  ghost predicate Available(ss: seq<State>, actions: seq<Action>, o: nat, n: nat, id: Id)
    requires |ss| == |actions| + 1 && o < n < |ss|
  {
    && actions[o].OpenGate? && (forall j :: o < j < n ==> !actions[j].OpenGate?)
    && (forall j :: o < j < n ==> ss[j].remotes.up && AnsweredFor(actions[j], id))
  }

  lemma {:induction false} StaysWelcome(ss: seq<State>, actions: seq<Action>, o: nat, n: nat, id: Id)
    requires IsRun(ss, actions) && o < n < |ss| && Available(ss, actions, o, n, id)
    ensures Welcome(ss[n], id)
    decreases n
  {
    var m := n - 1;
    assert Enabled(ss[m], actions[m]) && ss[m + 1] == Apply(ss[m], actions[m]);
    if o == m {
      OpeningIsWelcome(ss[m], id);
    } else {
      StaysWelcome(ss, actions, o, m, id);
      RunKeepsInv(ss, actions, m);
      StepKeepsWelcome(ss[m], actions[m], id);
    }
  }

  /**
    No missed service start, by what the surroundings do: if the service is there from the last opening of
    the gate on, and the ability manager and the host answer every lookup made for this function since then,
    it ran once or twice for the start with a remote object.  What other lookups meet does not matter.
   */
  lemma {:induction false} AvailableServiceIsNotMissed(ss: seq<State>, actions: seq<Action>, o: nat, n: nat, id: Id)
    requires IsRun(ss, actions) && o < n < |ss| && Available(ss, actions, o, n, id) && Settled(ss[n], id)
    ensures 1 <= ServedOf(ss[n], id) <= CallsOf(ss[n], id) <= 2
  {
    StaysWelcome(ss, actions, o, n, id);
    NoMissedStart(ss, actions, n, id);
  }

  /** The lookup an action makes: by RegisterFunc, by the listener, or by anyone else. */
  function NameOf(s: State, a: Action): (name: Name)
    requires Enabled(s, a) && (a.LookUp? || a.Visit? || a.OtherLookUp?)
  {
    if a.OtherLookUp? then a.objectName else s.regs[a.id].objectName
  }

  /** Once found, an object is found by every lookup until the cache is cleared, whatever is answered. */
  lemma {:induction false} FoundStaysFound(ss: seq<State>, actions: seq<Action>, i: nat, n: nat, answer: Answer)
    requires IsRun(ss, actions) && i < n < |ss| && (actions[i].LookUp? || actions[i].Visit? || actions[i].OtherLookUp?)
    requires Enabled(ss[i], actions[i])
    requires LookupOutcome(ss[i].remotes, NameOf(ss[i], actions[i]), actions[i].answer) == Found
    requires forall j :: i < j < n ==> !actions[j].ClearCache?
    ensures NameOf(ss[i], actions[i]) in ss[n].remotes.cache
    ensures LookupOutcome(ss[n].remotes, NameOf(ss[i], actions[i]), answer) == Found
    decreases n
  {
    var m := n - 1;
    assert Enabled(ss[m], actions[m]) && ss[m + 1] == Apply(ss[m], actions[m]);
    if i < m {
      FoundStaysFound(ss, actions, i, m, answer);
      CacheGrows(ss[m], actions[m]);
    }
  }

  lemma {:induction false} CacheGrows(s: State, a: Action)
    requires Enabled(s, a) && !a.ClearCache?
    ensures s.remotes.cache <= Apply(s, a).remotes.cache
  {
  }

  /** Only a lookup that finds the service missing shuts the gate, and every one that asks for it does. */
  lemma {:induction false} GateShutsIff(s: State, a: Action)
    requires Enabled(s, a) && s.remotes.gate
    ensures !Apply(s, a).remotes.gate <==>
              (a.LookUp? || a.Visit? || a.OtherLookUp?) && a.answer.manager && !s.remotes.up
              && NameOf(s, a) !in s.remotes.cache && BluetoothHost !in s.remotes.cache
  {
  }

  /**
    While the gate is shut and nothing is cached, every lookup is turned away, even when the service is back,
    until the listener opens the gate.
   */
  lemma {:induction false} ShutGateStaysShut(ss: seq<State>, actions: seq<Action>, i: nat, n: nat, name: Name, answer: Answer)
    requires IsRun(ss, actions) && i <= n < |ss| && !ss[i].remotes.gate && ss[i].remotes.cache == {}
    requires forall j :: i <= j < n ==> !actions[j].OpenGate? && !actions[j].ReopenGate? && !actions[j].LateInsert?
    ensures !ss[n].remotes.gate && ss[n].remotes.cache == {}
    ensures LookupOutcome(ss[n].remotes, name, answer) == GateShut
    decreases n
  {
    if i < n {
      var m := n - 1;
      ShutGateStaysShut(ss, actions, i, m, name, answer);
      assert Enabled(ss[m], actions[m]) && ss[m + 1] == Apply(ss[m], actions[m]);
    }
  }

  /** Without a cached object a lookup needs the manager and the service, and for a profile also the host's answer. */
  lemma {:induction false} UncachedLookupNeedsAll(r: Remotes, name: Name, answer: Answer)
    requires r.cache == {} && r.gate
    ensures LookupOutcome(r, name, answer) == Found <==>
              answer.manager && r.up && (name == BluetoothHost || answer.profileUp)
  {
  }

  /** What the callbacks of the listener leave behind. */
  lemma {:induction false} ListenerEffects(s: State, a: Action)
    requires Enabled(s, a)
    ensures a.SetFlag? ==> Apply(s, a).serviceOn
    ensures a.ClearFlag? ==> !Apply(s, a).serviceOn
    ensures !a.SetFlag? && !a.ClearFlag? ==> Apply(s, a).serviceOn == s.serviceOn
    ensures a.OpenGate? || a.ReopenGate? ==> Apply(s, a).remotes.gate
    ensures a.ClearCache? ==> Apply(s, a).remotes.cache == {}
    ensures a.BeginIteration? ==> forall id :: Awaiting(Apply(s, a), id) <==> id in s.functions
    ensures a.EndIteration? ==> forall id :: !Awaiting(s, id)
  {
  }

  /** What each step of RegisterFunc and DeregisterFunc does. */
  lemma {:induction false} RegistrationEffects(s: State, a: Action, id: Id)
    requires Enabled(s, a)
    ensures a == Insert(id) ==> id in Apply(s, a).functions
    ensures a == Deregister(id) ==> id !in Apply(s, a).functions
    ensures a == ReadFlag(id) ==> if s.serviceOn then In(Apply(s, a), id, FlagSeen) else In(Apply(s, a), id, Done)
    ensures a.LookUp? && a.id == id && LookupOutcome(s.remotes, s.regs[id].objectName, a.answer) == Found ==>
              In(Apply(s, a), id, HasRemote)
    ensures a.LookUp? && a.id == id && LookupOutcome(s.remotes, s.regs[id].objectName, a.answer) != Found ==>
              In(Apply(s, a), id, Done) && CallsOf(Apply(s, a), id) == CallsOf(s, id)
    ensures a == CallFunction(id) ==>
              CallsOf(Apply(s, a), id) == CallsOf(s, id) + 1 && ServedOf(Apply(s, a), id) == ServedOf(s, id) + 1
    ensures a.Visit? && a.id == id ==> CallsOf(Apply(s, a), id) == CallsOf(s, id) + 1
  {
  }

  /** A deregistered function is not called for a later start. */
  lemma {:induction false} DeregisteredIsNotCalled(ss: seq<State>, actions: seq<Action>, i: nat, n: nat, id: Id)
    requires IsRun(ss, actions) && i < n < |ss| && actions[i].SetFlag? && In(ss[i], id, Deregistered)
    ensures In(ss[n], id, Deregistered) && CallsOf(ss[n], id) == 0
    decreases n
  {
    var m := n - 1;
    assert Enabled(ss[m], actions[m]) && ss[m + 1] == Apply(ss[m], actions[m]);
    RunKeepsInv(ss, actions, m);
    assert IdInv(ss[m], id) && IdInv(ss[m], ss[m].lastId + 1);
    if i < m {
      DeregisteredIsNotCalled(ss, actions, i, m, id);
    }
    DeregisteredStep(ss[m], actions[m], id);
  }

  lemma {:induction false} DeregisteredStep(s: State, a: Action, id: Id)
    requires Enabled(s, a) && In(s, id, Deregistered) && MapInv(s, id) && MapInv(s, s.lastId + 1)
    requires a.SetFlag? || CallsOf(s, id) == 0
    ensures In(Apply(s, a), id, Deregistered) && CallsOf(Apply(s, a), id) == 0
  {
  }

  /** In every state of every interleaving, with any lookups failing, no function has run more than twice
      since the flag was last set, runs without a remote object included, and ids are not shared. */
  lemma {:induction false} NeverMoreThanTwice(ss: seq<State>, actions: seq<Action>, n: nat, id: Id)
    requires IsRun(ss, actions) && n < |ss|
    ensures CallsOf(ss[n], id) <= 2
    ensures n > 0 && actions[n - 1].TakeId? ==> ss[n].lastId !in ss[n - 1].regs
  {
    RunKeepsInv(ss, actions, n);
    assert IdInv(ss[n], id);
    if n > 0 {
      RunKeepsInv(ss, actions, n - 1);
      assert IdInv(ss[n - 1], ss[n - 1].lastId + 1);
      assert ss[n - 1 + 1] == Apply(ss[n - 1], actions[n - 1]);
    }
  }

  /** A lookup that finds no object after the iteration leaves its function uncalled. */
  lemma {:induction false} NullLookupMissesStart() returns (ss: seq<State>, actions: seq<Action>)
    ensures IsRun(ss, actions)
    ensures Settled(ss[|actions|], 1) && CallsOf(ss[|actions|], 1) == 0
  {
    ss, actions := StartAlone();
    ss, actions := Extend(ss, actions, TakeId(Profile(0)));
    ss, actions := Extend(ss, actions, Insert(1));
    ss, actions := Extend(ss, actions, ReadFlag(1));
    ss, actions := Extend(ss, actions, LookUp(1, Answer(true, false)));
  }

  /** A start with nothing registered. */
  lemma {:induction false} StartAlone() returns (ss: seq<State>, actions: seq<Action>)
    ensures IsRun(ss, actions) && ss[|actions|] == Start().(serviceOn := true)
  {
    ss, actions := [Start()], [];
    ss, actions := Extend(ss, actions, SetFlag);
    ss, actions := Extend(ss, actions, OpenGate);
    ss, actions := Extend(ss, actions, BeginIteration);
    ss, actions := Extend(ss, actions, EndIteration);
    var h := ss[|actions|].history;
    assert h.found == {} && h.iterated == {};
  }

  lemma {:induction false} Extend(ss: seq<State>, actions: seq<Action>, a: Action)
    returns (ss': seq<State>, actions': seq<Action>)
    requires IsRun(ss, actions) && Enabled(ss[|actions|], a)
    ensures IsRun(ss', actions') && |actions'| == |actions| + 1
    ensures ss'[|actions'|] == Apply(ss[|actions|], a)
  {
    ss', actions' := ss + [Apply(ss[|actions|], a)], actions + [a];
  }
}
