/**
  The request side of the GATT client: one confirmed request at a time.

  The client keeps a busy flag and the type of the last request; the completion callbacks of the
  stack clear the flag and use the type to choose the application callback.  Every request holds the
  connection and request locks while it talks to the stack.  One call or one callback is taken as one
  step; the connection-state callback in fact has three critical sections, and what can happen between
  them is the subject of module Discovery.  What the stack answers is an input.
 */
module GattClientRequests {
  import opened Basics

  datatype Connection = Connecting | Connected | Disconnecting | Disconnected

  /** The request types that wait for a completion. */
  datatype Kind = CharacteristicRead | CharacteristicWrite | DescriptorRead | DescriptorWrite | SetNotify

  /** The completion callbacks of the stack. */
  datatype Callback = OnCharacteristicRead | OnCharacteristicWrite | OnDescriptorRead | OnDescriptorWrite

  /** The results an application receives. */
  datatype Result = CharacteristicReadResult | CharacteristicWriteResult | DescriptorReadResult | DescriptorWriteResult
                  | NotificationSet

  datatype WriteType = Default | NoResponse | Signed

  datatype Request =
    | ReadCharacteristicCall
    | ReadCharacteristicByUuidCall
    | ReadDescriptorCall
    | WriteDescriptorCall(hasValue: bool)
    | WriteCharacteristicCall(writeType: WriteType, hasValue: bool)
    | SetNotifyCall(notified: bool, hasDescriptor: bool)

  /** The callback by which the stack completes a request that it has accepted, if it completes it. */
  function CompletedBy(r: Request): Option<Callback> {
    match r
    case ReadCharacteristicCall => Some(OnCharacteristicRead)
    case ReadCharacteristicByUuidCall => Some(OnCharacteristicRead)
    case ReadDescriptorCall => Some(OnDescriptorRead)
    case WriteDescriptorCall(_) => Some(OnDescriptorWrite)
    case WriteCharacteristicCall(Default, _) => Some(OnCharacteristicWrite)
    case WriteCharacteristicCall(_, _) => None
    case SetNotifyCall(_, true) => Some(OnDescriptorWrite)   // the configuration descriptor is written
    case SetNotifyCall(_, false) => None
  }

  /** The result the application waits for. */
  function Wanted(r: Request): Option<Result> {
    match r
    case ReadCharacteristicCall => Some(CharacteristicReadResult)
    case ReadCharacteristicByUuidCall => Some(CharacteristicReadResult)
    case ReadDescriptorCall => Some(DescriptorReadResult)
    case WriteDescriptorCall(_) => Some(DescriptorWriteResult)
    case WriteCharacteristicCall(writeType, _) => if writeType == Default then Some(CharacteristicWriteResult) else None
    case SetNotifyCall(_, hasDescriptor) => if hasDescriptor then Some(NotificationSet) else None
  }

  /** What a call finds around it: the adapter switch, the proxy, and the stack's answer. */
  datatype Env = Env(bleOn: bool, proxy: bool, accepted: bool)

  datatype Code = NoError | InvalidState | NotEstablished | ConnectStateError | InvalidParam | InternalError | Busy | Rejected

  datatype Client = Client(connection: Connection, registered: bool, doing: bool, kind: Kind, discovering: bool)

  /** The first check that turns a call away before the request reaches the stack. */
  function Barrier(c: Client, r: Request, env: Env): Option<Code> {
    if !env.bleOn then Some(InvalidState)
    else if c.connection != Connected then Some(NotEstablished)
    else match r {
      case WriteCharacteristicCall(_, hasValue) =>
        if !hasValue then Some(InvalidParam) else if c.doing then Some(Busy)
        else if !env.proxy then Some(InternalError) else None
      case SetNotifyCall(notified, _) =>
        if !env.proxy then Some(InternalError) else if !notified then Some(Rejected)
        else if c.doing then Some(Busy) else None
      case _ =>
        if !c.registered then Some(NotEstablished)
        else if r == WriteDescriptorCall(false) then Some(InternalError)
        else if c.doing then Some(Busy)
        else if !env.proxy then Some(InternalError) else None
    }
  }

  /** The type under which a call that passed the barrier waits for its completion, if it does. */
  function Confirmed(r: Request): Option<Kind> {
    match r
    case ReadCharacteristicCall => Some(CharacteristicRead)
    case ReadCharacteristicByUuidCall => Some(CharacteristicRead)
    case ReadDescriptorCall => Some(DescriptorRead)
    case WriteDescriptorCall(_) => Some(DescriptorWrite)
    case WriteCharacteristicCall(writeType, _) => if writeType == Default then Some(CharacteristicWrite) else None
    case SetNotifyCall(_, hasDescriptor) => if hasDescriptor then Some(SetNotify) else None
  }

  /** The confirmed request that the stack now holds because of the call. */
  function Issued(c: Client, r: Request, env: Env): Option<Kind> {
    if Barrier(c, r, env).None? && env.accepted then Confirmed(r) else None
  }

  function AfterCall(c: Client, r: Request, env: Env): Client {
    match Issued(c, r, env)
    case Some(kind) => c.(doing := true, kind := kind)
    case None =>
      if Barrier(c, r, env).None? && r.WriteCharacteristicCall? && r.writeType != Signed
      then c.(kind := CharacteristicWrite) else c
  }

  function CallCode(c: Client, r: Request, env: Env): Code {
    if Barrier(c, r, env).Some? then Barrier(c, r, env).value
    else if env.accepted || (r.SetNotifyCall? && !r.hasDescriptor) then NoError else Rejected
  }

  class GattClient {
    var connectionState: Connection
    var isRegisterSucceeded: bool
    var doing: bool
    var requestType: Kind
    var isDiscovering: bool

    ghost function State(): Client
      reads this
    {
      Client(connectionState, isRegisterSucceeded, doing, requestType, isDiscovering)
    }

    constructor ()
      ensures State() == Start()
    {
      connectionState := Disconnected;
      isRegisterSucceeded := false;
      doing := false;
      requestType := CharacteristicRead;
      isDiscovering := false;
    }

    /** ReadCharacteristic, ReadCharacteristicByUuid, ReadDescriptor and WriteDescriptor. */
    method SimpleRequest(r: Request, env: Env) returns (code: Code)
      requires !r.WriteCharacteristicCall? && !r.SetNotifyCall?
      modifies this`doing, this`requestType
      ensures State() == AfterCall(old(State()), r, env)
      ensures code == CallCode(old(State()), r, env)
    {
      if !env.bleOn {
        return InvalidState;
      }
      if connectionState != Connected || !isRegisterSucceeded {
        return NotEstablished;
      }
      if r == WriteDescriptorCall(false) {
        return InternalError;
      }
      if doing {
        return Busy;
      }
      if !env.proxy {
        return InternalError;
      }
      if env.accepted {
        doing := true;
        requestType := match r
          case ReadDescriptorCall => DescriptorRead
          case WriteDescriptorCall(_) => DescriptorWrite
          case _ => CharacteristicRead;
        return NoError;
      }
      return Rejected;
    }

    /** The flag is raised before the stack is called and taken back when it refuses. */
    method WriteCharacteristic(writeType: WriteType, hasValue: bool, env: Env) returns (code: Code)
      modifies this`doing, this`requestType
      ensures State() == AfterCall(old(State()), WriteCharacteristicCall(writeType, hasValue), env)
      ensures code == CallCode(old(State()), WriteCharacteristicCall(writeType, hasValue), env)
    {
      if !env.bleOn {
        return InvalidState;
      }
      if connectionState != Connected {
        return NotEstablished;
      }
      if !hasValue {
        return InvalidParam;
      }
      if doing {
        return Busy;
      }
      if !env.proxy {
        return InternalError;
      }
      if writeType != Signed {
        var withoutRespond := writeType != Default;
        requestType := CharacteristicWrite;
        doing := !withoutRespond;
      }
      if !env.accepted {
        doing := false;
        return Rejected;
      }
      return NoError;
    }

    method SetNotifyCharacteristicInner(notified: bool, hasDescriptor: bool, env: Env) returns (code: Code)
      modifies this`doing, this`requestType
      ensures State() == AfterCall(old(State()), SetNotifyCall(notified, hasDescriptor), env)
      ensures code == CallCode(old(State()), SetNotifyCall(notified, hasDescriptor), env)
    {
      if !env.bleOn {
        return InvalidState;
      }
      if connectionState != Connected {
        return NotEstablished;
      }
      if !env.proxy {
        return InternalError;
      }
      if !notified {
        return Rejected;
      }
      if doing {
        return Busy;
      }
      if !hasDescriptor {
        return NoError;
      }
      if env.accepted {
        requestType := SetNotify;
        doing := true;
        return NoError;
      }
      return Rejected;
    }

    /** The result passed on to the application, if the callback is the expected one. */
    method OnCompletion(callback: Callback) returns (delivered: Option<Result>)
      modifies this`doing
      ensures State() == Completed(old(State()))
      ensures delivered == DeliveredBy(old(State()), callback)
    {
      doing := false;
      match callback {
        case OnCharacteristicRead =>
          return if requestType == CharacteristicRead then Some(CharacteristicReadResult) else None;
        case OnCharacteristicWrite =>
          return if requestType == CharacteristicWrite then Some(CharacteristicWriteResult) else None;
        case OnDescriptorRead =>
          return if requestType == DescriptorRead then Some(DescriptorReadResult) else None;
        case OnDescriptorWrite =>
          if requestType == DescriptorWrite {
            return Some(DescriptorWriteResult);
          } else if requestType == SetNotify {
            return Some(NotificationSet);
          }
          return None;
      }
    }

    method OnConnectionStateChanged(newState: Connection)
      modifies this`connectionState, this`doing, this`isDiscovering
      ensures State() == ConnectionSet(old(State()), newState)
    {
      if newState == Disconnected {
        var _ := DiscoverComplete();
        doing := false;
      }
      connectionState := newState;
    }

    /** Whether the completion is reported to the application. */
    method DiscoverComplete() returns (reported: bool)
      modifies this`isDiscovering
      ensures reported == old(isDiscovering) && !isDiscovering
    {
      reported := isDiscovering;
      isDiscovering := false;
    }

    /** A call that finds a discovery under way waits for it and gives up, as the wait times out. */
    method DiscoverServices(env: Env) returns (code: Code)
      modifies this`isDiscovering
      ensures State() == DiscoverySet(old(State()), env)
      ensures code == DiscoveryCode(old(State()), env)
    {
      if !env.bleOn {
        return InvalidState;
      }
      if connectionState != Connected {
        return ConnectStateError;
      }
      if isDiscovering {
        return InternalError;
      }
      isDiscovering := true;
      if !isRegisterSucceeded {
        return InternalError;
      }
      if !env.proxy {
        return InternalError;
      }
      if !env.accepted {
        var _ := DiscoverComplete();
        return Rejected;
      }
      return NoError;
    }
  }

  function Start(): Client {
    Client(Disconnected, false, false, CharacteristicRead, false)
  }

  function Completed(c: Client): Client {
    c.(doing := false)
  }

  function DeliveredBy(c: Client, callback: Callback): Option<Result> {
    match (callback, c.kind)
    case (OnCharacteristicRead, CharacteristicRead) => Some(CharacteristicReadResult)
    case (OnCharacteristicWrite, CharacteristicWrite) => Some(CharacteristicWriteResult)
    case (OnDescriptorRead, DescriptorRead) => Some(DescriptorReadResult)
    case (OnDescriptorWrite, DescriptorWrite) => Some(DescriptorWriteResult)
    case (OnDescriptorWrite, SetNotify) => Some(NotificationSet)
    case _ => None
  }

  function ConnectionSet(c: Client, newState: Connection): Client {
    if newState == Disconnected then c.(connection := Disconnected, doing := false, discovering := false)
    else c.(connection := newState)
  }

  function DiscoverySet(c: Client, env: Env): Client {
    if env.bleOn && c.connection == Connected && !c.discovering
       && (!c.registered || !env.proxy || env.accepted) then c.(discovering := true) else c
  }

  function DiscoveryCode(c: Client, env: Env): Code {
    if !env.bleOn then InvalidState
    else if c.connection != Connected then ConnectStateError
    else if c.discovering || !c.registered || !env.proxy then InternalError
    else if !env.accepted then Rejected else NoError
  }

  /** A failing DiscoverServices leaves a new mark behind exactly when it could not ask the stack at all. */
  lemma {:induction false} FailureLeavesMarkIff(c: Client, env: Env)
    ensures DiscoveryCode(c, env) != NoError && !c.discovering && DiscoverySet(c, env).discovering
            <==> env.bleOn && c.connection == Connected && !c.discovering && (!c.registered || !env.proxy)
    ensures DiscoveryCode(c, env) == NoError <==> !c.discovering && DiscoverySet(c, env).discovering && c.registered && env.proxy
  {
  }

  // ------------------------------------------------------------------------------------------
  // Single calls
  // ------------------------------------------------------------------------------------------

  /** A call reaches the stack exactly when all of this holds, whatever is checked first. */
  lemma {:induction false} ReachesStackIff(c: Client, r: Request, env: Env)
    ensures Barrier(c, r, env).None? <==>
              && env.bleOn && c.connection == Connected && !c.doing && env.proxy
              && (r.WriteCharacteristicCall? || r.SetNotifyCall? || c.registered)
              && (r.WriteCharacteristicCall? || r.WriteDescriptorCall? ==> r.hasValue)
              && (r.SetNotifyCall? ==> r.notified)
  {
  }

  /** Success and busyness, as the application sees them. */
  lemma {:induction false} CodesMean(c: Client, r: Request, env: Env)
    ensures CallCode(c, r, env) == NoError <==>
              Barrier(c, r, env).None? && (env.accepted || (r.SetNotifyCall? && !r.hasDescriptor))
    ensures CallCode(c, r, env) == Busy ==> c.doing && c.connection == Connected
    ensures c.doing ==> CallCode(c, r, env) != NoError
    ensures CallCode(c, r, env) == InvalidState <==> !env.bleOn
    ensures CallCode(c, r, env) == NotEstablished <==>
              env.bleOn && (c.connection != Connected || (!r.WriteCharacteristicCall? && !r.SetNotifyCall? && !c.registered))
    ensures CallCode(c, r, env) == InvalidParam <==>
              env.bleOn && c.connection == Connected && r.WriteCharacteristicCall? && !r.hasValue
    ensures CallCode(c, r, env) == InternalError ==> !env.proxy || r == WriteDescriptorCall(false)
    ensures CallCode(c, r, env) == Rejected <==>
              (Barrier(c, r, env).None? && !env.accepted && (r.SetNotifyCall? ==> r.hasDescriptor))
              || (env.bleOn && c.connection == Connected && env.proxy && r.SetNotifyCall? && !r.notified)
    ensures CallCode(c, r, env) != ConnectStateError
  {
  }

  /** The codes of DiscoverServices, and that a refusal takes the mark back. */
  lemma {:induction false} DiscoveryCodesMean(c: Client, env: Env)
    ensures DiscoveryCode(c, env) == InvalidState <==> !env.bleOn
    ensures DiscoveryCode(c, env) == ConnectStateError <==> env.bleOn && c.connection != Connected
    ensures DiscoveryCode(c, env) == InternalError <==>
              env.bleOn && c.connection == Connected && (c.discovering || !c.registered || !env.proxy)
    ensures DiscoveryCode(c, env) == Rejected ==>
              !env.accepted && DiscoverySet(c, env) == c && !c.discovering
    ensures DiscoverySet(c, env) == c.(discovering := DiscoverySet(c, env).discovering)
  {
  }

  /** The type recorded for an accepted request makes the stack's callback deliver the wanted result. */
  lemma {:induction false} AcceptedIsDelivered(c: Client, r: Request, env: Env)
    requires Barrier(c, r, env).None? && env.accepted
    ensures Issued(c, r, env).Some? <==> CompletedBy(r).Some?
    ensures CompletedBy(r).Some? <==> Wanted(r).Some?
    ensures CompletedBy(r).Some? ==>
              AfterCall(c, r, env).doing && DeliveredBy(AfterCall(c, r, env), CompletedBy(r).value) == Wanted(r)
    ensures CompletedBy(r).None? ==> !AfterCall(c, r, env).doing
  {
  }

  /** A call that leaves the stack nothing to complete leaves the recorded type, unless it is an unsigned write. */
  lemma {:induction false} OtherCallsKeepType(c: Client, r: Request, env: Env)
    requires Barrier(c, r, env).Some? || !env.accepted || CompletedBy(r).None?
    ensures AfterCall(c, r, env) ==
            if Barrier(c, r, env).None? && r.WriteCharacteristicCall? && r.writeType != Signed
            then c.(kind := CharacteristicWrite) else c
  {
  }

  /** No other callback is taken for the answer to it. */
  lemma {:induction false} OtherCallbacksDeliverNothing(c: Client, r: Request, env: Env, callback: Callback)
    requires Barrier(c, r, env).None? && env.accepted && CompletedBy(r).Some? && callback != CompletedBy(r).value
    ensures DeliveredBy(AfterCall(c, r, env), callback) == None
  {
  }

  /** The callbacks of the stack touch only what they are about. */
  lemma {:induction false} CallbackEffects(c: Client, newState: Connection)
    ensures !Completed(c).doing && Completed(c) == c.(doing := false)
    ensures ConnectionSet(c, newState).connection == newState && ConnectionSet(c, newState).registered == c.registered
    ensures newState != Disconnected ==> ConnectionSet(c, newState) == c.(connection := newState)
    ensures newState == Disconnected ==> !ConnectionSet(c, newState).doing && !ConnectionSet(c, newState).discovering
  {
  }

  // ------------------------------------------------------------------------------------------
  // The client and the stack over a run
  // ------------------------------------------------------------------------------------------

  /** How an accepted request ended: with what the application received, or without the stack's answer. */
  datatype Outcome = Answered(result: Option<Result>) | Dropped

  /**
    The client together with the requests the stack holds and will complete, and the books: the requests
    the stack accepted, in order, and the outcomes, in order.
   */
  datatype World = World(client: Client, inFlight: seq<Request>, lost: bool, accepted: seq<Request>, outcomes: seq<Outcome>)

  datatype Event =
    | Call(request: Request, env: Env)
    | Complete(index: nat)              // the stack completes one of its requests
    | Lose(index: nat)                  // the stack forgets one without telling
    | ConnectionChanged(newState: Connection)
    | Discover(env: Env)
    | Discovered
    | RegistrationChanged(registered: bool)

  /** The stack completes or loses only requests it holds. */
  predicate Legal(w: World, e: Event) {
    match e
    case Complete(index) => index < |w.inFlight|
    case Lose(index) => index < |w.inFlight|
    case _ => true
  }

  function Without(s: seq<Request>, i: nat): seq<Request>
    requires i < |s|
  {
    s[..i] + s[i + 1..]
  }

  /** The stack accepts a request that it will complete. */
  predicate TakesOn(c: Client, r: Request, env: Env) {
    Barrier(c, r, env).None? && env.accepted && CompletedBy(r).Some?
  }

  /** What the application receives when the stack completes a request. */
  function ResultOf(c: Client, r: Request): Option<Result> {
    if CompletedBy(r).Some? then DeliveredBy(c, CompletedBy(r).value) else None
  }

  function Step(w: World, e: Event): World
    requires Legal(w, e)
  {
    match e
    case Call(r, env) =>
      var taken := if TakesOn(w.client, r, env) then [r] else [];
      w.(client := AfterCall(w.client, r, env), inFlight := w.inFlight + taken, accepted := w.accepted + taken)
    case Complete(i) =>
      w.(client := Completed(w.client), inFlight := Without(w.inFlight, i),
         outcomes := w.outcomes + [Answered(ResultOf(w.client, w.inFlight[i]))])
    case Lose(i) =>
      w.(inFlight := Without(w.inFlight, i), lost := true, outcomes := w.outcomes + [Dropped])
    case ConnectionChanged(newState) =>
      var w' := w.(client := ConnectionSet(w.client, newState));
      if newState == Disconnected
      then w'.(inFlight := [], lost := false, outcomes := w.outcomes + seq(|w.inFlight|, _ => Dropped)) else w'
    case Discover(env) => w.(client := DiscoverySet(w.client, env))
    case Discovered => w.(client := w.client.(discovering := false))
    case RegistrationChanged(registered) => w.(client := w.client.(registered := registered))
  }

  function Init(): World {
    World(Start(), [], false, [], [])
  }

  /** The worlds of a run: one per event, each a legal step from the one before. */
  ghost predicate IsRun(ws: seq<World>, events: seq<Event>) {
    && |ws| == |events| + 1 && ws[0] == Init()
    && (forall i :: 0 <= i < |events| ==> Legal(ws[i], events[i]) && ws[i + 1] == Step(ws[i], events[i]))
  }

  /** The flags agree with what the stack holds. */
  ghost predicate FlagsAgree(c: Client, inFlight: seq<Request>, lost: bool) {
    && |inFlight| <= 1
    && (inFlight != [] ==> c.doing && CompletedBy(inFlight[0]).Some? && ResultOf(c, inFlight[0]) == Wanted(inFlight[0]) && !lost)
    && (c.doing <==> inFlight != [] || lost)
    && (c.connection == Disconnected ==> !c.doing && !c.discovering)
  }

  /** Every accepted request has its outcome or is still in flight, and an answer is the wanted result. */
  ghost predicate Balanced(w: World) {
    && |w.outcomes| <= |w.accepted| && w.inFlight == w.accepted[|w.outcomes|..]
    && (forall k :: 0 <= k < |w.outcomes| && w.outcomes[k].Answered? ==> w.outcomes[k].result == Wanted(w.accepted[k]))
    && (forall k :: 0 <= k < |w.accepted| ==> CompletedBy(w.accepted[k]).Some?)
  }

  /** What holds in every world of every run. */
  ghost predicate Inv(w: World) {
    FlagsAgree(w.client, w.inFlight, w.lost) && Balanced(w)
  }

  /** Only an idle, connected client hands a request to the stack. */
  lemma {:induction false} IssuedWhenIdle(c: Client, r: Request, env: Env)
    ensures TakesOn(c, r, env) ==> !c.doing && c.connection == Connected
    ensures AfterCall(c, r, env) == c.(doing := c.doing || TakesOn(c, r, env), kind := AfterCall(c, r, env).kind)
    ensures c.doing ==> AfterCall(c, r, env) == c
  {
  }

  lemma {:induction false} TakingKeepsInv(w: World, r: Request, env: Env)
    requires Inv(w) && TakesOn(w.client, r, env)
    ensures Inv(Step(w, Call(r, env)))
  {
    IssuedWhenIdle(w.client, r, env);
    AcceptedIsDelivered(w.client, r, env);
    assert w.inFlight == [] && w.inFlight + [r] == [r];
    var now := Step(w, Call(r, env));
    assert now.inFlight == [r] && now.accepted == w.accepted + [r] && now.outcomes == w.outcomes;
    assert ResultOf(now.client, r) == Wanted(r);
  }

  lemma {:induction false} CallKeepsInv(w: World, r: Request, env: Env)
    requires Inv(w)
    ensures Inv(Step(w, Call(r, env)))
  {
    if TakesOn(w.client, r, env) {
      TakingKeepsInv(w, r, env);
    } else {
      IssuedWhenIdle(w.client, r, env);
      assert w.inFlight + [] == w.inFlight && w.accepted + [] == w.accepted;
      assert Step(w, Call(r, env)) == w.(client := AfterCall(w.client, r, env));
    }
  }

  lemma {:induction false} CompletionKeepsInv(w: World, i: nat)
    requires Inv(w) && i < |w.inFlight|
    ensures Inv(Step(w, Complete(i))) && Inv(Step(w, Lose(i)))
    ensures Step(w, Complete(i)).inFlight == [] && !Step(w, Complete(i)).client.doing
    ensures w.inFlight[i] == w.accepted[|w.outcomes|]
    ensures Step(w, Complete(i)).outcomes == w.outcomes + [Answered(Wanted(w.inFlight[i]))]
  {
    assert w.inFlight == [w.inFlight[0]] && Without(w.inFlight, i) == [];
    assert w.accepted[|w.outcomes| + 1..] == [];
  }

  lemma {:induction false} ConnectionKeepsInv(w: World, newState: Connection)
    requires Inv(w)
    ensures Inv(Step(w, ConnectionChanged(newState)))
  {
    if newState == Disconnected {
      assert w.accepted[|w.outcomes| + |w.inFlight|..] == [];
    }
  }

  lemma {:induction false} StepKeepsInv(w: World, e: Event)
    requires Inv(w) && Legal(w, e)
    ensures Inv(Step(w, e))
  {
    match e {
      case Call(r, env) => CallKeepsInv(w, r, env);
      case Complete(i) => CompletionKeepsInv(w, i);
      case Lose(i) => CompletionKeepsInv(w, i);
      case ConnectionChanged(newState) => ConnectionKeepsInv(w, newState);
      case _ =>
    }
  }

  lemma {:induction false} RunKeepsInv(ws: seq<World>, events: seq<Event>, n: nat)
    requires IsRun(ws, events) && n < |ws|
    ensures Inv(ws[n])
  {
    if n > 0 {
      RunKeepsInv(ws, events, n - 1);
      StepKeepsInv(ws[n - 1], events[n - 1]);
    }
  }

  /**
    One request in flight: in every run the stack holds at most one request to complete, and the busy flag
    is set while it does; every accepted request has ended or is the one in flight, and whichever ended
    with an answer gave the application the result it wanted.
   */
  lemma {:induction false} OneRequestInFlight(ws: seq<World>, events: seq<Event>, n: nat)
    requires IsRun(ws, events) && n < |ws|
    ensures |ws[n].inFlight| <= 1 && (ws[n].inFlight != [] ==> ws[n].client.doing)
    ensures |ws[n].outcomes| <= |ws[n].accepted| && ws[n].inFlight == ws[n].accepted[|ws[n].outcomes|..]
    ensures forall k :: 0 <= k < |ws[n].outcomes| && ws[n].outcomes[k].Answered? ==>
                          ws[n].outcomes[k].result == Wanted(ws[n].accepted[k]) && Wanted(ws[n].accepted[k]).Some?
  {
    RunKeepsInv(ws, events, n);
  }

  /** A completion gives the application the result of the request it completes, and ends it. */
  lemma {:induction false} CompletionReachesItsCallback(ws: seq<World>, events: seq<Event>, n: nat)
    requires IsRun(ws, events) && n < |events| && events[n].Complete?
    ensures events[n].index < |ws[n].inFlight|
    ensures var r := ws[n].inFlight[events[n].index];
            && Wanted(r).Some? && CompletedBy(r).Some?
            && DeliveredBy(ws[n].client, CompletedBy(r).value) == Wanted(r)
            && ws[n + 1].outcomes == ws[n].outcomes + [Answered(Wanted(r))]
    ensures ws[n + 1].inFlight == [] && !ws[n + 1].client.doing
  {
    RunKeepsInv(ws, events, n);
    assert Legal(ws[n], events[n]) && ws[n + 1] == Step(ws[n], events[n]);
    CompletionKeepsInv(ws[n], events[n].index);
  }

  /** A request was lost and the link has not gone down since. */
  ghost predicate LostSince(events: seq<Event>, n: nat)
    requires n <= |events|
  {
    exists i :: 0 <= i < n && events[i].Lose? && forall j :: i < j < n ==> events[j] != ConnectionChanged(Disconnected)
  }

  lemma {:induction false} LostFlagIsExact(ws: seq<World>, events: seq<Event>, n: nat)
    requires IsRun(ws, events) && n < |ws|
    ensures ws[n].lost <==> LostSince(events, n)
  {
    if n > 0 {
      var m := n - 1;
      LostFlagIsExact(ws, events, m);
      assert Legal(ws[m], events[m]) && ws[m + 1] == Step(ws[m], events[m]);
      if events[m].Lose? {
        assert LostSince(events, n);
      } else if events[m] != ConnectionChanged(Disconnected) && LostSince(events, m) {
        var i :| 0 <= i < m && events[i].Lose? && forall j :: i < j < m ==> events[j] != ConnectionChanged(Disconnected);
        assert LostSince(events, n);
      }
    }
  }

  /**
    The busy flag is set exactly while a request is in flight, unless the stack lost one since the
    last disconnection; without a loss the two always agree.
   */
  lemma {:induction false} BusyExactly(ws: seq<World>, events: seq<Event>, n: nat)
    requires IsRun(ws, events) && n < |ws|
    ensures ws[n].client.doing <==> ws[n].inFlight != [] || LostSince(events, n)
    ensures (forall i :: 0 <= i < |events| ==> !events[i].Lose?) ==> (ws[n].client.doing <==> ws[n].inFlight != [])
  {
    RunKeepsInv(ws, events, n);
    LostFlagIsExact(ws, events, n);
  }

  /** After a loss no request is accepted until the link goes down. */
  lemma {:induction false} LossBlocksUntilDisconnect(ws: seq<World>, events: seq<Event>, i: nat, n: nat)
    requires IsRun(ws, events) && i < n < |ws| && events[i].Lose?
    requires forall j :: i < j < n ==> events[j] != ConnectionChanged(Disconnected)
    ensures ws[n].accepted == ws[i].accepted && ws[n].inFlight == [] && ws[n].client.doing
  {
    var m := n - 1;
    assert Legal(ws[m], events[m]) && ws[m + 1] == Step(ws[m], events[m]);
    RunKeepsInv(ws, events, n);
    LostFlagIsExact(ws, events, n);
    if i < m {
      LossBlocksUntilDisconnect(ws, events, i, m);
    }
  }

  /** A lost read makes the next request fail as busy although nothing is in flight. */
  lemma {:induction false} LostRequestBlocks() returns (ws: seq<World>, events: seq<Event>)
    ensures events == [RegistrationChanged(true), ConnectionChanged(Connected),
                       Call(ReadCharacteristicCall, Env(true, true, true)), Lose(0)]
    ensures IsRun(ws, events) && ws[4].inFlight == [] && ws[4].client.connection == Connected
    ensures CallCode(ws[4].client, ReadCharacteristicCall, Env(true, true, true)) == Busy
  {
    events := [RegistrationChanged(true), ConnectionChanged(Connected),
               Call(ReadCharacteristicCall, Env(true, true, true)), Lose(0)];
    var w := Init().(client := Client(Disconnected, true, false, CharacteristicRead, false));
    var w' := w.(client := Client(Connected, true, false, CharacteristicRead, false));
    var asked := World(Client(Connected, true, true, CharacteristicRead, false), [ReadCharacteristicCall], false,
                       [ReadCharacteristicCall], []);
    assert Step(w', events[2]) == asked by {
      assert [] + [ReadCharacteristicCall] == [ReadCharacteristicCall];
    }
    ws := [Init(), w, w', asked, Step(asked, Lose(0))];
    assert ws[1] == Step(ws[0], events[0]) && ws[2] == Step(ws[1], events[1]);
    assert ws[3] == Step(ws[2], events[2]) && ws[4] == Step(ws[3], events[3]);
  }

  /** Disconnection resets the client: neither flag is set in any disconnected state of any run. */
  lemma {:induction false} DisconnectedIsIdle(ws: seq<World>, events: seq<Event>, n: nat)
    requires IsRun(ws, events) && n < |ws| && ws[n].client.connection == Disconnected
    ensures !ws[n].client.doing && !ws[n].client.discovering && ws[n].inFlight == []
  {
    RunKeepsInv(ws, events, n);
  }
}
