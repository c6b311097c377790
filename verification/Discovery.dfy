/**
  Service discovery, requests and disconnection in the GATT client, step by step.

  Any number of threads run DiscoverServices, requests, the stack's completion callbacks and the
  connection-state callback at the same time.  A step is one critical section or one call made outside
  the locks:

  - DiscoverServices takes the connection lock and keeps it until it returns; inside, it waits until
    no discovery is marked, marks one, and asks the stack if it can;
  - DiscoverComplete clears the mark under the discovery lock and reports to the application after
    releasing it;
  - a request holds the connection lock and the request lock while it asks the stack; its completion
    callback takes the request lock;
  - the disconnect callback first runs DiscoverComplete, then lowers the busy flag under the request
    lock, and only then takes the connection lock to write the new connection state.
 */
module Discovery {

  type Thread = nat

  // ------------------------------------------------------------------------------------------
  // A flag and its history
  // ------------------------------------------------------------------------------------------

  /** What happened to a flag, in order; the log is history, not program state. */
  datatype Entry = Set(thread: Thread) | Effective(thread: Thread) | Surplus(thread: Thread)

  datatype Flag = Flag(up: bool, log: seq<Entry>)

  datatype Change = Keep | Raise(thread: Thread) | Lower(thread: Thread)

  function Logged(f: Flag, c: Change): seq<Entry> {
    match c
    case Keep => []
    case Raise(t) => [Set(t)]
    case Lower(t) => if f.up then [Effective(t)] else [Surplus(t)]
  }

  function Changed(f: Flag, c: Change): Flag {
    Flag(if c.Keep? then f.up else c.Raise?, f.log + Logged(f, c))
  }

  function Sets(log: seq<Entry>): nat {
    if log == [] then 0 else Sets(log[..|log| - 1]) + if log[|log| - 1].Set? then 1 else 0
  }

  function Effectives(log: seq<Entry>): nat {
    if log == [] then 0 else Effectives(log[..|log| - 1]) + if log[|log| - 1].Effective? then 1 else 0
  }

  /** The last entry that raised or lowered the flag. */
  function LastChange(log: seq<Entry>): int
    ensures -1 <= LastChange(log) < |log|
    ensures LastChange(log) >= 0 ==> !log[LastChange(log)].Surplus?
    ensures forall i :: LastChange(log) < i < |log| ==> log[i].Surplus?
  {
    if log == [] then -1
    else if log[|log| - 1].Surplus? then LastChange(log[..|log| - 1]) else |log| - 1
  }

  /** The last change recorded in the log is a setting. */
  predicate Standing(log: seq<Entry>) {
    LastChange(log) >= 0 && log[LastChange(log)].Set?
  }

  /** The flag is set only when it does not stand and effectively cleared only when it does. */
  ghost predicate Alternates(log: seq<Entry>) {
    forall j :: 0 <= j < |log| ==> (log[j].Set? ==> !Standing(log[..j])) && (log[j].Effective? ==> Standing(log[..j]))
  }

  ghost predicate FlagInv(f: Flag) {
    && Sets(f.log) == Effectives(f.log) + (if f.up then 1 else 0)
    && (f.up <==> Standing(f.log)) && Alternates(f.log)
  }

  /** Since the given point of the log the flag can only stand because it was set after that point. */
  ghost predicate SetSince(f: Flag, point: nat) {
    point <= |f.log| && (f.up ==> point <= LastChange(f.log))
  }

  /** The points of the log at which a disconnect callback cleared the flag and wrote the state. */
  datatype Window = Window(cleaned: nat, written: nat)

  /** If the flag stands, it was set inside the window. */
  ghost predicate SetWithin(f: Flag, w: Window) {
    w.cleaned <= w.written <= |f.log| && (f.up ==> w.cleaned <= LastChange(f.log) < w.written)
  }

  lemma {:induction false} CountsExtend(log: seq<Entry>, e: Entry)
    ensures Sets(log + [e]) == Sets(log) + if e.Set? then 1 else 0
    ensures Effectives(log + [e]) == Effectives(log) + if e.Effective? then 1 else 0
    ensures LastChange(log + [e]) == if e.Surplus? then LastChange(log) else |log|
  {
    assert (log + [e])[..|log|] == log;
  }

  lemma {:induction false} AlternatesExtend(log: seq<Entry>, e: Entry)
    requires Alternates(log) && (e.Set? ==> !Standing(log)) && (e.Effective? ==> Standing(log))
    ensures Alternates(log + [e])
  {
    var now := log + [e];
    forall j | 0 <= j < |now|
      ensures (now[j].Set? ==> !Standing(now[..j])) && (now[j].Effective? ==> Standing(now[..j]))
    {
      assert now[..j] == log[..j];
      if j == |log| { assert log[..j] == log; }
    }
  }

  lemma {:induction false} ChangeKeepsFlag(f: Flag, c: Change)
    requires FlagInv(f) && (c.Raise? ==> !f.up)
    ensures FlagInv(Changed(f, c))
  {
    if c.Keep? {
      assert f.log + [] == f.log;
    } else {
      var e := Logged(f, c)[0];
      assert Logged(f, c) == [e];
      CountsExtend(f.log, e);
      AlternatesExtend(f.log, e);
    }
  }

  lemma {:induction false} ChangeKeepsSince(f: Flag, c: Change, point: nat)
    requires SetSince(f, point)
    ensures SetSince(Changed(f, c), point)
    ensures c.Lower? ==> SetSince(Changed(f, c), |f.log| + 1)
  {
    if c.Keep? {
      assert f.log + [] == f.log;
    } else {
      CountsExtend(f.log, Logged(f, c)[0]);
    }
  }

  lemma {:induction false} ChangeKeepsWithin(f: Flag, c: Change, w: Window)
    requires SetWithin(f, w) && !c.Raise?
    ensures SetWithin(Changed(f, c), w)
  {
    if c.Keep? {
      assert f.log + [] == f.log;
    } else {
      CountsExtend(f.log, Logged(f, c)[0]);
    }
  }

  lemma {:induction false} AlternationBetweenSets(log: seq<Entry>, i: nat, j: nat)
    requires Alternates(log) && i < j < |log| && log[i].Set? && log[j].Set?
    ensures exists k :: i < k < j && log[k].Effective?
  {
    var before := log[..j];
    assert !Standing(before) && before[i].Set?;
    assert before[LastChange(before)] == log[LastChange(before)];
  }

  lemma {:induction false} AlternationBeforeEffective(log: seq<Entry>, j: nat)
    requires Alternates(log) && j < |log| && log[j].Effective?
    ensures exists i :: 0 <= i < j && log[i].Set? && forall k :: i < k < j ==> log[k].Surplus?
  {
    var before := log[..j];
    var i := LastChange(before);
    assert Standing(before) && before[i] == log[i];
    forall k | i < k < j
      ensures log[k].Surplus?
    {
      assert log[k] == before[k];
    }
  }

  /** The flag stands exactly when an entry of the window set it and only surplus clearings followed. */
  ghost predicate SetInWindow(f: Flag, w: Window) {
    exists i :: 0 <= i < |f.log| && w.cleaned <= i < w.written && f.log[i].Set?
                && forall j :: i < j < |f.log| ==> f.log[j].Surplus?
  }

  lemma {:induction false} UpExactly(f: Flag, w: Window)
    requires FlagInv(f) && SetWithin(f, w)
    ensures f.up <==> SetInWindow(f, w)
  {
    var c := LastChange(f.log);
    assert f.up <==> c >= 0 && f.log[c].Set?;
    forall i | 0 <= i < |f.log| && f.log[i].Set? && forall j :: i < j < |f.log| ==> f.log[j].Surplus?
      ensures c == i
    {
    }
  }

  // ------------------------------------------------------------------------------------------
  // Threads
  // ------------------------------------------------------------------------------------------

  datatype Next = ToReturn | ToEnd | ToLower(mark: nat)

  datatype Phase =
    | Waiting                // DiscoverStart, before the mark; holds the connection lock
    | Marked                 // DiscoverStart, after the mark; holds the connection lock
    | Clearing               // DiscoverStart was refused and calls DiscoverComplete; holds the lock
    | Returning              // DiscoverStart is about to return; holds the lock
    | Completing             // the stack's completion callback, before DiscoverComplete
    | Cleaning               // the disconnect callback, before DiscoverComplete
    | Lowering(mark: nat)    // the disconnect callback, before it lowers the busy flag
    | Writing(mark: nat, busy: nat)   // the disconnect callback, before it writes the connection state
    | Reporting(next: Next)  // an effective DiscoverComplete, before it calls the application

  predicate HoldsLock(p: Phase) {
    p.Waiting? || p.Marked? || p.Clearing? || p.Returning? || p == Reporting(ToReturn)
  }

  datatype Link = Down | Changing | Up

  datatype State = State(mark: Flag, busy: Flag, link: Link, threads: map<Thread, Phase>, reported: nat,
                         markWindow: Window, busyWindow: Window)

  function Start(): State {
    State(Flag(false, []), Flag(false, []), Down, map[], 0, Window(0, 0), Window(0, 0))
  }

  datatype Action =
    | EnterDiscover(t: Thread) | Mark(t: Thread) | TimeOut(t: Thread)
    | Asked(t: Thread)       // the stack accepted
    | NotAsked(t: Thread)    // there was no registration or no proxy, and the call fails
    | Refused(t: Thread)     // the stack refused
    | Return(t: Thread)
    | EnterCompletion(t: Thread) | EnterDisconnect(t: Thread)
    | Clear(t: Thread)       // the critical section of DiscoverComplete
    | Report(t: Thread)
    | LowerBusy(t: Thread)   // the second critical section of the disconnect callback
    | WriteDisconnected(t: Thread)
    | WriteState(link: Link) // any other connection state
    | Request(t: Thread)     // the stack accepts a confirmed request
    | Answer(t: Thread)      // the completion callback of a request

  predicate LockFree(s: State) {
    forall t :: t in s.threads ==> !HoldsLock(s.threads[t])
  }

  predicate At(s: State, t: Thread, p: Phase) {
    t in s.threads && s.threads[t] == p
  }

  predicate Enabled(s: State, a: Action) {
    match a
    case EnterDiscover(t) => t !in s.threads && s.link.Up? && LockFree(s)
    case Mark(t) => At(s, t, Waiting) && !s.mark.up
    case TimeOut(t) => At(s, t, Waiting)
    case Asked(t) => At(s, t, Marked)
    case NotAsked(t) => At(s, t, Marked)
    case Refused(t) => At(s, t, Marked)
    case Return(t) => At(s, t, Returning)
    case EnterCompletion(t) => t !in s.threads
    case EnterDisconnect(t) => t !in s.threads
    case Clear(t) => At(s, t, Clearing) || At(s, t, Completing) || At(s, t, Cleaning)
    case Report(t) => t in s.threads && s.threads[t].Reporting?
    case LowerBusy(t) => t in s.threads && s.threads[t].Lowering?
    case WriteDisconnected(t) => t in s.threads && s.threads[t].Writing? && LockFree(s)
    case WriteState(link) => LockFree(s) && !link.Down?
    case Request(_) => s.link.Up? && LockFree(s) && !s.busy.up
    case Answer(_) => true
  }

  function MarkChange(a: Action): Change {
    match a
    case Mark(t) => Raise(t)
    case Clear(t) => Lower(t)
    case _ => Keep
  }

  function BusyChange(a: Action): Change {
    match a
    case Request(t) => Raise(t)
    case Answer(t) => Lower(t)
    case LowerBusy(t) => Lower(t)
    case _ => Keep
  }

  function Goto(s: State, t: Thread, n: Next): map<Thread, Phase> {
    match n
    case ToReturn => s.threads[t := Returning]
    case ToEnd => s.threads - {t}
    case ToLower(mark) => s.threads[t := Lowering(mark)]
  }

  function NextOf(p: Phase, mark: nat): Next {
    match p
    case Clearing => ToReturn
    case Cleaning => ToLower(mark)
    case _ => ToEnd
  }

  function Threads(s: State, a: Action): map<Thread, Phase>
    requires Enabled(s, a)
  {
    match a
    case EnterDiscover(t) => s.threads[t := Waiting]
    case Mark(t) => s.threads[t := Marked]
    case TimeOut(t) => s.threads - {t}
    case Asked(t) => s.threads - {t}
    case NotAsked(t) => s.threads - {t}
    case Refused(t) => s.threads[t := Clearing]
    case Return(t) => s.threads - {t}
    case EnterCompletion(t) => s.threads[t := Completing]
    case EnterDisconnect(t) => s.threads[t := Cleaning]
    case Clear(t) =>
      var n := NextOf(s.threads[t], |s.mark.log| + 1);
      if s.mark.up then s.threads[t := Reporting(n)] else Goto(s, t, n)
    case Report(t) => Goto(s, t, s.threads[t].next)
    case LowerBusy(t) => s.threads[t := Writing(s.threads[t].mark, |s.busy.log| + 1)]
    case WriteDisconnected(t) => s.threads - {t}
    case _ => s.threads
  }

  function Apply(s: State, a: Action): State
    requires Enabled(s, a)
  {
    var s' := s.(mark := Changed(s.mark, MarkChange(a)), busy := Changed(s.busy, BusyChange(a)), threads := Threads(s, a));
    match a
    case Report(_) => s'.(reported := s.reported + 1)
    case WriteDisconnected(t) =>
      s'.(link := Down, markWindow := Window(s.threads[t].mark, |s.mark.log|),
          busyWindow := Window(s.threads[t].busy, |s.busy.log|))
    case WriteState(link) => s'.(link := link)
    case _ => s'
  }

  /** The states of one interleaving. */
  ghost predicate IsRun(ss: seq<State>, actions: seq<Action>) {
    && |ss| == |actions| + 1 && ss[0] == Start()
    && (forall i :: 0 <= i < |actions| ==> Enabled(ss[i], actions[i]) && ss[i + 1] == Apply(ss[i], actions[i]))
  }

  // ------------------------------------------------------------------------------------------
  // What every step keeps
  // ------------------------------------------------------------------------------------------

  function Reporters(threads: map<Thread, Phase>): set<Thread> {
    set t | t in threads && threads[t].Reporting?
  }

  ghost predicate ReportsCounted(s: State) {
    s.reported + |Reporters(s.threads)| == Effectives(s.mark.log)
  }

  /** At most one thread holds the connection lock, and none does unless connected. */
  ghost predicate LockInv(s: State) {
    && (forall t, u :: t in s.threads && u in s.threads && HoldsLock(s.threads[t]) && HoldsLock(s.threads[u]) ==> t == u)
    && (!s.link.Up? ==> LockFree(s))
  }

  /** What a disconnect callback has cleared so far and has yet to confirm by writing the state. */
  ghost predicate CleanedBy(s: State, p: Phase) {
    match p
    case Reporting(ToLower(mark)) => SetSince(s.mark, mark)
    case Lowering(mark) => SetSince(s.mark, mark)
    case Writing(mark, busy) => SetSince(s.mark, mark) && SetSince(s.busy, busy)
    case _ => true
  }

  ghost predicate PendingInv(s: State) {
    forall t :: t in s.threads ==> CleanedBy(s, s.threads[t])
  }

  ghost predicate WindowInv(s: State) {
    s.link.Down? ==> SetWithin(s.mark, s.markWindow) && SetWithin(s.busy, s.busyWindow)
  }

  lemma {:induction false} ReportersStep(s: State, a: Action)
    requires Enabled(s, a)
    ensures Reporters(Apply(s, a).threads) ==
            (if a.Clear? && s.mark.up then Reporters(s.threads) + {a.t}
             else if a.Report? then Reporters(s.threads) - {a.t} else Reporters(s.threads))
    ensures a.Clear? ==> a.t !in Reporters(s.threads)
    ensures a.Report? ==> a.t in Reporters(s.threads)
  {
  }

  lemma {:induction false} StepKeepsReports(s: State, a: Action)
    requires Enabled(s, a) && ReportsCounted(s)
    ensures ReportsCounted(Apply(s, a))
  {
    var c := MarkChange(a);
    if c.Keep? {
      assert s.mark.log + [] == s.mark.log;
    } else {
      CountsExtend(s.mark.log, Logged(s.mark, c)[0]);
    }
    ReportersStep(s, a);
  }

  /** A thread holds the lock because it held it before, or because it took the free lock. */
  lemma {:induction false} HolderStep(s: State, a: Action, t: Thread)
    requires Enabled(s, a) && t in Threads(s, a) && HoldsLock(Threads(s, a)[t])
    ensures (t in s.threads && HoldsLock(s.threads[t])) || (a == EnterDiscover(t) && s.link.Up? && LockFree(s))
  {
  }

  lemma {:induction false} StepKeepsLock(s: State, a: Action)
    requires Enabled(s, a) && LockInv(s)
    ensures LockInv(Apply(s, a))
  {
    var now := Threads(s, a);
    forall t | t in now && HoldsLock(now[t])
      ensures (t in s.threads && HoldsLock(s.threads[t])) || (a == EnterDiscover(t) && s.link.Up? && LockFree(s))
    {
      HolderStep(s, a, t);
    }
  }

  lemma {:induction false} PhaseStaysClean(s: State, a: Action, p: Phase)
    requires Enabled(s, a) && CleanedBy(s, p)
    ensures CleanedBy(Apply(s, a), p)
  {
    match p {
      case Reporting(ToLower(mark)) => ChangeKeepsSince(s.mark, MarkChange(a), mark);
      case Lowering(mark) => ChangeKeepsSince(s.mark, MarkChange(a), mark);
      case Writing(mark, busy) =>
        ChangeKeepsSince(s.mark, MarkChange(a), mark);
        ChangeKeepsSince(s.busy, BusyChange(a), busy);
      case _ =>
    }
  }

  lemma {:induction false} CleaningIsClean(s: State, t: Thread)
    requires Enabled(s, Clear(t)) && FlagInv(s.mark)
    ensures CleanedBy(Apply(s, Clear(t)), Reporting(NextOf(s.threads[t], |s.mark.log| + 1)))
    ensures s.threads[t].Cleaning? ==> CleanedBy(Apply(s, Clear(t)), Lowering(|s.mark.log| + 1))
  {
    assert SetSince(s.mark, 0);
    ChangeKeepsSince(s.mark, Lower(t), 0);
  }

  lemma {:induction false} LoweringIsClean(s: State, t: Thread)
    requires Enabled(s, LowerBusy(t)) && FlagInv(s.busy) && CleanedBy(s, s.threads[t])
    ensures CleanedBy(Apply(s, LowerBusy(t)), Writing(s.threads[t].mark, |s.busy.log| + 1))
  {
    PhaseStaysClean(s, LowerBusy(t), s.threads[t]);
    assert SetSince(s.busy, 0);
    ChangeKeepsSince(s.busy, Lower(t), 0);
  }

  lemma {:induction false} StepKeepsPending(s: State, a: Action)
    requires Enabled(s, a) && PendingInv(s) && FlagInv(s.mark) && FlagInv(s.busy)
    ensures PendingInv(Apply(s, a))
  {
    var s' := Apply(s, a);
    forall t | t in s'.threads
      ensures CleanedBy(s', s'.threads[t])
    {
      if t in s.threads {
        PhaseStaysClean(s, a, s.threads[t]);
        if a == Clear(t) {
          CleaningIsClean(s, t);
        } else if a == LowerBusy(t) {
          LoweringIsClean(s, t);
        }
      }
    }
  }

  lemma {:induction false} WriteOpensWindow(s: State, t: Thread)
    requires Enabled(s, WriteDisconnected(t)) && PendingInv(s)
    ensures WindowInv(Apply(s, WriteDisconnected(t)))
  {
    assert CleanedBy(s, s.threads[t]);
    assert s.mark.log + [] == s.mark.log && s.busy.log + [] == s.busy.log;
  }

  lemma {:induction false} StepKeepsWindow(s: State, a: Action)
    requires Enabled(s, a) && LockInv(s) && WindowInv(s) && !a.WriteDisconnected?
    ensures WindowInv(Apply(s, a))
  {
    if Apply(s, a).link.Down? {
      ChangeKeepsWithin(s.mark, MarkChange(a), s.markWindow);
      ChangeKeepsWithin(s.busy, BusyChange(a), s.busyWindow);
    }
  }

  ghost predicate Inv(s: State) {
    FlagInv(s.mark) && FlagInv(s.busy) && ReportsCounted(s) && LockInv(s) && PendingInv(s) && WindowInv(s)
  }

  lemma {:induction false} StepKeepsInv(s: State, a: Action)
    requires Enabled(s, a) && Inv(s)
    ensures Inv(Apply(s, a))
  {
    ChangeKeepsFlag(s.mark, MarkChange(a));
    ChangeKeepsFlag(s.busy, BusyChange(a));
    StepKeepsReports(s, a);
    StepKeepsLock(s, a);
    StepKeepsPending(s, a);
    if a.WriteDisconnected? {
      WriteOpensWindow(s, a.t);
    } else {
      StepKeepsWindow(s, a);
    }
  }

  lemma {:induction false} StartIsGood()
    ensures Inv(Start())
  {
    assert Reporters(map[]) == {};
  }

  lemma {:induction false} RunKeepsInv(ss: seq<State>, actions: seq<Action>, n: nat)
    requires IsRun(ss, actions) && n < |ss|
    ensures Inv(ss[n])
  {
    if n == 0 {
      StartIsGood();
    } else {
      RunKeepsInv(ss, actions, n - 1);
      assert Enabled(ss[n - 1], actions[n - 1]) && ss[n - 1 + 1] == Apply(ss[n - 1], actions[n - 1]);
      StepKeepsInv(ss[n - 1], actions[n - 1]);
    }
  }

  // ------------------------------------------------------------------------------------------
  // Theorems
  // ------------------------------------------------------------------------------------------

  /**
    Discovery conservation, in every interleaving: the mark was set as often as it was effectively
    cleared, plus once if it stands, and the application has one report for each effective completion,
    delivered or about to be, and none for a surplus one.
   */
  lemma {:induction false} DiscoveryConservation(ss: seq<State>, actions: seq<Action>, n: nat)
    requires IsRun(ss, actions) && n < |ss|
    ensures Sets(ss[n].mark.log) == Effectives(ss[n].mark.log) + (if ss[n].mark.up then 1 else 0)
    ensures ss[n].reported + |Reporters(ss[n].threads)| == Effectives(ss[n].mark.log)
  {
    RunKeepsInv(ss, actions, n);
  }

  /** Two discoveries never overlap: between two settings of the mark lies an effective completion. */
  lemma {:induction false} DiscoveriesDoNotOverlap(ss: seq<State>, actions: seq<Action>, n: nat, i: nat, j: nat)
    requires IsRun(ss, actions) && n < |ss|
    requires i < j < |ss[n].mark.log| && ss[n].mark.log[i].Set? && ss[n].mark.log[j].Set?
    ensures exists k :: i < k < j && ss[n].mark.log[k].Effective?
  {
    RunKeepsInv(ss, actions, n);
    AlternationBetweenSets(ss[n].mark.log, i, j);
  }

  /** Surplus completions report nothing: an effective completion finds a setting not yet completed. */
  lemma {:induction false} CompletionsNeedADiscovery(ss: seq<State>, actions: seq<Action>, n: nat, j: nat)
    requires IsRun(ss, actions) && n < |ss| && j < |ss[n].mark.log| && ss[n].mark.log[j].Effective?
    ensures exists i :: 0 <= i < j && ss[n].mark.log[i].Set? && forall k :: i < k < j ==> ss[n].mark.log[k].Surplus?
  {
    RunKeepsInv(ss, actions, n);
    AlternationBeforeEffective(ss[n].mark.log, j);
  }

  /** Two accepted requests never overlap: between them an answer or a disconnect callback lowered the flag. */
  lemma {:induction false} RequestsDoNotOverlap(ss: seq<State>, actions: seq<Action>, n: nat, i: nat, j: nat)
    requires IsRun(ss, actions) && n < |ss|
    requires i < j < |ss[n].busy.log| && ss[n].busy.log[i].Set? && ss[n].busy.log[j].Set?
    ensures exists k :: i < k < j && ss[n].busy.log[k].Effective?
  {
    RunKeepsInv(ss, actions, n);
    AlternationBetweenSets(ss[n].busy.log, i, j);
  }

  /**
    Disconnection and the flags: in a disconnected state a flag stands exactly when it was set after the
    disconnect callback had cleared it and before that callback wrote the connection state, and has not
    been cleared since.
   */
  lemma {:induction false} FlagsWhileDisconnected(ss: seq<State>, actions: seq<Action>, n: nat)
    requires IsRun(ss, actions) && n < |ss| && ss[n].link.Down?
    ensures ss[n].mark.up <==> SetInWindow(ss[n].mark, ss[n].markWindow)
    ensures ss[n].busy.up <==> SetInWindow(ss[n].busy, ss[n].busyWindow)
  {
    RunKeepsInv(ss, actions, n);
    UpExactly(ss[n].mark, ss[n].markWindow);
    UpExactly(ss[n].busy, ss[n].busyWindow);
  }

  /** The window of the mark is open: a disconnected client with the mark standing is reachable. */
  lemma {:induction false} MarkCanOutliveDisconnect() returns (ss: seq<State>, actions: seq<Action>)
    ensures IsRun(ss, actions) && ss[|actions|].link.Down? && ss[|actions|].mark.up
  {
    ss, actions := Disconnecting();
    ss, actions := Extend(ss, actions, EnterDiscover(1));
    ss, actions := Extend(ss, actions, Mark(1));
    ss, actions := Extend(ss, actions, Asked(1));
    ss, actions := Extend(ss, actions, WriteDisconnected(2));
  }

  /** So is the window of the busy flag: a request slips in after the callback has lowered it. */
  lemma {:induction false} BusyCanOutliveDisconnect() returns (ss: seq<State>, actions: seq<Action>)
    ensures IsRun(ss, actions) && ss[|actions|].link.Down? && ss[|actions|].busy.up
  {
    ss, actions := Disconnecting();
    ss, actions := Extend(ss, actions, Request(1));
    ss, actions := Extend(ss, actions, WriteDisconnected(2));
  }

  /** Completion callbacks and the disconnect callback do clear their flags, and requests and discoveries raise them. */
  lemma {:induction false} FlagsFollow(ss: seq<State>, actions: seq<Action>, i: nat)
    requires IsRun(ss, actions) && i < |actions|
    ensures actions[i].Answer? || actions[i].LowerBusy? ==> !ss[i + 1].busy.up
    ensures actions[i].Request? ==> !ss[i].busy.up && ss[i + 1].busy.up
    ensures actions[i].Clear? ==> !ss[i + 1].mark.up
    ensures actions[i].Mark? ==> !ss[i].mark.up && ss[i + 1].mark.up
    ensures actions[i].Request? || actions[i].EnterDiscover? ==> ss[i].link.Up?
    ensures actions[i].Request? || actions[i].EnterDiscover? || actions[i].WriteDisconnected? || actions[i].WriteState? ==>
              forall t :: t in ss[i].threads ==> !HoldsLock(ss[i].threads[t])
    ensures actions[i].WriteDisconnected? ==> ss[i + 1].link.Down?
    ensures actions[i].WriteState? ==> ss[i + 1].link == actions[i].link
    ensures !actions[i].WriteDisconnected? && !actions[i].WriteState? ==> ss[i + 1].link == ss[i].link
    ensures !actions[i].Clear? && !actions[i].Mark? ==> ss[i + 1].mark == ss[i].mark
    ensures !actions[i].Answer? && !actions[i].LowerBusy? && !actions[i].Request? ==> ss[i + 1].busy == ss[i].busy
  {
    assert Enabled(ss[i], actions[i]) && ss[i + 1] == Apply(ss[i], actions[i]);
    assert ss[i].mark.log + [] == ss[i].mark.log && ss[i].busy.log + [] == ss[i].busy.log;
  }

  /** Thread t has cleared the mark between two points of a run. */
  ghost predicate HasCleared(actions: seq<Action>, i: nat, n: nat, t: Thread) {
    exists j :: i < j < n && j < |actions| && actions[j] == Clear(t)
  }

  /** A refused discovery clears its mark before it does anything else. */
  lemma {:induction false} RefusedClears(ss: seq<State>, actions: seq<Action>, i: nat, n: nat, t: Thread)
    requires IsRun(ss, actions) && i < n < |ss| && actions[i] == Refused(t)
    ensures At(ss[n], t, Clearing) || HasCleared(actions, i, n, t)
    decreases n
  {
    var m := n - 1;
    assert Enabled(ss[m], actions[m]) && ss[m + 1] == Apply(ss[m], actions[m]);
    if i < m {
      RefusedClears(ss, actions, i, m, t);
      if actions[m] == Clear(t) {
        assert HasCleared(actions, i, n, t);
      } else if HasCleared(actions, i, m, t) {
        var j :| i < j < m && j < |actions| && actions[j] == Clear(t);
        assert HasCleared(actions, i, n, t);
      }
    }
  }

  /** So does the disconnect callback. */
  lemma {:induction false} DisconnectClears(ss: seq<State>, actions: seq<Action>, i: nat, n: nat, t: Thread)
    requires IsRun(ss, actions) && i < n < |ss| && actions[i] == EnterDisconnect(t)
    ensures At(ss[n], t, Cleaning) || HasCleared(actions, i, n, t)
    decreases n
  {
    var m := n - 1;
    assert Enabled(ss[m], actions[m]) && ss[m + 1] == Apply(ss[m], actions[m]);
    if i < m {
      DisconnectClears(ss, actions, i, m, t);
      if actions[m] == Clear(t) {
        assert HasCleared(actions, i, n, t);
      } else if HasCleared(actions, i, m, t) {
        var j :| i < j < m && j < |actions| && actions[j] == Clear(t);
        assert HasCleared(actions, i, n, t);
      }
    }
  }

  /** The mark stands, and no thread is left that will clear it. */
  predicate Stuck(s: State) {
    s.mark.up && forall t :: t in s.threads ==> !s.threads[t].Marked? && !MayClear(s.threads[t])
  }

  predicate MayClear(p: Phase) {
    p.Clearing? || p.Completing? || p.Cleaning?
  }

  lemma {:induction false} StuckStays(s: State, a: Action)
    requires Enabled(s, a) && Stuck(s) && !a.EnterCompletion? && !a.EnterDisconnect?
    ensures Stuck(Apply(s, a)) && Apply(s, a).mark == s.mark && !a.Mark?
  {
    assert s.mark.log + [] == s.mark.log;
  }

  /**
    A discovery that fails because there is no registration or no proxy leaves its mark behind.  Then no
    discovery starts, and every DiscoverServices times out, until a completion callback or a disconnect
    callback arrives.
   */
  lemma {:induction false} MarkLeftBehindBlocks(ss: seq<State>, actions: seq<Action>, i: nat, n: nat)
    requires IsRun(ss, actions) && i < n < |ss| && actions[i].NotAsked? && ss[i].mark.up
    requires forall t :: t in ss[i].threads ==> !ss[i].threads[t].Completing? && !ss[i].threads[t].Cleaning?
    requires forall j :: i < j < n ==> !actions[j].EnterCompletion? && !actions[j].EnterDisconnect?
    ensures Stuck(ss[n]) && ss[n].mark == ss[i].mark
    ensures forall j :: i < j < n ==> !actions[j].Mark?
  {
    var m := n - 1;
    assert Enabled(ss[m], actions[m]) && ss[m + 1] == Apply(ss[m], actions[m]);
    if i < m {
      MarkLeftBehindBlocks(ss, actions, i, m);
      StuckStays(ss[m], actions[m]);
    } else {
      RunKeepsInv(ss, actions, i);
      assert ss[i].mark.log + [] == ss[i].mark.log;
    }
  }

  /** A client that is connected, at rest, and can never discover of its own accord is reachable. */
  lemma {:induction false} MarkIsLeftBehind() returns (ss: seq<State>, actions: seq<Action>)
    ensures IsRun(ss, actions) && ss[|actions|].link.Up? && ss[|actions|].mark.up && ss[|actions|].threads == map[]
  {
    ss, actions := Connected();
    ss, actions := Extend(ss, actions, EnterDiscover(1));
    ss, actions := Extend(ss, actions, Mark(1));
    ss, actions := Extend(ss, actions, NotAsked(1));
  }

  lemma {:induction false} Connected() returns (ss: seq<State>, actions: seq<Action>)
    ensures IsRun(ss, actions) && ss[|actions|] == Start().(link := Up)
  {
    ss, actions := Extend([Start()], [], WriteState(Up));
  }

  /** A disconnect callback has cleared both flags and is about to write the state. */
  lemma {:induction false} Disconnecting() returns (ss: seq<State>, actions: seq<Action>)
    ensures IsRun(ss, actions)
    ensures var flag := Flag(false, [Surplus(2)]);
            ss[|actions|] == Start().(link := Up, mark := flag, busy := flag, threads := map[2 := Writing(1, 1)])
  {
    ss, actions := Connected();
    ss, actions := Extend(ss, actions, EnterDisconnect(2));
    ss, actions := Extend(ss, actions, Clear(2));
    ss, actions := Extend(ss, actions, LowerBusy(2));
  }

  lemma {:induction false} Extend(ss: seq<State>, actions: seq<Action>, a: Action)
    returns (ss': seq<State>, actions': seq<Action>)
    requires IsRun(ss, actions) && Enabled(ss[|actions|], a)
    ensures IsRun(ss', actions') && |actions'| == |actions| + 1
    ensures ss'[|actions'|] == Apply(ss[|actions|], a)
  {
    ss', actions' := ss + [Apply(ss[|actions|], a)], actions + [a];
  }
}
