/**
  What the quarantine does over a whole run of calls.

  The simple policy keeps everything that was ever recorded and the time of the last sweep, and
  answers by looking at that history.  The bounded queue of module Quarantine is shown to give the
  same answers, and the documented time windows are derived for every run.
 */
module QuarantineHistory {
  import opened Quarantine
  import opened SetFacts

  /** One call into the quarantine, with the clock value it reads. */
  datatype Call = Expire(now: nat) | Ask(addr: string, now: nat)

  ghost predicate ClockOrdered(calls: seq<Call>) {
    forall i, j :: 0 <= i < j < |calls| ==> calls[i].now <= calls[j].now
  }

  function Clock(calls: seq<Call>): nat {
    if calls == [] then 0 else calls[|calls| - 1].now
  }

  // ------------------------------------------------------------------------------------------
  // The bounded queue over a run
  // ------------------------------------------------------------------------------------------

  function ApplyToQueue(r: seq<Record>, c: Call): seq<Record> {
    match c
    case Expire(now) => Sweep(r, now)
    case Ask(addr, now) => AskQueue(r, Key(addr), now)
  }

  function QueueAfter(calls: seq<Call>): seq<Record> {
    if calls == [] then []
    else ApplyToQueue(QueueAfter(calls[..|calls| - 1]), calls[|calls| - 1])
  }

  function VerdictAt(calls: seq<Call>, i: nat): Verdict
    requires i < |calls| && calls[i].Ask?
  {
    AskVerdict(QueueAfter(calls[..i]), Key(calls[i].addr), calls[i].now)
  }

  // ------------------------------------------------------------------------------------------
  // The simple policy: nothing is ever removed
  // ------------------------------------------------------------------------------------------

  /** Every record ever made, in order, and the time of the last sweep. */
  datatype History = History(log: seq<Record>, swept: nat)

  /** Still held: fewer than 128 records are younger, and no sweep found it an hour old. */
  predicate Held(h: History, p: nat) {
    p < |h.log| && |h.log| - p <= MAX_ADV_ADDR_MAP_SIZE && !Expired(h.log[p], h.swept)
  }

  ghost predicate HeldFor(h: History, p: nat, key: string) {
    Held(h, p) && h.log[p].key == key
  }

  ghost function PolicyVerdict(h: History, key: string, now: nat): Verdict {
    if exists p: nat :: HeldFor(h, p, key) && now >= h.log[p].time + ADV_ADDR_TIME_THRESHOLD then Refused
    else if exists p: nat :: HeldFor(h, p, key) then Reused
    else Recorded
  }

  ghost function ApplyToHistory(h: History, c: Call): History {
    match c
    case Expire(now) => h.(swept := now)
    case Ask(addr, now) =>
      if PolicyVerdict(h, Key(addr), now) == Recorded then h.(log := h.log + [Record(Key(addr), now)]) else h
  }

  ghost function HistoryOf(calls: seq<Call>): History {
    if calls == [] then History([], 0)
    else ApplyToHistory(HistoryOf(calls[..|calls| - 1]), calls[|calls| - 1])
  }

  ghost function PolicyVerdictAt(calls: seq<Call>, i: nat): Verdict
    requires i < |calls| && calls[i].Ask?
  {
    PolicyVerdict(HistoryOf(calls[..i]), Key(calls[i].addr), calls[i].now)
  }

  // ------------------------------------------------------------------------------------------
  // The queue refines the policy
  // ------------------------------------------------------------------------------------------

  /** The queue is the suffix of the log that is still held. */
  ghost predicate Coupled(r: seq<Record>, h: History, clock: nat) {
    && WellFormed(r)
    && TimeSorted(h.log) && NotAfter(h.log, clock) && h.swept <= clock
    && |r| <= |h.log| && r == h.log[|h.log| - |r|..]
    && (forall p: nat :: p < |h.log| ==> (Held(h, p) <==> |h.log| - |r| <= p))
  }

  lemma {:induction false} PositionIsThe(r: seq<Record>, key: string, j: nat)
    requires DistinctKeys(r) && j < |r|
    ensures r[j].key == key <==> Position(r, key) == j
  {
    var i := Position(r, key);
    if i < j {
      assert r[i].key != r[j].key;
    }
  }

  /** At most one held record carries a key: the one the queue finds. */
  lemma {:induction false} HeldForIsFound(r: seq<Record>, h: History, clock: nat, key: string, p: nat)
    requires Coupled(r, h, clock)
    ensures HeldFor(h, p, key) <==> Position(r, key) < |r| && p == |h.log| - |r| + Position(r, key)
  {
    var d := |h.log| - |r|;
    assert p < |h.log| ==> (Held(h, p) <==> d <= p);
    if d <= p < |h.log| {
      assert r[p - d] == h.log[p];
      PositionIsThe(r, key, p - d);
    }
  }

  lemma {:induction false} OneHeldDecides(h: History, key: string, now: nat, p: nat)
    requires HeldFor(h, p, key) && forall q: nat :: HeldFor(h, q, key) ==> q == p
    ensures PolicyVerdict(h, key, now) == if now >= h.log[p].time + ADV_ADDR_TIME_THRESHOLD then Refused else Reused
  {
  }

  lemma {:induction false} CoupledAnswersAgree(r: seq<Record>, h: History, clock: nat, key: string, now: nat)
    requires Coupled(r, h, clock)
    ensures AskVerdict(r, key, now) == PolicyVerdict(h, key, now)
  {
    var d, i := |h.log| - |r|, Position(r, key);
    forall p: nat
      ensures HeldFor(h, p, key) <==> i < |r| && p == d + i
    {
      HeldForIsFound(r, h, clock, key, p);
    }
    if i < |r| {
      OneHeldDecides(h, key, now, d + i);
      assert r[i] == h.log[d + i];
    }
  }

  lemma {:induction false} HeldAfterSweep(r: seq<Record>, h: History, clock: nat, now: nat, p: nat)
    requires Coupled(r, h, clock) && clock <= now && p < |h.log|
    ensures Held(h.(swept := now), p) <==> |h.log| - |r| + ExpiredPrefix(r, now) <= p
  {
    SweepIsSuffix(r, now);
    assert Held(h, p) <==> |h.log| - |r| <= p;
    if |h.log| - |r| <= p {
      assert r[p - (|h.log| - |r|)] == h.log[p];
    }
  }

  lemma {:induction false} SuffixOfSuffix(log: seq<Record>, d: nat, e: nat)
    requires d + e <= |log|
    ensures log[d..][e..] == log[d + e..]
  {
  }

  lemma {:induction false} CoupledAfterSweep(r: seq<Record>, h: History, clock: nat, now: nat)
    requires Coupled(r, h, clock) && clock <= now
    ensures Coupled(Sweep(r, now), h.(swept := now), now)
  {
    var d, e := |h.log| - |r|, ExpiredPrefix(r, now);
    forall p: nat | p < |h.log|
      ensures Held(h.(swept := now), p) <==> d + e <= p
    {
      HeldAfterSweep(r, h, clock, now, p);
    }
    SweepIsSuffix(r, now);
    SuffixWellFormed(r, e);
    SuffixOfSuffix(h.log, d, e);
  }

  /** The queue contents that survive the eviction made for a new record. */
  function Kept(r: seq<Record>): seq<Record> {
    if |r| >= MAX_ADV_ADDR_MAP_SIZE then r[1..] else r
  }

  lemma {:induction false} HeldAfterRecord(r: seq<Record>, h: History, clock: nat, rec: Record, p: nat)
    requires Coupled(r, h, clock) && clock <= rec.time && p <= |h.log|
    ensures Held(h.(log := h.log + [rec]), p) <==> |h.log| - |Kept(r)| <= p
  {
    if p < |h.log| {
      assert (h.log + [rec])[p] == h.log[p];
      assert Held(h, p) <==> |h.log| - |r| <= p;
    }
  }

  lemma {:induction false} WellFormedAfterRecord(r: seq<Record>, key: string, now: nat)
    requires WellFormed(r) && NotAfter(r, now) && Position(r, key) == |r|
    ensures WellFormed(Kept(r) + [Record(key, now)])
  {
    var d := |r| - |Kept(r)|;
    SuffixWellFormed(r, d);
    forall i | 0 <= i < |Kept(r)|
      ensures Kept(r)[i].key != key && Kept(r)[i].time <= now
    {
      assert Kept(r)[i] == r[d + i];
    }
    PushWellFormed(Kept(r), Record(key, now));
  }

  lemma {:induction false} SuffixAfterRecord(r: seq<Record>, log: seq<Record>, rec: Record)
    requires |r| <= |log| && r == log[|log| - |r|..]
    ensures Kept(r) + [rec] == (log + [rec])[|log| - |Kept(r)|..]
  {
    if |r| >= MAX_ADV_ADDR_MAP_SIZE {
      assert r[1..] == log[|log| - |r| + 1..];
    }
  }

  lemma {:induction false} CoupledAfterRecord(r: seq<Record>, h: History, clock: nat, key: string, now: nat)
    requires Coupled(r, h, clock) && clock <= now
    requires AskVerdict(r, key, now) == Recorded
    ensures Coupled(AskQueue(r, key, now), h.(log := h.log + [Record(key, now)]), now)
  {
    var rec := Record(key, now);
    SuffixNotAfter(h.log, |h.log| - |r|, now);
    PushTimeSorted(h.log, rec);
    WellFormedAfterRecord(r, key, now);
    SuffixAfterRecord(r, h.log, rec);
    forall p: nat | p <= |h.log|
      ensures Held(h.(log := h.log + [rec]), p) <==> |h.log| - |Kept(r)| <= p
    {
      HeldAfterRecord(r, h, clock, rec, p);
    }
  }

  lemma {:induction false} CoupledAfterCall(r: seq<Record>, h: History, clock: nat, c: Call)
    requires Coupled(r, h, clock) && clock <= c.now
    ensures Coupled(ApplyToQueue(r, c), ApplyToHistory(h, c), c.now)
  {
    if c.Expire? {
      CoupledAfterSweep(r, h, clock, c.now);
    } else {
      CoupledAnswersAgree(r, h, clock, Key(c.addr), c.now);
      if AskVerdict(r, Key(c.addr), c.now) == Recorded {
        CoupledAfterRecord(r, h, clock, Key(c.addr), c.now);
      }
    }
  }

  /** Over every run the queue holds exactly the records the policy still holds. */
  lemma {:induction false} QueueHoldsWhatPolicyHolds(calls: seq<Call>)
    requires ClockOrdered(calls)
    ensures Coupled(QueueAfter(calls), HistoryOf(calls), Clock(calls))
  {
    if calls != [] {
      var before, c := calls[..|calls| - 1], calls[|calls| - 1];
      QueueHoldsWhatPolicyHolds(before);
      CoupledAfterCall(QueueAfter(before), HistoryOf(before), Clock(before), c);
    }
  }

  /** Over every run each verdict is the one the policy computes from the full history. */
  lemma {:induction false} VerdictsRefinePolicy(calls: seq<Call>, i: nat)
    requires ClockOrdered(calls) && i < |calls| && calls[i].Ask?
    ensures VerdictAt(calls, i) == PolicyVerdictAt(calls, i)
  {
    var before := calls[..i];
    QueueHoldsWhatPolicyHolds(before);
    CoupledAnswersAgree(QueueAfter(before), HistoryOf(before), Clock(before), Key(calls[i].addr), calls[i].now);
  }

  // ------------------------------------------------------------------------------------------
  // Time windows over a run
  // ------------------------------------------------------------------------------------------

  /** Two records of one address are an hour apart, or at least 128 records lie between them. */
  ghost predicate Spaced(log: seq<Record>) {
    forall p, q :: 0 <= p < q < |log| && log[p].key == log[q].key ==>
                     Expired(log[p], log[q].time) || q - p > MAX_ADV_ADDR_MAP_SIZE
  }

  lemma {:induction false} LogIsSpaced(calls: seq<Call>)
    requires ClockOrdered(calls)
    ensures Spaced(HistoryOf(calls).log)
  {
    if calls != [] {
      var n := |calls| - 1;
      var before, c := calls[..n], calls[n];
      LogIsSpaced(before);
      QueueHoldsWhatPolicyHolds(before);
      var h, h' := HistoryOf(before), HistoryOf(calls);
      forall p, q | 0 <= p < q < |h'.log| && h'.log[p].key == h'.log[q].key
        ensures Expired(h'.log[p], h'.log[q].time) || q - p > MAX_ADV_ADDR_MAP_SIZE
      {
        assert h'.log[p] == h.log[p];
        if q < |h.log| {
          assert h'.log[q] == h.log[q];
        } else {
          assert !HeldFor(h, p, Key(c.addr));
        }
      }
    }
  }

  lemma {:induction false} LogOfPrefix(calls: seq<Call>, n: nat)
    requires ClockOrdered(calls) && n <= |calls|
    ensures TimeSorted(HistoryOf(calls[..n]).log) && Spaced(HistoryOf(calls[..n]).log)
  {
    QueueHoldsWhatPolicyHolds(calls[..n]);
    LogIsSpaced(calls[..n]);
  }

  /** The addresses recorded by calls lo up to hi. */
  ghost function RecordedKeys(calls: seq<Call>, lo: nat, hi: nat): set<string>
    requires lo <= hi <= |calls|
  {
    set i | lo <= i < hi && IsRecording(calls, i) :: Key(calls[i].addr)
  }

  ghost predicate IsRecording(calls: seq<Call>, i: nat) {
    i < |calls| && calls[i].Ask? && PolicyVerdictAt(calls, i) == Recorded
  }

  ghost function LogLength(calls: seq<Call>, i: nat): nat
    requires i <= |calls|
  {
    |HistoryOf(calls[..i]).log|
  }

  /** The log only grows, so the log of a prefix of the calls is a prefix of the log. */
  lemma {:induction false} LogGrows(calls: seq<Call>, i: nat, j: nat)
    requires i <= j <= |calls|
    ensures HistoryOf(calls[..i]).log <= HistoryOf(calls[..j]).log
    decreases j - i
  {
    if i < j {
      LogGrows(calls, i, j - 1);
      assert calls[..j][..j - 1] == calls[..j - 1];
    }
  }

  lemma {:induction false} RecordingAppends(calls: seq<Call>, i: nat)
    requires IsRecording(calls, i)
    ensures HistoryOf(calls[..i + 1]).log == HistoryOf(calls[..i]).log + [Record(Key(calls[i].addr), calls[i].now)]
  {
    assert calls[..i + 1][..i] == calls[..i];
  }

  /** Everything in the log between two call indices was recorded by a call between them. */
  lemma {:induction false} LogSliceIsRecorded(calls: seq<Call>, i: nat, j: nat, p: nat)
    requires i <= j <= |calls| && LogLength(calls, i) <= p < LogLength(calls, j)
    ensures HistoryOf(calls[..j]).log[p].key in RecordedKeys(calls, i, j)
    decreases j - i
  {
    assert i < j;
    assert calls[..j][..j - 1] == calls[..j - 1];
    if p < LogLength(calls, j - 1) {
      LogSliceIsRecorded(calls, i, j - 1, p);
    } else {
      assert IsRecording(calls, j - 1);
    }
  }

  /** A run of records with pairwise different keys contributes that many keys. */
  lemma {:induction false} DistinctKeysCount(log: seq<Record>, lo: nat, hi: nat) returns (keys: set<string>)
    requires lo <= hi <= |log|
    requires forall p, q :: lo <= p < q < hi ==> log[p].key != log[q].key
    ensures |keys| == hi - lo
    ensures forall k :: k in keys ==> exists p :: lo <= p < hi && log[p].key == k
    decreases hi
  {
    keys := {};
    if lo < hi {
      var rest := DistinctKeysCount(log, lo, hi - 1);
      keys := rest + {log[hi - 1].key};
    }
  }

  /** Within an hour of a recording, the 128 records after it carry keys that differ from it and each other. */
  lemma {:induction false} DistinctAfter(log: seq<Record>, p: nat, a: nat, b: nat)
    requires TimeSorted(log) && Spaced(log) && p <= a < b <= p + MAX_ADV_ADDR_MAP_SIZE && b < |log|
    requires !Expired(log[p], log[|log| - 1].time)
    ensures log[a].key != log[b].key
  {
    assert log[p].time <= log[a].time && log[b].time <= log[|log| - 1].time;
  }

  /** Two recordings of one address within an hour have 128 other addresses recorded between them. */
  lemma {:induction false} ManyBetween(calls: seq<Call>, i: nat, j: nat, log: seq<Record>, p: nat)
    requires i <= j <= |calls| && HistoryOf(calls[..j]).log <= log && |log| == LogLength(calls, j) + 1
    requires TimeSorted(log) && Spaced(log) && p < |log| - 1 && LogLength(calls, i) == p + 1
    requires log[p].key == log[|log| - 1].key && !Expired(log[p], log[|log| - 1].time)
    ensures |RecordedKeys(calls, i, j) - {log[p].key}| >= MAX_ADV_ADDR_MAP_SIZE
  {
    var end := p + 1 + MAX_ADV_ADDR_MAP_SIZE;
    assert end < |log|;
    forall a, b | p + 1 <= a < b < end
      ensures log[a].key != log[b].key
    {
      DistinctAfter(log, p, a, b);
    }
    var keys := DistinctKeysCount(log, p + 1, end);
    forall k | k in keys
      ensures k in RecordedKeys(calls, i, j) - {log[p].key}
    {
      var m :| p + 1 <= m < end && log[m].key == k;
      DistinctAfter(log, p, p, m);
      LogSliceIsRecorded(calls, i, j, m);
    }
    SubsetSize(keys, RecordedKeys(calls, i, j) - {log[p].key});
  }

  lemma {:induction false} SpacedOrMany(calls: seq<Call>, i: nat, j: nat, log: seq<Record>, p: nat)
    requires i <= j <= |calls| && HistoryOf(calls[..j]).log <= log && |log| == LogLength(calls, j) + 1
    requires TimeSorted(log) && Spaced(log) && p < |log| - 1 && LogLength(calls, i) == p + 1
    requires log[p].key == log[|log| - 1].key
    ensures Expired(log[p], log[|log| - 1].time) || |RecordedKeys(calls, i, j) - {log[p].key}| >= MAX_ADV_ADDR_MAP_SIZE
  {
    if !Expired(log[p], log[|log| - 1].time) {
      ManyBetween(calls, i, j, log, p);
    }
  }

  /** The log up to the second of two recordings, and where the first stands in it. */
  lemma {:induction false} RecordingsInLog(calls: seq<Call>, i: nat, j: nat) returns (log: seq<Record>, p: nat)
    requires ClockOrdered(calls) && i < j && IsRecording(calls, i) && IsRecording(calls, j)
    ensures TimeSorted(log) && Spaced(log)
    ensures LogLength(calls, i + 1) == p + 1 <= LogLength(calls, j) && |log| == LogLength(calls, j) + 1
    ensures HistoryOf(calls[..j]).log <= log
    ensures log[p] == Record(Key(calls[i].addr), calls[i].now)
    ensures log[|log| - 1] == Record(Key(calls[j].addr), calls[j].now)
  {
    log, p := HistoryOf(calls[..j + 1]).log, LogLength(calls, i);
    LogOfPrefix(calls, j + 1);
    RecordingAppends(calls, i);
    RecordingAppends(calls, j);
    LogGrows(calls, i + 1, j);
  }

  /**
    Whole-run window safety, second half: two window starts of one address are at least one hour
    apart, unless at least 128 other addresses, all different, were recorded between them.
   */
  lemma {:induction false} WindowStartsAreSpaced(calls: seq<Call>, i: nat, j: nat)
    requires ClockOrdered(calls)
    requires i < j && IsRecording(calls, i) && IsRecording(calls, j)
    requires Key(calls[i].addr) == Key(calls[j].addr)
    ensures calls[j].now >= calls[i].now + 60 * 60 * 1000
            || |RecordedKeys(calls, i + 1, j) - {Key(calls[i].addr)}| >= 128
  {
    var log, p := RecordingsInLog(calls, i, j);
    SpacedOrMany(calls, i + 1, j, log, p);
  }

  /**
    Whole-run window safety, first half: every accepted start lies less than 15 minutes after a
    recording of the same address.
   */
  lemma {:induction false} AcceptedStartsLieInWindow(calls: seq<Call>, i: nat)
    requires ClockOrdered(calls) && i < |calls| && calls[i].Ask? && VerdictAt(calls, i).Accepts()
    ensures exists j :: 0 <= j <= i && IsRecording(calls, j) && Key(calls[j].addr) == Key(calls[i].addr)
                        && calls[j].now <= calls[i].now < calls[j].now + 15 * 60 * 1000
  {
    VerdictsRefinePolicy(calls, i);
    if IsRecording(calls, i) {
      assert calls[i].now < calls[i].now + ADV_ADDR_TIME_THRESHOLD;
    } else {
      var h := HistoryOf(calls[..i]);
      var p: nat :| HeldFor(h, p, Key(calls[i].addr));
      var j := RecordingOf(calls, i, p);
    }
  }

  /** Every log entry was appended by a recording call. */
  lemma {:induction false} RecordingOf(calls: seq<Call>, i: nat, p: nat) returns (j: nat)
    requires i <= |calls| && p < LogLength(calls, i)
    ensures j < i && IsRecording(calls, j)
    ensures HistoryOf(calls[..i]).log[p] == Record(Key(calls[j].addr), calls[j].now)
    decreases i
  {
    assert calls[..i][..i - 1] == calls[..i - 1];
    if p < LogLength(calls, i - 1) {
      j := RecordingOf(calls, i - 1, p);
    } else {
      j := i - 1;
    }
  }

  /** An address that was never asked about before, in any letter case, is accepted. */
  lemma {:induction false} NewAddressIsAccepted(calls: seq<Call>, i: nat)
    requires ClockOrdered(calls) && i < |calls| && calls[i].Ask?
    requires forall j :: 0 <= j < i && calls[j].Ask? ==> !SameUpToCase(calls[j].addr, calls[i].addr)
    ensures VerdictAt(calls, i) == Recorded
  {
    VerdictsRefinePolicy(calls, i);
    var h := HistoryOf(calls[..i]);
    forall p: nat
      ensures !HeldFor(h, p, Key(calls[i].addr))
    {
      if p < |h.log| {
        var j := RecordingOf(calls, i, p);
        SameKeyIff(calls[j].addr, calls[i].addr);
      }
    }
  }

  /** Every accepted start of an address lies less than 15 minutes after its recording, letter case aside. */
  lemma {:induction false} AcceptedStartHasRecording(calls: seq<Call>, i: nat)
    requires ClockOrdered(calls) && i < |calls| && calls[i].Ask? && VerdictAt(calls, i).Accepts()
    ensures exists j :: 0 <= j <= i && IsRecording(calls, j) && SameUpToCase(calls[j].addr, calls[i].addr)
                        && calls[j].now <= calls[i].now < calls[j].now + 15 * 60 * 1000
  {
    AcceptedStartsLieInWindow(calls, i);
    var j :| 0 <= j <= i && IsRecording(calls, j) && Key(calls[j].addr) == Key(calls[i].addr)
             && calls[j].now <= calls[i].now < calls[j].now + ADV_ADDR_TIME_THRESHOLD;
    SameKeyIff(calls[j].addr, calls[i].addr);
  }

  /** A held record of the address, 15 minutes old at the question and not yet an hour old at the sweep. */
  ghost predicate InQuarantine(log: seq<Record>, p: nat, key: string, sweep: nat, ask: nat) {
    && p < |log| && |log| - p <= 128 && log[p].key == key
    && log[p].time + 15 * 60 * 1000 <= ask && sweep < log[p].time + 60 * 60 * 1000
  }

  lemma {:induction false} RefusedIffInQuarantine(h: History, key: string, ask: nat)
    ensures PolicyVerdict(h, key, ask) == Refused <==> exists p: nat :: InQuarantine(h.log, p, key, h.swept, ask)
  {
    if p: nat :| InQuarantine(h.log, p, key, h.swept, ask) {
      assert HeldFor(h, p, key);
    }
    if PolicyVerdict(h, key, ask) == Refused {
      var p: nat :| HeldFor(h, p, key) && ask >= h.log[p].time + ADV_ADDR_TIME_THRESHOLD;
      assert InQuarantine(h.log, p, key, h.swept, ask);
    }
  }

  /**
    The rule that BleStartAdvWithAddr applies, with the clock read once for the sweep and again for the
    question: refused are exactly the addresses recorded at least 15 minutes before the question and
    less than an hour before the sweep, and not pushed out by 128 younger records.
   */
  lemma {:induction false} RefusedExactlyInQuarantine(calls: seq<Call>, addr: string, sweep: nat, ask: nat)
    requires ClockOrdered(calls + [Expire(sweep), Ask(addr, ask)])
    ensures var run := calls + [Expire(sweep), Ask(addr, ask)];
            VerdictAt(run, |calls| + 1) == Refused <==>
            exists p: nat :: InQuarantine(HistoryOf(calls).log, p, Key(addr), sweep, ask)
  {
    var run := calls + [Expire(sweep), Ask(addr, ask)];
    VerdictsRefinePolicy(run, |calls| + 1);
    var swept := run[..|calls| + 1];
    assert swept == calls + [Expire(sweep)];
    assert swept[..|calls|] == calls;
    assert HistoryOf(swept) == HistoryOf(calls).(swept := sweep);
    RefusedIffInQuarantine(HistoryOf(swept), Key(addr), ask);
  }

  /** A full hour is not always enough: a record that the sweep just misses still refuses the question. */
  lemma {:induction false} RefusedAfterAnHour(addr: string) returns (calls: seq<Call>)
    ensures calls == [Ask(addr, 0), Expire(3_599_999), Ask(addr, 3_600_000)] && ClockOrdered(calls)
    ensures VerdictAt(calls, 0) == Recorded && VerdictAt(calls, 2) == Refused
  {
    calls := [Ask(addr, 0), Expire(ADV_ADDR_TIMEOUT - 1), Ask(addr, ADV_ADDR_TIMEOUT)];
    assert calls[..1] == [calls[0]] && calls[..2] == [calls[0], calls[1]];
    assert calls[..1][..0] == [] && calls[..2][..1] == calls[..1];
    var recorded := [Record(Key(addr), 0)];
    assert QueueAfter(calls[..1]) == recorded;
    assert QueueAfter(calls[..2]) == recorded;
    assert recorded[0].key == Key(addr) && Position(recorded, Key(addr)) == 0;
  }
}
