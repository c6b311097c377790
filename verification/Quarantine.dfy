/**
  The advertising-address quarantine of the C adapter.

  A process-wide FIFO queue of (address, time) pairs and a case-insensitive map from address to
  time decide whether an address may be advertised again: freely for 15 minutes after it was
  recorded, not at all until one hour has passed, and afterwards as a new address.  At most 128
  addresses are held.  The clock is an input; it is read under the lock, so the values of a run
  never decrease.
 */
module Quarantine {
  import opened Basics

  const MAX_ADV_ADDR_MAP_SIZE: nat := 128
  const ADV_ADDR_TIMEOUT: nat := 60 * 60 * 1000
  const ADV_ADDR_TIME_THRESHOLD: nat := 15 * 60 * 1000

  // ------------------------------------------------------------------------------------------
  // The map's comparator, and why the lower-cased string is a faithful key
  // ------------------------------------------------------------------------------------------

  function ToLower(c: char): char {
    if 'A' <= c <= 'Z' then c + 32 as char else c
  }

  function Key(s: string): (k: string)
    ensures |k| == |s|
    ensures forall i :: 0 <= i < |s| ==> k[i] == ToLower(s[i])
  {
    seq(|s|, i requires 0 <= i < |s| => ToLower(s[i]))
  }

  /** Lexicographical comparison of lower-cased characters: the ordering of the address map. */
  predicate Less(s: string, t: string) {
    if t == [] then false
    else if s == [] then true
    else if ToLower(s[0]) < ToLower(t[0]) then true
    else if ToLower(t[0]) < ToLower(s[0]) then false
    else Less(s[1..], t[1..])
  }

  const UPPER: string := "ABCDEFGHIJKLMNOPQRSTUVWXYZ"
  const LOWER: string := "abcdefghijklmnopqrstuvwxyz"

  /** The same character, or the two cases of one letter. */
  predicate SameLetter(c: char, d: char) {
    c == d || exists k :: 0 <= k < 26 && ((c == UPPER[k] && d == LOWER[k]) || (c == LOWER[k] && d == UPPER[k]))
  }

  predicate SameUpToCase(s: string, t: string) {
    |s| == |t| && forall i :: 0 <= i < |s| ==> SameLetter(s[i], t[i])
  }

  lemma {:induction false} Alphabet(k: nat)
    requires k < 26
    ensures UPPER[k] == 'A' + k as char && LOWER[k] == 'a' + k as char
  {
  }

  lemma {:induction false} SameLetterIff(c: char, d: char)
    ensures ToLower(c) == ToLower(d) <==> SameLetter(c, d)
  {
    if 'A' <= c <= 'Z' {
      Alphabet((c - 'A') as nat);
      assert UPPER[(c - 'A') as nat] == c;
    }
    if 'A' <= d <= 'Z' {
      Alphabet((d - 'A') as nat);
      assert UPPER[(d - 'A') as nat] == d;
    }
    if k :| 0 <= k < 26 && ((c == UPPER[k] && d == LOWER[k]) || (c == LOWER[k] && d == UPPER[k])) {
      Alphabet(k);
    }
  }

  /** Keys are equal exactly when the addresses differ in letter case only. */
  lemma {:induction false} SameKeyIff(s: string, t: string)
    ensures Key(s) == Key(t) <==> SameUpToCase(s, t)
  {
    forall i | 0 <= i < |s| && i < |t|
      ensures Key(s)[i] == Key(t)[i] <==> SameLetter(s[i], t[i])
    {
      SameLetterIff(s[i], t[i]);
    }
  }

  lemma {:induction false} EquivalentIffSameKey(s: string, t: string)
    ensures !Less(s, t) && !Less(t, s) <==> Key(s) == Key(t)
  {
    if s == [] || t == [] {
      assert |Key(s)| == |s| && |Key(t)| == |t|;
    } else {
      EquivalentIffSameKey(s[1..], t[1..]);
      assert Key(s) == [ToLower(s[0])] + Key(s[1..]);
      assert Key(t) == [ToLower(t[0])] + Key(t[1..]);
    }
  }

  /** The map treats two addresses as one entry exactly when they differ in letter case only. */
  lemma {:induction false} EquivalentIffSameUpToCase(s: string, t: string)
    ensures !Less(s, t) && !Less(t, s) <==> SameUpToCase(s, t)
  {
    EquivalentIffSameKey(s, t);
    SameKeyIff(s, t);
  }

  /** With EquivalentIffSameKey this makes the comparator a strict weak order, as std::map needs. */
  lemma {:induction false} LessIsTransitive(s: string, t: string, u: string)
    requires Less(s, t) && Less(t, u)
    ensures Less(s, u)
    ensures !Less(u, s)
  {
    if s != [] && ToLower(s[0]) == ToLower(t[0]) == ToLower(u[0]) {
      LessIsTransitive(s[1..], t[1..], u[1..]);
    }
  }

  // ------------------------------------------------------------------------------------------
  // The implementation
  // ------------------------------------------------------------------------------------------

  datatype Entry = Entry(addr: string, time: nat)

  /** A recorded address: what an entry means, with the letter case forgotten. */
  datatype Record = Record(key: string, time: nat)

  function Records(q: seq<Entry>): (r: seq<Record>)
    ensures |r| == |q|
    ensures forall i :: 0 <= i < |q| ==> r[i] == Record(Key(q[i].addr), q[i].time)
  {
    seq(|q|, i requires 0 <= i < |q| => Record(Key(q[i].addr), q[i].time))
  }

  predicate Expired(r: Record, now: nat) {
    now >= r.time + ADV_ADDR_TIMEOUT
  }

  ghost predicate TimeSorted(r: seq<Record>) {
    forall i, j :: 0 <= i < j < |r| ==> r[i].time <= r[j].time
  }

  ghost predicate DistinctKeys(r: seq<Record>) {
    forall i, j :: 0 <= i < j < |r| ==> r[i].key != r[j].key
  }

  /** Map and queue hold exactly the same (address, time) pairs. */
  ghost predicate InStep(m: map<string, nat>, r: seq<Record>) {
    && (forall i :: 0 <= i < |r| ==> r[i].key in m && m[r[i].key] == r[i].time)
    && (forall k :: k in m ==> exists i :: 0 <= i < |r| && r[i].key == k)
  }

  ghost predicate NotAfter(r: seq<Record>, now: nat) {
    forall i :: 0 <= i < |r| ==> r[i].time <= now
  }

  ghost predicate WellFormed(r: seq<Record>) {
    |r| <= MAX_ADV_ADDR_MAP_SIZE && TimeSorted(r) && DistinctKeys(r)
  }

  datatype Verdict = Recorded | Reused | Refused {
    predicate Accepts() { this != Refused }
  }

  /** The first record with the key, or the length of the queue. */
  function Position(r: seq<Record>, key: string): nat {
    FindFirst(r, (rec: Record) => rec.key == key)
  }

  /** The answer about an address, and what the queue becomes: the specification of CanStartAdv. */
  function AskVerdict(r: seq<Record>, key: string, now: nat): Verdict {
    var p := Position(r, key);
    if p == |r| then Recorded
    else if now >= r[p].time + ADV_ADDR_TIME_THRESHOLD then Refused
    else Reused
  }

  function AskQueue(r: seq<Record>, key: string, now: nat): seq<Record> {
    if AskVerdict(r, key, now) != Recorded then r
    else (if |r| >= MAX_ADV_ADDR_MAP_SIZE then r[1..] else r) + [Record(key, now)]
  }

  /** Pops expired records from the front, as the expiry loop does. */
  function Sweep(r: seq<Record>, now: nat): seq<Record> {
    if r != [] && Expired(r[0], now) then Sweep(r[1..], now) else r
  }

  function Unexpired(r: seq<Record>, now: nat): seq<Record> {
    if r == [] then []
    else (if Expired(r[0], now) then [] else [r[0]]) + Unexpired(r[1..], now)
  }

  /** The number of records the expiry loop pops. */
  function ExpiredPrefix(r: seq<Record>, now: nat): (d: nat)
    ensures d <= |r|
  {
    if r != [] && Expired(r[0], now) then ExpiredPrefix(r[1..], now) + 1 else 0
  }

  /** On a time-sorted queue, popping at the front removes every expired record and no other. */
  lemma {:induction false} SweepRemovesExactlyExpired(r: seq<Record>, now: nat)
    requires TimeSorted(r)
    ensures Sweep(r, now) == Unexpired(r, now)
  {
    if r != [] {
      if Expired(r[0], now) {
        SweepRemovesExactlyExpired(r[1..], now);
      } else {
        UnexpiredKeepsFresh(r, now);
      }
    }
  }

  lemma {:induction false} SweepIsSuffix(r: seq<Record>, now: nat)
    requires TimeSorted(r)
    ensures Sweep(r, now) == r[ExpiredPrefix(r, now)..]
    ensures forall i :: 0 <= i < |r| ==> (Expired(r[i], now) <==> i < ExpiredPrefix(r, now))
  {
    if r != [] && Expired(r[0], now) {
      var t := r[1..];
      SweepIsSuffix(t, now);
      forall i | 0 <= i < |r|
        ensures Expired(r[i], now) <==> i < ExpiredPrefix(r, now)
      {
        if i > 0 { assert t[i - 1] == r[i]; }
      }
    }
  }

  lemma {:induction false} UnexpiredKeepsFresh(r: seq<Record>, now: nat)
    requires forall i :: 0 <= i < |r| ==> !Expired(r[i], now)
    ensures Unexpired(r, now) == r
  {
    if r != [] {
      UnexpiredKeepsFresh(r[1..], now);
    }
  }

  lemma {:induction false} PushTimeSorted(r: seq<Record>, rec: Record)
    requires TimeSorted(r) && NotAfter(r, rec.time)
    ensures TimeSorted(r + [rec]) && NotAfter(r + [rec], rec.time)
  {
  }

  lemma {:induction false} SuffixNotAfter(r: seq<Record>, d: nat, now: nat)
    requires NotAfter(r, now) && d <= |r|
    ensures NotAfter(r[d..], now)
  {
    assert forall i :: 0 <= i < |r[d..]| ==> r[d..][i] == r[d + i];
  }

  lemma {:induction false} PushWellFormed(r: seq<Record>, rec: Record)
    requires WellFormed(r) && NotAfter(r, rec.time) && |r| < MAX_ADV_ADDR_MAP_SIZE
    requires forall i :: 0 <= i < |r| ==> r[i].key != rec.key
    ensures WellFormed(r + [rec]) && NotAfter(r + [rec], rec.time)
  {
  }

  lemma {:induction false} SuffixWellFormed(r: seq<Record>, d: nat)
    requires WellFormed(r) && d <= |r|
    ensures WellFormed(r[d..])
  {
    var t := r[d..];
    forall i, j | 0 <= i < j < |t|
      ensures t[i].time <= t[j].time && t[i].key != t[j].key
    {
      assert t[i] == r[d + i] && t[j] == r[d + j];
    }
  }

  lemma {:induction false} PushKeepsInStep(m: map<string, nat>, r: seq<Record>, key: string, now: nat)
    requires WellFormed(r) && InStep(m, r) && NotAfter(r, now)
    requires |r| < MAX_ADV_ADDR_MAP_SIZE && key !in m
    ensures WellFormed(r + [Record(key, now)]) && NotAfter(r + [Record(key, now)], now)
    ensures InStep(m[key := now], r + [Record(key, now)])
  {
    var r', m' := r + [Record(key, now)], m[key := now];
    PushWellFormed(r, Record(key, now));
    forall k | k in m'
      ensures exists i :: 0 <= i < |r'| && r'[i].key == k
    {
      if k == key {
        assert r'[|r|].key == k;
      } else {
        var i :| 0 <= i < |r| && r[i].key == k;
        assert r'[i].key == k;
      }
    }
  }

  lemma {:induction false} PopKeepsInStep(m: map<string, nat>, r: seq<Record>)
    requires WellFormed(r) && InStep(m, r) && r != []
    ensures WellFormed(r[1..]) && InStep(m - {r[0].key}, r[1..])
  {
    var r', m' := r[1..], m - {r[0].key};
    SuffixWellFormed(r, 1);
    forall k | k in m'
      ensures exists i :: 0 <= i < |r'| && r'[i].key == k
    {
      var i :| 0 <= i < |r| && r[i].key == k;
      assert r'[i - 1].key == k;
    }
  }

  lemma {:induction false} MapAnswersForQueue(m: map<string, nat>, r: seq<Record>, key: string)
    requires InStep(m, r)
    ensures key in m <==> Position(r, key) < |r|
    ensures key in m ==> m[key] == r[Position(r, key)].time
  {
    if key in m {
      var i :| 0 <= i < |r| && r[i].key == key;
    }
  }

  class AddressQuarantine {
    var advAddrMap: map<string, nat>
    var advTimeQueue: seq<Entry>

    ghost predicate Valid()
      reads this
    {
      && WellFormed(Contents())
      && InStep(advAddrMap, Contents())
    }

    ghost function Contents(): seq<Record>
      reads this
    {
      Records(advTimeQueue)
    }

    constructor ()
      ensures Valid() && Contents() == []
    {
      advAddrMap := map[];
      advTimeQueue := [];
    }

    method PopFront()
      requires Valid() && advTimeQueue != []
      modifies this
      ensures Valid() && Contents() == old(Contents())[1..]
      ensures advAddrMap.Keys == old(advAddrMap.Keys) - {old(Contents())[0].key}
    {
      PopKeepsInStep(advAddrMap, Contents());
      advAddrMap := advAddrMap - {Key(advTimeQueue[0].addr)};
      advTimeQueue := advTimeQueue[1..];
      assert Contents() == old(Contents())[1..];
    }

    method RemoveTimeoutAdvAddr(currentMillis: nat)
      requires Valid()
      modifies this
      ensures Valid()
      ensures Contents() == Unexpired(old(Contents()), currentMillis)
      ensures Contents() == Sweep(old(Contents()), currentMillis)
    {
      SweepRemovesExactlyExpired(Contents(), currentMillis);
      while advTimeQueue != [] && currentMillis >= advTimeQueue[0].time + ADV_ADDR_TIMEOUT
        invariant Valid()
        invariant Sweep(Contents(), currentMillis) == Sweep(old(Contents()), currentMillis)
        decreases |advTimeQueue|
      {
        PopFront();
      }
    }

    /** Evicts the oldest entry when the queue is full, then enters the address in both tables. */
    method Remember(addrStr: string, currentMillis: nat)
      requires Valid() && NotAfter(Contents(), currentMillis) && Key(addrStr) !in advAddrMap
      modifies this
      ensures Valid() && NotAfter(Contents(), currentMillis)
      ensures Contents() == (if |old(Contents())| >= MAX_ADV_ADDR_MAP_SIZE then old(Contents())[1..] else old(Contents()))
                            + [Record(Key(addrStr), currentMillis)]
    {
      if |advTimeQueue| >= MAX_ADV_ADDR_MAP_SIZE {
        SuffixNotAfter(Contents(), 1, currentMillis);
        PopFront();
      }
      PushKeepsInStep(advAddrMap, Contents(), Key(addrStr), currentMillis);
      ghost var before := Contents();
      advTimeQueue := advTimeQueue + [Entry(addrStr, currentMillis)];
      advAddrMap := advAddrMap[Key(addrStr) := currentMillis];
      assert Contents() == before + [Record(Key(addrStr), currentMillis)];
    }

    method CanStartAdv(addrStr: string, currentMillis: nat) returns (ok: bool)
      requires Valid() && NotAfter(Contents(), currentMillis)
      modifies this
      ensures Valid() && NotAfter(Contents(), currentMillis)
      ensures ok == AskVerdict(old(Contents()), Key(addrStr), currentMillis).Accepts()
      ensures Contents() == AskQueue(old(Contents()), Key(addrStr), currentMillis)
    {
      MapAnswersForQueue(advAddrMap, Contents(), Key(addrStr));
      if Key(addrStr) in advAddrMap {
        return currentMillis < advAddrMap[Key(addrStr)] + ADV_ADDR_TIME_THRESHOLD;
      }
      Remember(addrStr, currentMillis);
      return true;
    }
  }
}
