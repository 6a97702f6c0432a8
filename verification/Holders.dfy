/** What the exporter remembers about each workload's certificate, over any history of observations. */
module Holders {
  import opened Clock

  const U64: nat := 0x1_0000_0000_0000_0000

  /** Clock readings in nanoseconds; 0 is the zero time, which no clock reads. */
  type Instant = x: int | x > 0 witness 1

  datatype Observation = Observation(
    before: nat, after: nat, validUntil: nat, fingerprint: string, dormant: bool, failed: bool)

  datatype Holder = Holder(
    attempted: nat, observed: nat, rotated: nat, before: nat, after: nat, validUntil: nat,
    fingerprint: string, success: bool, dormant: bool, successes: nat, errors: nat)

  const UNSEEN: Holder := Holder(0, 0, 0, 0, 0, 0, "", false, false, 0, 0)

  /** One recordHolder call: the observation, the clock at its validity check and the clock it is stamped with. */
  datatype Call = Call(o: Observation, checked: Instant, now: Instant)

  datatype Verdict = Success | Failure | Sleeping

  /** What a call counts as. */
  function Judge(c: Call): Verdict
  {
    var o := c.o;
    if o.failed then Failure
    else if o.dormant then Sleeping
    else if o.fingerprint != "" && 0 < o.before < o.after && c.checked < o.validUntil then Success
    else Failure
  }

  // ---------------------------------------------------------------- recordHolder

  function Bump(n: nat): nat { (n + 1) % U64 }

  /** recordHolder on one entry; the flag is the returned error. */
  function Record(h: Holder, c: Call): (Holder, bool)
  {
    var o := c.o;
    var failed := o.failed ||
      (!o.dormant
        && (o.fingerprint == "" || o.before == 0 || !(o.after > o.before) || o.validUntil == 0
             || !(c.checked < o.validUntil)));
    var s := h.(attempted := c.now, dormant := o.dormant && !failed, success := !failed && !o.dormant,
                before := 0, after := 0, validUntil := 0);
    if s.success then
      var rotated := if s.fingerprint != "" && s.fingerprint != o.fingerprint then c.now else s.rotated;
      (s.(rotated := rotated, fingerprint := o.fingerprint, before := o.before, after := o.after,
          validUntil := o.validUntil, observed := c.now, successes := Bump(s.successes)), failed)
    else if failed then (s.(errors := Bump(s.errors)), failed)
    else (s, failed)
  }

  lemma RecordFails(h: Holder, c: Call)
    ensures Record(h, c).1 <==> Judge(c).Failure?
  {
  }

  /** The assignments recordHolder makes to one entry, in order. */
  method Update(h: Holder, c: Call) returns (s: Holder, failed: bool)
    ensures (s, failed) == Record(h, c)
  {
    var o := c.o;
    failed := o.failed;
    if !failed && !o.dormant
      && (o.fingerprint == "" || o.before == 0 || !(o.after > o.before) || o.validUntil == 0
           || !(c.checked < o.validUntil)) {
      failed := true;
    }
    s := h.(attempted := c.now);
    s := s.(dormant := o.dormant && !failed);
    s := s.(success := !failed && !o.dormant);
    s := s.(before := 0, after := 0, validUntil := 0);
    if s.success {
      if s.fingerprint != "" && s.fingerprint != o.fingerprint {
        s := s.(rotated := c.now);
      }
      s := s.(fingerprint := o.fingerprint, before := o.before, after := o.after, validUntil := o.validUntil);
      s := s.(observed := c.now, successes := Bump(s.successes));
    } else if failed {
      s := s.(errors := Bump(s.errors));
    }
  }

  /** The entry after a history of calls. */
  function After(log: seq<Call>): Holder
  {
    if |log| == 0 then UNSEEN else Record(After(log[..|log| - 1]), log[|log| - 1]).0
  }

  function LogOf(logs: map<string, seq<Call>>, unit: string): seq<Call> { if unit in logs then logs[unit] else [] }

  /** The holder map of the exporter, with the history of each unit. */
  class HolderTable {
    var holders: map<string, Holder>
    ghost var logs: map<string, seq<Call>>

    ghost predicate Valid()
      reads this
    {
      holders.Keys == logs.Keys && forall u :: u in holders ==> holders[u] == After(logs[u])
    }

    constructor ()
      ensures Valid() && logs == map[]
    {
      holders, logs := map[], map[];
    }

    method RecordHolder(unit: string, c: Call) returns (failed: bool)
      requires Valid()
      modifies this
      ensures Valid()
      ensures logs == old(logs)[unit := LogOf(old(logs), unit) + [c]]
      ensures failed <==> Judge(c).Failure?
    {
      hide Record, Judge;
      ghost var log := LogOf(logs, unit);
      var was := if unit in holders then holders[unit] else UNSEEN;
      var s: Holder;
      s, failed := Update(was, c);
      RecordFails(was, c);
      assert After(log) == was;
      assert (log + [c])[..|log|] == log;
      assert After(log + [c]) == s;
      holders := holders[unit := s];
      logs := logs[unit := log + [c]];
    }

    /** The path taken when the unit states cannot be read: every target is recorded as failed, once, with clock
        readings of its own. */
    method RecordUnavailable(units: seq<string>, cs: seq<Call>)
      requires Valid() && |cs| == |units| && forall c :: c in cs ==> c.o.failed
      requires forall i, j :: 0 <= i < j < |units| ==> units[i] != units[j]
      modifies this
      ensures Valid() && logs.Keys == old(logs).Keys + (set u | u in units)
      ensures forall i :: 0 <= i < |units| ==> logs[units[i]] == LogOf(old(logs), units[i]) + [cs[i]]
      ensures forall u :: u in old(logs) && u !in units ==> logs[u] == old(logs)[u]
    {
      hide Judge, Record, After;
      for k := 0 to |units|
        invariant Valid() && logs.Keys == old(logs).Keys + (set u | u in units[..k])
        invariant forall i :: 0 <= i < k ==> logs[units[i]] == LogOf(old(logs), units[i]) + [cs[i]]
        invariant forall u :: u in old(logs) && u !in units[..k] ==> logs[u] == old(logs)[u]
      {
        assert units[k] !in units[..k];
        var _ := RecordHolder(units[k], cs[k]);
        assert units[..k + 1] == units[..k] + [units[k]];
      }
      assert units[..|units|] == units;
    }
  }

  // ---------------------------------------------------------------- conservation

  function Count(log: seq<Call>, v: Verdict): nat
  {
    if |log| == 0 then 0
    else Count(log[..|log| - 1], v) + (if Judge(log[|log| - 1]) == v then 1 else 0)
  }

  /** Every call is a success, an error or a dormant read, and the two counters hold the first two counts
      modulo the counter width. */
  lemma {:induction false} CallsAreConserved(log: seq<Call>)
    ensures After(log).successes == Count(log, Success) % U64
    ensures After(log).errors == Count(log, Failure) % U64
    ensures Count(log, Success) + Count(log, Failure) + Count(log, Sleeping) == |log|
  {
    if |log| > 0 {
      var front := log[..|log| - 1];
      CallsAreConserved(front);
      BumpCounts(Count(front, Success));
      BumpCounts(Count(front, Failure));
    }
  }

  lemma BumpCounts(n: nat)
    ensures Bump(n % U64) == (n + 1) % U64
  {
  }

  // ---------------------------------------------------------------- rotation

  ghost predicate IsSuccess(log: seq<Call>, i: int) { 0 <= i < |log| && Judge(log[i]).Success? }

  /** i and j are successes with nothing but failures and dormant reads between them. */
  ghost predicate Successive(log: seq<Call>, i: int, j: int)
  {
    IsSuccess(log, i) && IsSuccess(log, j) && i < j && forall k :: i < k < j ==> !IsSuccess(log, k)
  }

  ghost predicate Rotates(log: seq<Call>, j: int)
  {
    exists i :: Successive(log, i, j) && log[i].o.fingerprint != log[j].o.fingerprint
  }

  ghost predicate LastSuccess(log: seq<Call>, i: int)
  {
    IsSuccess(log, i) && forall k :: i < k < |log| ==> !IsSuccess(log, k)
  }

  lemma RecordFingerprint(h: Holder, c: Call)
    ensures Record(h, c).0.fingerprint == if Judge(c).Success? then c.o.fingerprint else h.fingerprint
    ensures Judge(c).Success? ==> c.o.fingerprint != ""
  {
  }

  /** The remembered fingerprint is that of the last success, whatever came after it. */
  lemma {:induction false} FingerprintIsLast(log: seq<Call>)
    ensures After(log).fingerprint == "" <==> forall i :: !IsSuccess(log, i)
    ensures forall i :: LastSuccess(log, i) ==> After(log).fingerprint == log[i].o.fingerprint
  {
    hide Judge, Record;
    if |log| > 0 {
      var n := |log| - 1;
      var front := log[..n];
      FingerprintIsLast(front);
      RecordFingerprint(After(front), log[n]);
      assert forall i :: i < n ==> (IsSuccess(front, i) <==> IsSuccess(log, i));
      if !IsSuccess(log, n) {
        assert forall i :: IsSuccess(log, i) ==> IsSuccess(front, i);
        assert forall i :: LastSuccess(log, i) ==> LastSuccess(front, i);
      } else {
        assert forall i :: LastSuccess(log, i) ==> i == n;
      }
    }
  }

  lemma {:induction false} SomeLastSuccess(log: seq<Call>, i: int) returns (p: int)
    requires IsSuccess(log, i)
    ensures LastSuccess(log, p)
    decreases |log| - i
  {
    if k :| i < k < |log| && IsSuccess(log, k) {
      p := SomeLastSuccess(log, k);
    } else {
      p := i;
    }
  }

  /** A call moves the rotation time exactly when it is a success whose predecessor among the successes had
      another fingerprint. */
  lemma RotationStep(log: seq<Call>, c: Call)
    ensures After(log + [c]).rotated == if Rotates(log + [c], |log|) then c.now else After(log).rotated
  {
    hide Judge, Record;
    var more, n := log + [c], |log|;
    assert more[..n] == log;
    FingerprintIsLast(log);
    assert forall i :: i < n ==> (IsSuccess(log, i) <==> IsSuccess(more, i));
    RecordRotated(After(log), c);
    if Judge(c).Success? && After(log).fingerprint != "" {
      var i :| IsSuccess(log, i);
      var p := SomeLastSuccess(log, i);
      assert Successive(more, p, n);
      assert forall q :: Successive(more, q, n) ==> q == p;
    } else if Judge(c).Success? {
      assert forall q :: !Successive(more, q, n);
    } else {
      assert !IsSuccess(more, n);
    }
  }

  lemma RecordRotated(h: Holder, c: Call)
    ensures Record(h, c).0.rotated ==
      if Judge(c).Success? && h.fingerprint != "" && h.fingerprint != c.o.fingerprint then c.now else h.rotated
  {
  }

  ghost predicate LastRotation(log: seq<Call>, j: int)
  {
    0 <= j < |log| && Rotates(log, j) && forall k :: j < k < |log| ==> !Rotates(log, k)
  }

  lemma RotatesPrefix(log: seq<Call>, c: Call, j: int)
    requires j < |log|
    ensures Rotates(log + [c], j) <==> Rotates(log, j)
  {
    var more := log + [c];
    assert forall i :: i < |log| ==> (IsSuccess(log, i) <==> IsSuccess(more, i));
    assert forall i :: Successive(log, i, j) <==> Successive(more, i, j);
  }

  /** Over any history the rotation time is the time of the last call that changed the fingerprint between two
      successive successes, and zero when there is none. */
  lemma {:induction false} RotationIsLastChange(log: seq<Call>)
    ensures forall j :: LastRotation(log, j) ==> After(log).rotated == log[j].now
    ensures (forall j :: 0 <= j < |log| ==> !Rotates(log, j)) <==> After(log).rotated == 0
  {
    hide Rotates, After;
    if |log| == 0 {
      NothingRotated();
    } else {
      var n := |log| - 1;
      var front, c := log[..n], log[n];
      assert log == front + [c];
      RotationIsLastChange(front);
      RotationStep(front, c);
      forall j | j < n ensures Rotates(log, j) <==> Rotates(front, j) {
        RotatesPrefix(front, c, j);
      }
      if Rotates(log, n) {
        assert forall j :: LastRotation(log, j) ==> j == n;
      } else {
        assert forall j :: LastRotation(log, j) ==> LastRotation(front, j);
      }
    }
  }

  lemma NothingRotated()
    ensures After([]).rotated == 0
  {
  }

  // ---------------------------------------------------------------- what is reported

  predicate HolderFresh(h: Holder, now: Instant) { h.attempted != 0 && now - h.attempted <= FRESHNESS_LIMIT }

  predicate HolderSuccessful(h: Holder, now: Instant)
  {
    h.success && HolderFresh(h, now) && h.validUntil != 0 && now < h.validUntil
  }

  /** A call whose holder answered with a certificate: it has a fingerprint, begins before it ends, and had not expired
      when it was checked. */
  predicate Shows(c: Call)
  {
    && !c.o.failed && !c.o.dormant && c.o.fingerprint != ""
    && c.o.before > 0 && c.o.after > c.o.before && c.checked < c.o.validUntil
  }

  /** Over any history the entry's times are those of the last call, zero unless that succeeded; the last success dates
      the observation. */
  lemma {:induction false} EntryExactly(log: seq<Call>)
    requires |log| > 0
    ensures var h, c := After(log), log[|log| - 1];
      && h.attempted == c.now && h.success == Shows(c) && h.dormant == (c.o.dormant && !c.o.failed)
      && (h.before, h.after, h.validUntil) ==
         (if Shows(c) then (c.o.before, c.o.after, c.o.validUntil) else (0, 0, 0))
    ensures forall i :: LastSuccess(log, i) ==> After(log).observed == log[i].now
    ensures (forall i :: !IsSuccess(log, i)) ==> After(log).observed == 0
  {
    var n := |log| - 1;
    var front := log[..n];
    assert After(log) == Record(After(front), log[n]).0;
    assert forall i :: i < n ==> (IsSuccess(front, i) <==> IsSuccess(log, i));
    assert Judge(log[n]).Success? <==> Shows(log[n]);
    if IsSuccess(log, n) {
      assert forall i :: LastSuccess(log, i) ==> i == n;
    } else {
      assert forall i :: LastSuccess(log, i) ==> LastSuccess(front, i);
      if n > 0 {
        EntryExactly(front);
      }
    }
  }

  /** A unit is reported as observed exactly when its most recent call succeeded, is fresh and its certificate
      has not expired; earlier calls never matter. */
  lemma ReportedExactly(log: seq<Call>, now: Instant)
    ensures HolderSuccessful(After(log), now) <==>
      && |log| > 0 && Shows(log[|log| - 1])
      && now - log[|log| - 1].now <= 65_000_000_000 && now < log[|log| - 1].o.validUntil
    ensures After(log).dormant && HolderFresh(After(log), now) <==>
      |log| > 0 && log[|log| - 1].o.dormant && !log[|log| - 1].o.failed && now - log[|log| - 1].now <= 65_000_000_000
  {
    if |log| > 0 {
      assert After(log) == Record(After(log[..|log| - 1]), log[|log| - 1]).0;
    }
  }
}
