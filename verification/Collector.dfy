/** The parallel workload collection as a state machine over its jobs, workers and result channel. */
module Collector {
  import opened Counting
  import opened Holders

  const PARALLELISM: nat := 16

  /** earlier, with 0 as the zero time. */
  function Earlier(a: nat, b: nat): nat { if b == 0 then a else if a == 0 || b < a then b else a }

  // ---------------------------------------------------------------- one job

  /** What a worker meets while it handles a job: cancellation before or after the observation, whether the
      canary failed, and what the holder answered. */
  datatype Encounter = Encounter(
    cancelled: bool, canaryFailed: bool, failed: bool, before: nat, after: nat, validUntil: nat, fingerprint: string,
    cancelledAfter: bool)

  const BROKEN: Observation := Observation(0, 0, 0, "", false, true)

  function Observe(state: string, e: Encounter): Observation
  {
    var o :=
      if state == "inactive" then Observation(0, 0, 0, "", true, false)
      else if state == "active" then
        if e.cancelled || e.canaryFailed then BROKEN
        else Observation(e.before, e.after, e.validUntil, e.fingerprint, false, e.failed)
      else BROKEN;
    if !o.failed && !o.dormant && e.cancelledAfter then o.(failed := true) else o
  }

  datatype Result = Result(failed: bool, dormant: bool, validUntil: nat)

  /** The message a worker sends after recording a call. */
  function ResultOf(c: Call): Result { Result(Judge(c).Failure?, c.o.dormant, c.o.validUntil) }

  predicate Counts(r: Result) { !r.dormant && !r.failed }

  // ---------------------------------------------------------------- the receiving loop

  datatype Outcome = Outcome(failed: bool, validUntil: nat)

  function Absorb(o: Outcome, r: Result): Outcome
  {
    Outcome(o.failed || r.failed, if Counts(r) then Earlier(o.validUntil, r.validUntil) else o.validUntil)
  }

  /** o fails exactly when some result failed, and its time is the least over the results that count, or zero
      when none does. */
  ghost predicate Summarises(o: Outcome, rs: set<Result>)
  {
    && (o.failed <==> exists r :: r in rs && r.failed)
    && (o.validUntil == 0 <==> forall r :: r in rs ==> !Counts(r))
    && (o.validUntil != 0 ==> exists r :: r in rs && Counts(r) && r.validUntil == o.validUntil)
    && (forall r :: r in rs && Counts(r) ==> o.validUntil <= r.validUntil)
  }

  lemma SummariseOne(o: Outcome, rs: set<Result>, r: Result)
    requires Summarises(o, rs) && (Counts(r) ==> r.validUntil > 0)
    ensures Summarises(Absorb(o, r), rs + {r})
  {
    var t, all := Absorb(o, r), rs + {r};
    if o.failed {
      var f :| f in rs && f.failed;
      assert f in all;
    }
    if o.validUntil != 0 {
      var f :| f in rs && Counts(f) && f.validUntil == o.validUntil;
      assert f in all;
    }
    assert r in all;
  }

  lemma SummaryIsUnique(o: Outcome, p: Outcome, rs: set<Result>)
    requires Summarises(o, rs) && Summarises(p, rs)
    ensures o == p
  {
  }

  /** The loop that receives one result per workload. */
  method Gather(rs: seq<Result>) returns (o: Outcome)
    requires forall r :: r in rs && Counts(r) ==> r.validUntil > 0
    ensures Summarises(o, Members(rs))
  {
    hide Summarises;
    o := Outcome(false, 0);
    NothingYet();
    assert Members(rs[..0]) == {};
    for k := 0 to |rs|
      invariant Summarises(o, Members(rs[..k]))
    {
      var r := rs[k];
      SummariseOne(o, Members(rs[..k]), r);
      assert Members(rs[..k + 1]) == Members(rs[..k]) + {r};
      if r.failed {
        o := o.(failed := true);
      }
      if !r.dormant && !r.failed {
        o := o.(validUntil := Earlier(o.validUntil, r.validUntil));
      }
    }
    assert rs[..|rs|] == rs;
  }

  lemma NothingYet()
    ensures Summarises(Outcome(false, 0), {})
  {
  }

  // ---------------------------------------------------------------- the machine

  datatype Worker = Idle | Busy(job: nat)

  /** next is the first job still in the job channel; queue and received are the jobs whose results wait in the
      result channel or have been read from it; logs are the record calls of each target. */
  datatype State = State(
    next: nat, workers: seq<Worker>, results: map<nat, Result>, queue: seq<nat>, received: seq<nat>,
    outcome: Outcome, logs: seq<seq<Call>>)

  function Start(logs: seq<seq<Call>>): State
  {
    State(0, seq(if |logs| < PARALLELISM then |logs| else PARALLELISM, _ => Idle), map[], [], [], Outcome(false, 0),
      logs)
  }

  datatype Action = Take(w: nat) | Finish(w: nat, e: Encounter, checked: Instant, now: Instant) | Receive

  predicate Enabled(s: State, x: Action, n: nat)
  {
    match x
    case Take(w) => w < |s.workers| && s.workers[w].Idle? && s.next < n
    case Finish(w, _, _, _) => w < |s.workers| && s.workers[w].Busy?
    case Receive => |s.queue| > 0
  }

  function CallOf(states: seq<string>, job: nat, x: Action): Call
    requires x.Finish? && job < |states|
  {
    Call(Observe(states[job], x.e), x.checked, x.now)
  }

  function Apply(s: State, x: Action, states: seq<string>): State
  {
    if !Enabled(s, x, |states|) then s else
    match x
    case Take(w) => s.(next := s.next + 1, workers := s.workers[w := Busy(s.next)])
    case Finish(w, _, _, _) =>
      var j := s.workers[w].job;
      if j < |states| && j < |s.logs| then
        var c := CallOf(states, j, x);
        s.(workers := s.workers[w := Idle], logs := s.logs[j := s.logs[j] + [c]],
           results := s.results[j := ResultOf(c)], queue := s.queue + [j])
      else s
    case Receive =>
      var j := s.queue[0];
      if j in s.results then
        s.(queue := s.queue[1..], received := s.received + [j], outcome := Absorb(s.outcome, s.results[j]))
      else s
  }

  function Run(xs: seq<Action>, states: seq<string>, logs: seq<seq<Call>>): State
  {
    if |xs| == 0 then Start(logs) else Apply(Run(xs[..|xs| - 1], states, logs), xs[|xs| - 1], states)
  }

  // ---------------------------------------------------------------- invariants

  /** Each job taken is held by one worker or has a result. */
  ghost predicate JobsOk(next: nat, workers: seq<Worker>, results: map<nat, Result>, n: nat)
  {
    && next <= n
    && (forall j :: j in results ==> j < next)
    && (forall w :: 0 <= w < |workers| && workers[w].Busy? ==> workers[w].job < next && workers[w].job !in results)
    && (forall v, w :: 0 <= v < w < |workers| && workers[v].Busy? && workers[w].Busy? ==>
         workers[v].job != workers[w].job)
    && (forall j :: 0 <= j < next && j !in results ==> Busy(j) in workers)
  }

  /** Each result is in the channel or has been received. */
  ghost predicate ChannelOk(results: map<nat, Result>, queue: seq<nat>, received: seq<nat>)
  {
    && (forall j :: j in results <==> j in queue || j in received)
    && |queue| + |received| == |results|
  }

  function Got(results: map<nat, Result>, received: seq<nat>): set<Result>
  {
    set j | j in received && j in results :: results[j]
  }

  /** The call that a finished job recorded. */
  ghost predicate Recorded(before: seq<Call>, after: seq<Call>, r: Result, state: string)
  {
    && |after| == |before| + 1 && after[..|before|] == before
    && var c := after[|before|];
      && r == ResultOf(c)
      && (Judge(c).Sleeping? <==> state == "inactive") && (c.o.dormant ==> state == "inactive")
      && (state != "inactive" && state != "active" ==> Judge(c).Failure?)
  }

  ghost predicate LogsOk(logs: seq<seq<Call>>, logs0: seq<seq<Call>>, results: map<nat, Result>, states: seq<string>)
  {
    && |logs| == |logs0| == |states|
    && (forall j :: j in results ==> j < |logs| && Recorded(logs0[j], logs[j], results[j], states[j]))
    && (forall j :: 0 <= j < |logs| && j !in results ==> logs[j] == logs0[j])
  }

  ghost predicate Inv(s: State, states: seq<string>, logs0: seq<seq<Call>>)
  {
    && |s.workers| == (if |states| < PARALLELISM then |states| else PARALLELISM)
    && JobsOk(s.next, s.workers, s.results, |states|)
    && ChannelOk(s.results, s.queue, s.received)
    && Summarises(s.outcome, Got(s.results, s.received))
    && LogsOk(s.logs, logs0, s.results, states)
  }

  lemma StartOk(states: seq<string>, logs0: seq<seq<Call>>)
    requires |states| == |logs0|
    ensures Inv(Start(logs0), states, logs0)
  {
  }

  lemma TakeKeeps(s: State, x: Action, states: seq<string>, logs0: seq<seq<Call>>)
    requires Inv(s, states, logs0) && x.Take? && Enabled(s, x, |states|)
    ensures Inv(Apply(s, x, states), states, logs0)
  {
    hide Summarises, LogsOk, ChannelOk;
    var t := Apply(s, x, states);
    forall j: nat | j < s.next && Busy(j) in s.workers ensures Busy(j) in t.workers {
      var w :| 0 <= w < |s.workers| && s.workers[w] == Busy(j);
      assert t.workers[w] == Busy(j);
    }
    assert t.workers[x.w] == Busy(s.next);
  }

  lemma ObservedRight(states: seq<string>, j: nat, x: Action, before: seq<Call>)
    requires x.Finish? && j < |states|
    ensures var c := CallOf(states, j, x); Recorded(before, before + [c], ResultOf(c), states[j])
  {
  }

  lemma FinishJobs(s: State, w: nat, r: Result, n: nat)
    requires JobsOk(s.next, s.workers, s.results, n) && w < |s.workers| && s.workers[w].Busy?
    ensures JobsOk(s.next, s.workers[w := Idle], s.results[s.workers[w].job := r], n)
  {
    var j, after := s.workers[w].job, s.workers[w := Idle];
    forall i | 0 <= i < s.next && i !in s.results[j := r] ensures Busy(i) in after {
      var v :| 0 <= v < |s.workers| && s.workers[v] == Busy(i);
      assert after[v] == Busy(i);
    }
  }

  lemma FinishKeeps(s: State, x: Action, states: seq<string>, logs0: seq<seq<Call>>)
    requires Inv(s, states, logs0) && x.Finish? && Enabled(s, x, |states|)
    ensures Inv(Apply(s, x, states), states, logs0)
  {
    hide Summarises, CallOf, ResultOf, Recorded, JobsOk, ChannelOk, Got;
    var j := s.workers[x.w].job;
    BusyIsOpen(s, x.w, |states|);
    var c := CallOf(states, j, x);
    ObservedRight(states, j, x, s.logs[j]);
    FinishJobs(s, x.w, ResultOf(c), |states|);
    FinishChannel(s.results, s.queue, s.received, j, ResultOf(c));
  }

  lemma FinishChannel(results: map<nat, Result>, queue: seq<nat>, received: seq<nat>, j: nat, r: Result)
    requires ChannelOk(results, queue, received) && j !in results
    ensures ChannelOk(results[j := r], queue + [j], received)
    ensures Got(results[j := r], received) == Got(results, received)
  {
    assert results[j := r].Keys == results.Keys + {j};
    assert j !in received;
  }

  lemma BusyIsOpen(s: State, w: nat, n: nat)
    requires JobsOk(s.next, s.workers, s.results, n) && w < |s.workers| && s.workers[w].Busy?
    ensures s.workers[w].job < n && s.workers[w].job !in s.results
  {
  }

  lemma ResultIsDated(before: seq<Call>, after: seq<Call>, r: Result, state: string)
    requires Recorded(before, after, r, state)
    ensures Counts(r) ==> r.validUntil > 0
  {
  }

  lemma ReceiveKeeps(s: State, x: Action, states: seq<string>, logs0: seq<seq<Call>>)
    requires Inv(s, states, logs0) && x.Receive? && Enabled(s, x, |states|)
    ensures Inv(Apply(s, x, states), states, logs0)
  {
    hide Summarises, Recorded, JobsOk, Absorb;
    var j := s.queue[0];
    assert j in s.queue && j in s.results;
    ResultIsDated(logs0[j], s.logs[j], s.results[j], states[j]);
    SummariseOne(s.outcome, Got(s.results, s.received), s.results[j]);
    var t := Apply(s, x, states);
    assert Got(t.results, t.received) == Got(s.results, s.received) + {s.results[j]};
    assert s.queue == [j] + s.queue[1..];
  }

  lemma {:induction false} InvHolds(xs: seq<Action>, states: seq<string>, logs0: seq<seq<Call>>)
    requires |states| == |logs0|
    ensures Inv(Run(xs, states, logs0), states, logs0)
  {
    hide Inv;
    if |xs| == 0 {
      StartOk(states, logs0);
    } else {
      var s, x := Run(xs[..|xs| - 1], states, logs0), xs[|xs| - 1];
      InvHolds(xs[..|xs| - 1], states, logs0);
      if Enabled(s, x, |states|) {
        match x {
          case Take(_) => TakeKeeps(s, x, states, logs0);
          case Finish(_, _, _, _) => FinishKeeps(s, x, states, logs0);
          case Receive => ReceiveKeeps(s, x, states, logs0);
        }
      }
    }
  }

  // ---------------------------------------------------------------- every run ends, and ends the same

  /** Takes, finishes and receives still to come. */
  function Work(s: State, n: nat): int { (n - s.next) + (n - |s.results|) + (n - |s.received|) }

  /** Every enabled step does one unit of work. */
  lemma WorkDrops(s: State, x: Action, states: seq<string>, logs0: seq<seq<Call>>)
    requires Inv(s, states, logs0) && Enabled(s, x, |states|)
    ensures Work(Apply(s, x, states), |states|) == Work(s, |states|) - 1
    ensures Work(Start(logs0), |states|) == 3 * |states|
  {
    hide Summarises, Recorded, ResultOf, CallOf, Absorb;
    if x.Finish? {
      BusyIsOpen(s, x.w, |states|);
    } else if x.Receive? {
      assert s.queue[0] in s.queue;
    }
  }

  /** Every action of the run could happen when it did. */
  ghost predicate Effective(xs: seq<Action>, states: seq<string>, logs0: seq<seq<Call>>)
  {
    |xs| > 0 ==>
      && Effective(xs[..|xs| - 1], states, logs0)
      && Enabled(Run(xs[..|xs| - 1], states, logs0), xs[|xs| - 1], |states|)
  }

  /** Every collection takes exactly three steps per workload: no run of steps that can happen is longer, and a run
      has received every result exactly when it is that long. */
  lemma ThreeStepsEach(xs: seq<Action>, states: seq<string>, logs0: seq<seq<Call>>)
    requires |states| == |logs0| && Effective(xs, states, logs0)
    ensures |xs| <= 3 * |states|
    ensures |Run(xs, states, logs0).received| == |states| <==> |xs| == 3 * |states|
  {
    hide Run, Effective, Inv;
    InvHolds(xs, states, logs0);
    WorkLeft(xs, states, logs0);
    WorkIsCounted(Run(xs, states, logs0), states, logs0);
  }

  lemma {:induction false} WorkLeft(xs: seq<Action>, states: seq<string>, logs0: seq<seq<Call>>)
    requires |states| == |logs0| && Effective(xs, states, logs0)
    ensures Work(Run(xs, states, logs0), |states|) == 3 * |states| - |xs|
  {
    hide Inv, Apply;
    if |xs| > 0 {
      var front := xs[..|xs| - 1];
      WorkLeft(front, states, logs0);
      InvHolds(front, states, logs0);
      WorkDrops(Run(front, states, logs0), xs[|xs| - 1], states, logs0);
    }
  }

  lemma WorkIsCounted(s: State, states: seq<string>, logs0: seq<seq<Call>>)
    requires Inv(s, states, logs0)
    ensures Work(s, |states|) >= 0 && (Work(s, |states|) == 0 <==> |s.received| == |states|)
  {
    hide Summarises, LogsOk, JobsOk;
    AllAnswered(s, |states|);
    JobsBound(s, |states|);
  }

  /** The results are as many as the jobs taken only when no worker is busy. */
  lemma AllAnswered(s: State, n: nat)
    requires JobsOk(s.next, s.workers, s.results, n)
    ensures |s.results| <= s.next
    ensures |s.results| == s.next ==> forall w :: 0 <= w < |s.workers| ==> s.workers[w].Idle?
    ensures |s.results| < s.next ==> exists w :: 0 <= w < |s.workers| && s.workers[w].Busy?
  {
    var keys: set<int> := set j | j in s.results;
    assert keys == s.results.Keys;
    IntervalSize(keys, 0, s.next);
    if |s.results| < s.next {
      var j :| 0 <= j < s.next && j !in keys;
      assert Busy(j) in s.workers;
    } else {
      forall w | 0 <= w < |s.workers| ensures s.workers[w].Idle? {
        if s.workers[w].Busy? {
          IntervalSize(keys + {s.workers[w].job}, 0, s.next);
        }
      }
    }
  }

  /** The collection never deadlocks: some step is enabled until every result has been received. */
  lemma StuckIsDone(s: State, states: seq<string>, logs0: seq<seq<Call>>)
    requires Inv(s, states, logs0)
    ensures (exists x :: Enabled(s, x, |states|)) <==> |s.received| < |states|
    ensures |s.received| == |states| ==> Work(s, |states|) == 0
  {
    hide Summarises, LogsOk, JobsOk;
    var n := |states|;
    AllAnswered(s, n);
    JobsBound(s, n);
    if |s.received| < n {
      if |s.queue| > 0 {
        assert Enabled(s, Receive, n);
      } else if |s.results| < s.next {
        var w :| 0 <= w < |s.workers| && s.workers[w].Busy?;
        assert Enabled(s, Finish(w, Encounter(true, false, false, 0, 0, 0, "", false), 1, 1), n);
      } else {
        assert Enabled(s, Take(0), n);
      }
    }
  }

  lemma JobsBound(s: State, n: nat)
    requires JobsOk(s.next, s.workers, s.results, n)
    ensures s.next <= n
  {
  }

  function LastCalls(logs: seq<seq<Call>>): set<Result>
  {
    set j | 0 <= j < |logs| && |logs[j]| > 0 :: ResultOf(logs[j][|logs[j]| - 1])
  }

  /** When the collection ends, under any interleaving, every target has been recorded exactly once, a target is
      dormant exactly when its unit is inactive, a unit in any other state but active has failed, and the outcome
      summarises the recorded calls. */
  lemma CollectionIsExact(xs: seq<Action>, states: seq<string>, logs0: seq<seq<Call>>)
    requires |states| == |logs0| == |Run(xs, states, logs0).received|
    ensures var s := Run(xs, states, logs0);
      && |s.logs| == |states|
      && (forall j :: 0 <= j < |states| ==>
            && |s.logs[j]| == |logs0[j]| + 1 && logs0[j] <= s.logs[j]
            && (Judge(s.logs[j][|logs0[j]|]).Sleeping? <==> states[j] == "inactive")
            && (states[j] != "inactive" && states[j] != "active" ==> Judge(s.logs[j][|logs0[j]|]).Failure?))
      && Summarises(s.outcome, LastCalls(s.logs))
  {
    hide Run, Judge, Summarises;
    var s := Run(xs, states, logs0);
    InvHolds(xs, states, logs0);
    AllDone(s, states, logs0);
    assert LastCalls(s.logs) == Got(s.results, s.received);
  }

  lemma AllDone(s: State, states: seq<string>, logs0: seq<seq<Call>>)
    requires Inv(s, states, logs0) && |s.received| == |states|
    ensures forall j :: 0 <= j < |states| ==> j in s.results && j in s.received
  {
    hide Summarises, LogsOk;
    AllAnswered(s, |states|);
    assert |s.queue| == 0;
    var keys: set<int> := set j | j in s.results;
    assert keys == s.results.Keys;
    forall j | 0 <= j < |states| ensures j in s.results {
      if j !in keys {
        IntervalSize(keys + {j}, 0, |states|);
      }
    }
  }

  /** Two finished collections in which each target recorded the same last call have the same outcome, whatever
      the order in which workers took, finished and delivered their jobs. */
  lemma OrderDoesNotMatter(xs: seq<Action>, ys: seq<Action>, states: seq<string>, logs0: seq<seq<Call>>)
    requires |states| == |logs0| == |Run(xs, states, logs0).received| == |Run(ys, states, logs0).received|
    requires Run(xs, states, logs0).logs == Run(ys, states, logs0).logs
    ensures Run(xs, states, logs0).outcome == Run(ys, states, logs0).outcome
  {
    hide Run, Summarises, LastCalls;
    CollectionIsExact(xs, states, logs0);
    CollectionIsExact(ys, states, logs0);
    SummaryIsUnique(Run(xs, states, logs0).outcome, Run(ys, states, logs0).outcome,
      LastCalls(Run(xs, states, logs0).logs));
  }

  // ---------------------------------------------------------------- where a recorded call comes from

  /** What a worker met at an active unit counts as a failure. */
  predicate Hindered(e: Encounter) { e.cancelled || e.canaryFailed || e.failed || e.cancelledAfter }

  /** The call says what the worker met: nothing at an inactive unit; at an active one the holder's answer, or a failure
      if anything hindered it; a failure at any other. */
  predicate SaysWhatItMet(c: Call, state: string, x: Action)
    requires x.Finish?
  {
    && c.checked == x.checked && c.now == x.now && c.o.dormant == (state == "inactive")
    && c.o.failed == (if state == "active" then Hindered(x.e) else state != "inactive")
    && (state == "active" && !Hindered(x.e) ==>
          c.o == Observation(x.e.before, x.e.after, x.e.validUntil, x.e.fingerprint, false, false))
  }

  lemma ObserveExactly(states: seq<string>, j: nat, x: Action)
    requires x.Finish? && j < |states|
    ensures SaysWhatItMet(CallOf(states, j, x), states[j], x)
  {
  }

  /** Step k is the one in which a worker finished job j. */
  ghost predicate FinishedAt(xs: seq<Action>, states: seq<string>, logs0: seq<seq<Call>>, j: nat, k: nat)
  {
    && k < |xs| && xs[k].Finish?
    && var s := Run(xs[..k], states, logs0); xs[k].w < |s.workers| && s.workers[xs[k].w] == Busy(j)
  }

  /** In every interleaving the result of a job is that of the step in which its worker finished it. */
  lemma {:induction false} ResultComesFrom(xs: seq<Action>, states: seq<string>, logs0: seq<seq<Call>>, j: nat)
    requires |states| == |logs0| && j in Run(xs, states, logs0).results
    ensures var s := Run(xs, states, logs0);
      && j < |s.logs| && |s.logs[j]| > 0
      && exists k: nat :: FinishedAt(xs, states, logs0, j, k) && j < |states|
           && SaysWhatItMet(s.logs[j][|s.logs[j]| - 1], states[j], xs[k])
  {
    hide Inv, SaysWhatItMet, ResultOf, CallOf;
    if |xs| == 0 {
    } else {
      var n := |xs| - 1;
      var front, x := xs[..n], xs[n];
      var s := Run(front, states, logs0);
      InvHolds(front, states, logs0);
      assert forall k: nat :: k < n ==> front[..k] == xs[..k] && front[k] == xs[k];
      if j in s.results {
        ResultComesFrom(front, states, logs0, j);
        var k: nat :| FinishedAt(front, states, logs0, j, k)
          && SaysWhatItMet(s.logs[j][|s.logs[j]| - 1], states[j], front[k]);
        assert FinishedAt(xs, states, logs0, j, k);
        DoneIsLeft(s, x, states, logs0, j);
      } else {
        ObserveExactly(states, j, x);
        assert FinishedAt(xs, states, logs0, j, n);
      }
    }
  }

  /** No step touches the log of a job that has its result. */
  lemma DoneIsLeft(s: State, x: Action, states: seq<string>, logs0: seq<seq<Call>>, j: nat)
    requires Inv(s, states, logs0) && j in s.results && j < |s.logs|
    ensures j < |Apply(s, x, states).logs| && Apply(s, x, states).logs[j] == s.logs[j]
  {
    hide Summarises, LogsOk, ChannelOk, ResultOf, CallOf;
    if x.Finish? && Enabled(s, x, |states|) {
      BusyIsOpen(s, x.w, |states|);
    }
  }

  /** When the collection ends, under any interleaving, the call recorded for a target says what the worker that handled
      it met. There are sixteen workers, or one for each target if those are fewer. */
  lemma RecordedExactly(xs: seq<Action>, states: seq<string>, logs0: seq<seq<Call>>, j: nat)
    requires |states| == |logs0| == |Run(xs, states, logs0).received| && j < |states|
    ensures var s := Run(xs, states, logs0);
      && j < |s.logs| && |s.logs[j]| > 0
      && exists k: nat :: FinishedAt(xs, states, logs0, j, k)
           && SaysWhatItMet(s.logs[j][|s.logs[j]| - 1], states[j], xs[k])
    ensures |Run(xs, states, logs0).workers| == if |states| < 16 then |states| else 16
  {
    hide Run, SaysWhatItMet;
    InvHolds(xs, states, logs0);
    AllDone(Run(xs, states, logs0), states, logs0);
    ResultComesFrom(xs, states, logs0, j);
  }
}
