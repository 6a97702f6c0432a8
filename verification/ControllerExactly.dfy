/** Who waits at the gate, who is answered READY, and what a reconcile turn leaves, in every run of the controller. */
module ControllerExactly {
  import opened Text
  import opened Clock
  import opened Controller

  lemma RunMore(file: StateFile, ops: seq<Operation>, x: Operation)
    ensures RunOps(file, ops + [x]) == Step(RunOps(file, ops), x)
  {
    assert (ops + [x])[..|ops|] == ops;
  }

  // ---------------------------------------------------------------- who waits

  /** A request whose process was identified, runs as the workload's user, and has a network of its own unit. */
  predicate Passed(x: Operation, id: nat) { x.Arrive? && x.id == id && x.peer == PeerOk && x.uid && x.net == NetOk }

  predicate Entered(x: Operation, id: nat) { x.Enter? && x.id == id }

  /** No request of this number entered from operation i on. */
  ghost predicate StillOut(ops: seq<Operation>, id: nat, i: nat)
  {
    forall j :: i <= j < |ops| ==> !Entered(ops[j], id)
  }

  /** Operation i is the arrival for which the request waits: it passed, it has not entered since, and every earlier
      one of the same number had entered by then. */
  ghost predicate Since(ops: seq<Operation>, id: nat, i: nat)
  {
    && i < |ops| && Passed(ops[i], id) && StillOut(ops, id, i)
    && forall h :: 0 <= h < i && Passed(ops[h], id) ==> !StillOut(ops[..i], id, h)
  }

  lemma {:induction false} SomeSince(ops: seq<Operation>, id: nat, h: nat)
    requires h < |ops| && Passed(ops[h], id) && StillOut(ops, id, h)
    ensures exists i: nat :: Since(ops, id, i)
    decreases h
  {
    if g: nat :| g < h && Passed(ops[g], id) && StillOut(ops[..h], id, g) {
      forall j | g <= j < |ops| ensures !Entered(ops[j], id) {
        assert j < h ==> ops[..h][j] == ops[j];
      }
      SomeSince(ops, id, g);
    } else {
      assert Since(ops, id, h);
    }
  }

  /** Nothing about earlier arrivals depends on the last operation, unless it lets the request in. */
  lemma SinceMore(ops: seq<Operation>, x: Operation, id: nat, i: nat)
    requires i < |ops|
    ensures Since(ops + [x], id, i) <==> Since(ops, id, i) && !Entered(x, id)
  {
    var more := ops + [x];
    assert more[..i] == ops[..i];
    assert forall j :: 0 <= j < |ops| ==> more[j] == ops[j];
    assert more[|ops|] == x;
  }

  lemma SinceNow(ops: seq<Operation>, x: Operation, id: nat)
    ensures Since(ops + [x], id, |ops|) <==> Passed(x, id) && !exists i: nat :: Since(ops, id, i)
  {
    var more := ops + [x];
    assert more[..|ops|] == ops && more[|ops|] == x;
    assert forall j :: 0 <= j < |ops| ==> more[j] == ops[j];
    if i: nat :| Since(ops, id, i) {
      assert Passed(more[i], id) && StillOut(more[..|ops|], id, i);
    } else if Passed(x, id) {
      forall h | 0 <= h < |ops| && Passed(more[h], id) ensures !StillOut(more[..|ops|], id, h) {
        if StillOut(ops, id, h) {
          SomeSince(ops, id, h);
        }
      }
    }
  }

  /** In every run a request waits exactly when there is such an arrival, and it waits with that arrival's key. */
  lemma {:induction false} WaitsExactly(file: StateFile, ops: seq<Operation>, id: nat)
    ensures var waiting := RunOps(file, ops).waiting;
      && (id in waiting <==> exists i: nat :: Since(ops, id, i))
      && forall i: nat :: Since(ops, id, i) ==> id in waiting && waiting[id] == ops[i].key
  {
    hide Step, Since;
    SinceIndex(ops, id);
    if |ops| == 0 {
    } else {
      var n := |ops| - 1;
      var front, x := ops[..n], ops[n];
      assert ops == front + [x];
      WaitsExactly(file, front, id);
      WaitStep(RunOps(file, front), x, id);
      SinceNow(front, x, id);
      SinceIndex(front, id);
      forall i: nat | i < n ensures Since(ops, id, i) <==> Since(front, id, i) && !Entered(x, id) {
        SinceMore(front, x, id, i);
      }
      if Passed(x, id) && id !in RunOps(file, front).waiting {
        assert Since(ops, id, n);
      }
      if i: nat :| Since(front, id, i) {
        assert !Entered(x, id) ==> Since(ops, id, i);
      }
    }
  }

  lemma SinceIndex(ops: seq<Operation>, id: nat)
    ensures forall i: nat :: Since(ops, id, i) ==> i < |ops| && ops[i].Arrive?
  {
  }

  lemma WaitStep(a: Abstract, x: Operation, id: nat)
    ensures var waiting := Step(a, x).waiting;
      && (id in waiting <==> (id in a.waiting && !Entered(x, id)) || Passed(x, id))
      && (id in waiting ==> waiting[id] == if id in a.waiting then a.waiting[id] else x.key)
  {
    hide Expired, SomeCarries;
  }

  // ---------------------------------------------------------------- who is answered READY

  /** A live worker holds the instance of this key. */
  predicate Holds(a: Abstract, key: string) { a.held.Some? && a.held.value.alive && a.held.value.key == key }

  /** A live worker holds the instance of another key, and processes still run in its cgroup. */
  predicate Occupied(a: Abstract, key: string, populated: bool)
  {
    a.held.Some? && a.held.value.alive && a.held.value.key != key && populated
  }

  /** In every run a request that enters is answered READY exactly when it arrived and passed its checks, and either a
      live worker already holds its key, or no other key is in the way and a worker was started and its key saved. */
  lemma ReadyExactly(file: StateFile, ops: seq<Operation>, x: Operation)
    requires x.Enter?
    ensures var a := RunOps(file, ops);
      EnterStep(a, x).1 <==>
      exists i: nat :: Since(ops, x.id, i) &&
        (Holds(a, ops[i].key) || (!Occupied(a, ops[i].key, x.populated) && x.fault == NoFault && x.saved))
  {
    hide RunOps, Since;
    WaitsExactly(file, ops, x.id);
    SinceIndex(ops, x.id);
    if i: nat :| Since(ops, x.id, i) {
      assert RunOps(file, ops).waiting[x.id] == ops[i].key;
    }
  }

  /** In every run, what entering leaves behind: a request of that number no longer waits; and for the key it arrived
      with, an instance in the way stays, one with that key stays, and any other goes and makes room for the new one,
      which is there exactly if its worker was started and its key saved. */
  lemma EnterExactly(file: StateFile, ops: seq<Operation>, x: Operation, i: nat)
    requires x.Enter? && Since(ops, x.id, i)
    ensures var a, b, key := RunOps(file, ops), RunOps(file, ops + [x]), ops[i].key;
      && b.waiting == a.waiting - {x.id}
      && if Holds(a, key) || Occupied(a, key, x.populated) then
           b.file == a.file && b.held == Some(a.held.value.(alive := !x.dies))
         else if x.fault == NoFault && x.saved then
           b.file == Saved(key) && b.held == Some(Held(key, !x.dies, []))
         else b.file == a.file && b.held == None
  {
    hide RunOps, Since;
    WaitsExactly(file, ops, x.id);
    RunMore(file, ops, x);
  }

  /** A request that did not arrive, or did not pass, changes nothing by entering. */
  lemma StrangerChangesNothing(file: StateFile, ops: seq<Operation>, x: Operation)
    requires x.Enter? && forall i: nat :: !Since(ops, x.id, i)
    ensures RunOps(file, ops + [x]) == RunOps(file, ops) && !EnterStep(RunOps(file, ops), x).1
  {
    hide RunOps, Since;
    WaitsExactly(file, ops, x.id);
    RunMore(file, ops, x);
  }

  // ---------------------------------------------------------------- what a turn leaves

  /** Every look at the cgroup over thirty seconds or more, up to the last, found it empty. */
  ghost predicate LongEmpty(rs: seq<Reading>)
  {
    exists m: nat :: m < |rs| && rs[|rs| - 1].at - rs[m].at >= 30_000_000_000 && AllEmpty(rs, m)
  }

  ghost predicate AllEmpty(rs: seq<Reading>, m: nat) { forall k :: m <= k < |rs| ==> !rs[k].populated }

  /** A process of the workload's user, with a network of its own unit, that carries this key. */
  predicate Survivor(p: Candidate, key: string) { p.opens && p.owned && p.net == NetOk && p.key == key }

  /** In every run whose clock does not go back, a turn adds a reading to a live instance that has not been empty for
      thirty seconds, and nothing else. It lets go of any other. Then the saved key, if it was not cleared with the
      instance, is started again exactly if some process of the saved cgroup carries it and the start succeeds, and is
      forgotten exactly if the cgroup is gone and the file could be removed. */
  lemma TurnExactly(file: StateFile, ops: seq<Operation>, x: Operation)
    requires x.Turn? && TurnsAscend(ops + [x])
    ensures var a, b := RunOps(file, ops), RunOps(file, ops + [x]);
      var live := a.held.Some? && a.held.value.alive;
      var rs := if live then a.held.value.readings + [Reading(x.now, x.reading)] else [];
      var saved := if live && x.cleared then Missing else a.file;
      && b.waiting == a.waiting
      && if live && !LongEmpty(rs) then b.file == a.file && b.held == Some(Held(a.held.value.key, true, rs))
         else
           && b.file == (if saved.Saved? && x.group.GroupMissing? && x.removed then Missing else saved)
           && (b.held.Some? <==>
                 && saved.Saved? && x.group.GroupOpen? && x.failing == NoFault
                 && exists p :: p in x.group.processes && Survivor(p, saved.key))
           && (b.held.Some? ==> b.held == Some(Held(saved.key, true, [])))
  {
    hide RunOps, LongEmpty;
    RunMore(file, ops, x);
    var a := RunOps(file, ops);
    if Alive(a) {
      ExpiredOverRun(file, ops, x);
    }
    if x.group.GroupOpen? {
      forall key ensures SomeCarries(x.group.processes, key) <==>
        exists p :: p in x.group.processes && Survivor(p, key)
      {
        CarriedExactly(x.group.processes, key);
      }
    }
  }

  lemma CarriedExactly(ps: seq<Candidate>, key: string)
    ensures SomeCarries(ps, key) <==> exists p :: p in ps && Survivor(p, key)
  {
    if k :| 0 <= k < |ps| && Carries(ps[k], key) {
      assert ps[k] in ps && Survivor(ps[k], key);
    }
    if p :| p in ps && Survivor(p, key) {
      var k :| 0 <= k < |ps| && ps[k] == p;
      assert Carries(ps[k], key);
    }
  }

  lemma ExpiredOverRun(file: StateFile, ops: seq<Operation>, x: Operation)
    requires x.Turn? && TurnsAscend(ops + [x]) && Alive(RunOps(file, ops))
    ensures var rs := RunOps(file, ops).held.value.readings + [Reading(x.now, x.reading)];
      Expired(rs) <==> LongEmpty(rs)
  {
    hide RunOps, Expired;
    var more := ops + [x];
    assert more[|ops|] == x && forall i :: 0 <= i < |ops| ==> more[i] == ops[i];
    assert TurnsAscend(ops);
    ReadingsAreTurns(file, ops);
    var rs := RunOps(file, ops).held.value.readings + [Reading(x.now, x.reading)];
    assert ClockAscends(rs);
    ExpiredExactly(rs);
    if m: nat :| EmptyFrom(rs, m) && rs[|rs| - 1].at - rs[m].at >= EMPTY_GRACE {
      assert AllEmpty(rs, m);
    }
    if m: nat :| m < |rs| && rs[|rs| - 1].at - rs[m].at >= 30_000_000_000 && AllEmpty(rs, m) {
      assert EmptyFrom(rs, m);
    }
  }
}
