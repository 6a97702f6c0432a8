/** The per-workload controller: prepare, start, recover, reconcile and close, with every handle they
    open and every worker they run, on every error path; the results of system calls are inputs. Gate requests
    open their handles before they take the lock, so any number of them can hold handles at a time. */
module Controller {
  import opened Text
  import opened Clock

  // ---------------------------------------------------------------- the ledger

  /** What happened, oldest first: handles opened and released, workers started and gone. */
  datatype Event = Opened(h: nat) | Released(h: nat) | Started(worker: nat, capture: nat) | Exited(worker: nat)

  function OpenOf(log: seq<Event>): set<nat>
  {
    if |log| == 0 then {}
    else
      var before := OpenOf(log[..|log| - 1]);
      match log[|log| - 1]
      case Opened(h) => before + {h}
      case Released(h) => before - {h}
      case _ => before
  }

  /** Live workers, each with the capture it was started under. */
  function LiveOf(log: seq<Event>): map<nat, nat>
  {
    if |log| == 0 then map[]
    else
      var before := LiveOf(log[..|log| - 1]);
      match log[|log| - 1]
      case Started(w, c) => before[w := c]
      case Exited(w) => before - {w}
      case _ => before
  }

  /** Every handle and worker number ever used. */
  function Seen(log: seq<Event>): set<nat>
  {
    if |log| == 0 then {}
    else
      var before := Seen(log[..|log| - 1]);
      match log[|log| - 1]
      case Opened(h) => before + {h}
      case Started(w, _) => before + {w}
      case _ => before
  }

  /** An event that keeps the discipline: numbers are fresh, only open handles are released, never
      the capture of a live worker, and a worker starts under an open capture. */
  predicate Legal(log: seq<Event>, e: Event)
  {
    match e
    case Opened(h) => h !in Seen(log)
    case Released(h) => h in OpenOf(log) && h !in LiveOf(log).Values
    case Started(w, c) => w !in Seen(log) && c in OpenOf(log)
    case Exited(w) => w in LiveOf(log)
  }

  predicate Disciplined(log: seq<Event>)
  {
    |log| > 0 ==> Disciplined(log[..|log| - 1]) && Legal(log[..|log| - 1], log[|log| - 1])
  }

  /** At every moment of a disciplined log, every live worker's capture is attached. */
  lemma {:induction false} LiveWorkersAreCaptured(log: seq<Event>)
    requires Disciplined(log)
    ensures forall w :: w in LiveOf(log) ==> LiveOf(log)[w] in OpenOf(log)
  {
    if |log| > 0 {
      LiveWorkersAreCaptured(log[..|log| - 1]);
      var before := LiveOf(log[..|log| - 1]);
      assert forall w :: w in before ==> before[w] in before.Values;
    }
  }

  lemma {:induction false} DisciplinedPrefix(log: seq<Event>, k: nat)
    requires Disciplined(log) && k <= |log|
    ensures Disciplined(log[..k])
  {
    if k < |log| {
      assert log[..|log| - 1][..k] == log[..k];
      DisciplinedPrefix(log[..|log| - 1], k);
    } else {
      assert log[..k] == log;
    }
  }

  /** A handle that has been released once is never open again. */
  lemma {:induction false} ReleasedForGood(log: seq<Event>, i: nat)
    requires Disciplined(log) && i < |log| && log[i].Released?
    ensures log[i].h in Seen(log) && log[i].h !in OpenOf(log)
    ensures forall j :: i < j < |log| ==> log[j] != log[i]
  {
    var n := |log| - 1;
    if i < n {
      assert log[..n][i] == log[i];
      ReleasedForGood(log[..n], i);
      assert forall j :: i < j < n ==> log[..n][j] == log[j];
    } else {
      OpenWasSeen(log[..n]);
    }
  }

  lemma {:induction false} OpenWasSeen(log: seq<Event>)
    ensures OpenOf(log) <= Seen(log)
  {
    if |log| > 0 {
      OpenWasSeen(log[..|log| - 1]);
    }
  }

  // ---------------------------------------------------------------- the empty-cgroup timer

  const EMPTY_GRACE: int := 30 * SECOND

  /** One reading of cgroup.events. */
  datatype Reading = Reading(at: int, populated: bool)

  /** emptySince after a list of readings: the first one of the current empty stretch. */
  function EmptySince(rs: seq<Reading>): Option<int>
  {
    if |rs| == 0 || rs[|rs| - 1].populated then None
    else
      var before := EmptySince(rs[..|rs| - 1]);
      if before.None? then Some(rs[|rs| - 1].at) else before
  }

  /** What the last call of expiredEmpty returned. */
  predicate Expired(rs: seq<Reading>)
  {
    && |rs| > 0 && !rs[|rs| - 1].populated
    && var before := EmptySince(rs[..|rs| - 1]);
       before.Some? && rs[|rs| - 1].at - before.value >= EMPTY_GRACE
  }

  ghost predicate ClockAscends(rs: seq<Reading>) { forall i, j :: 0 <= i <= j < |rs| ==> rs[i].at <= rs[j].at }

  /** All readings from m on found the cgroup empty. */
  ghost predicate EmptyFrom(rs: seq<Reading>, m: nat) { m < |rs| && forall k :: m <= k < |rs| ==> !rs[k].populated }

  lemma {:induction false} EmptyStretch(rs: seq<Reading>)
    ensures EmptySince(rs).Some? ==>
      exists m: nat :: EmptyFrom(rs, m) && rs[m].at == EmptySince(rs).value && (m == 0 || rs[m - 1].populated)
    ensures EmptySince(rs).None? <==> |rs| == 0 || rs[|rs| - 1].populated
  {
    if |rs| > 0 && !rs[|rs| - 1].populated {
      var n := |rs| - 1;
      EmptyStretch(rs[..n]);
      if EmptySince(rs[..n]).Some? {
        var m: nat :| EmptyFrom(rs[..n], m) && rs[..n][m].at == EmptySince(rs[..n]).value
          && (m == 0 || rs[..n][m - 1].populated);
        assert rs[..n][m] == rs[m] && (m > 0 ==> rs[..n][m - 1] == rs[m - 1]);
        assert forall k :: m <= k < n ==> rs[..n][k] == rs[k];
        assert EmptyFrom(rs, m);
      } else {
        assert EmptyFrom(rs, n);
        assert n > 0 ==> rs[..n][n - 1] == rs[n - 1];
      }
    }
  }

  lemma SpanExpires(rs: seq<Reading>, m: nat)
    requires ClockAscends(rs) && EmptyFrom(rs, m) && rs[|rs| - 1].at - rs[m].at >= EMPTY_GRACE
    ensures Expired(rs)
  {
    var n := |rs| - 1;
    EmptyStretch(rs);
    EmptyStretch(rs[..n]);
    assert rs[..n][n - 1] == rs[n - 1];
  }

  /** expiredEmpty fires exactly when every reading over a span of at least thirty seconds, up to now,
      found the cgroup empty. */
  lemma ExpiredExactly(rs: seq<Reading>)
    requires ClockAscends(rs)
    ensures Expired(rs) <==> exists m: nat :: EmptyFrom(rs, m) && rs[|rs| - 1].at - rs[m].at >= EMPTY_GRACE
  {
    if Expired(rs) {
      EmptyStretch(rs);
    }
    if exists m: nat :: EmptyFrom(rs, m) && rs[|rs| - 1].at - rs[m].at >= EMPTY_GRACE {
      var m: nat :| EmptyFrom(rs, m) && rs[|rs| - 1].at - rs[m].at >= EMPTY_GRACE;
      SpanExpires(rs, m);
    }
  }

  // ---------------------------------------------------------------- instances

  /** A captured workload: the handles it owns, its worker, its cgroup/namespace key, and what the
      empty timer has read. */
  datatype Instance = Instance(
    capture: nat, cgroup: nat, netns: nat, lease: nat, resources: nat, worker: nat,
    key: string, emptySince: Option<int>, readings: seq<Reading>)

  function Handles(i: Option<Instance>): set<nat>
  {
    match i
    case None => {}
    case Some(i) => {i.capture, i.cgroup, i.netns, i.lease, i.resources}
  }

  /** A gate request that waits for the lock, with its handles and key. */
  datatype Waiter = Waiter(proc: nat, cg: nat, ns: nat, key: string)

  function WaiterHandles(x: Waiter): set<nat> { {x.proc, x.cg, x.ns} }

  predicate ThreeHandles(x: Waiter) { x.proc != x.cg && x.proc != x.ns && x.cg != x.ns }

  function WaitingHandles(waiting: map<nat, Waiter>): set<nat>
  {
    set id, h | id in waiting && h in WaiterHandles(waiting[id]) :: h
  }

  /** No two requests share a handle, and each holds three. */
  ghost predicate Apart(waiting: map<nat, Waiter>)
  {
    && (forall id :: id in waiting ==> ThreeHandles(waiting[id]))
    && forall a, b :: a in waiting && b in waiting && a != b ==> WaiterHandles(waiting[a]) !! WaiterHandles(waiting[b])
  }

  function Keys(waiting: map<nat, Waiter>): map<nat, string> { map id | id in waiting :: waiting[id].key }

  lemma HandleOf(waiting: map<nat, Waiter>, h: nat)
    ensures h in WaitingHandles(waiting) <==> exists id :: id in waiting && h in WaiterHandles(waiting[id])
  {
    hide WaiterHandles;
  }

  lemma HandlesLeave(waiting: map<nat, Waiter>, id: nat)
    requires Apart(waiting) && id in waiting
    ensures WaitingHandles(waiting) == WaitingHandles(waiting - {id}) + WaiterHandles(waiting[id])
    ensures WaitingHandles(waiting - {id}) !! WaiterHandles(waiting[id])
  {
    hide WaitingHandles, WaiterHandles, ThreeHandles;
    var less := waiting - {id};
    forall h ensures h in WaitingHandles(waiting) <==> h in WaitingHandles(less) || h in WaiterHandles(waiting[id]) {
      HandleOf(waiting, h);
      HandleOf(less, h);
      assert forall other :: other in less ==> less[other] == waiting[other];
    }
    forall h | h in WaitingHandles(less) ensures h !in WaiterHandles(waiting[id]) {
      HandleOf(less, h);
      var other :| other in less && h in WaiterHandles(less[other]);
      assert other in waiting && other != id;
    }
  }

  lemma WaiterLeaves(waiting: map<nat, Waiter>, id: nat)
    requires Apart(waiting) && id in waiting
    ensures WaitingHandles(waiting) == WaitingHandles(waiting - {id}) + WaiterHandles(waiting[id])
    ensures WaitingHandles(waiting - {id}) !! WaiterHandles(waiting[id])
    ensures Apart(waiting - {id}) && ThreeHandles(waiting[id])
    ensures Keys(waiting - {id}) == Keys(waiting) - {id} && Keys(waiting)[id] == waiting[id].key
  {
    hide WaitingHandles, WaiterHandles, ThreeHandles;
    HandlesLeave(waiting, id);
  }

  lemma HandlesCome(waiting: map<nat, Waiter>, id: nat, x: Waiter)
    requires id !in waiting
    ensures WaitingHandles(waiting[id := x]) == WaitingHandles(waiting) + WaiterHandles(x)
  {
    hide WaitingHandles, WaiterHandles;
    var more := waiting[id := x];
    forall h ensures h in WaitingHandles(more) <==> h in WaitingHandles(waiting) || h in WaiterHandles(x) {
      HandleOf(waiting, h);
      HandleOf(more, h);
      assert more[id] == x && forall other :: other in waiting ==> other in more && more[other] == waiting[other];
    }
  }

  lemma WaiterComes(waiting: map<nat, Waiter>, id: nat, x: Waiter)
    requires Apart(waiting) && id !in waiting && WaiterHandles(x) !! WaitingHandles(waiting) && ThreeHandles(x)
    ensures WaitingHandles(waiting[id := x]) == WaitingHandles(waiting) + WaiterHandles(x) && Apart(waiting[id := x])
    ensures Keys(waiting[id := x]) == Keys(waiting)[id := x.key]
  {
    hide WaitingHandles, WaiterHandles, ThreeHandles;
    HandlesCome(waiting, id, x);
    forall other | other in waiting ensures WaiterHandles(waiting[other]) !! WaiterHandles(x) {
      forall h | h in WaiterHandles(waiting[other]) ensures h in WaitingHandles(waiting) {
        HandleOf(waiting, h);
      }
    }
  }

  /** The first system call of start that fails, if any. */
  datatype StartFault =
    | NoFault | SetupNetwork | AttachCapture | ReadyPipe | SealConfig | LeasePipe
    | Executable | DupMap | WorkerGroup | SpawnWorker | Readiness

  datatype Pipes = Pipes(capture: nat, readyW: nat, configR: nat, leaseR: nat, lease: nat)

  /** The handles start needs again once the worker runs. */
  datatype Kit = Kit(capture: nat, readyW: nat, configR: nat, leaseR: nat, lease: nat, resources: nat)

  /** A handle that a deferred call closes, on every return or only on failure. */
  datatype Deferred = Deferred(h: nat, onlyOnFailure: bool)

  predicate Runs(d: Deferred, ok: bool) { !ok || !d.onlyOnFailure }

  ghost function Closing(ds: seq<Deferred>, ok: bool): set<nat>
  {
    set k | 0 <= k < |ds| && Runs(ds[k], ok) :: ds[k].h
  }

  /** The first call of peerProcess that fails, if any. */
  datatype PeerFault = PeerOk | NoCredentials | GoneBefore | NoProcess | GoneAfter

  /** The first call of processNetwork that fails, if any. */
  datatype NetFault =
    | NetOk | CgroupFile | CgroupRead | ForeignUnit | CgroupOpen | NamespaceOpen | CgroupStat | NamespaceStat
    | HostOpen | HostNamespace

  /** A process found in the saved cgroup: which checks it passes, and its key. */
  datatype Candidate = Candidate(opens: bool, owned: bool, net: NetFault, key: string)

  datatype StateFile = Missing | Unreadable | Saved(key: string)

  datatype SavedGroup = GroupMissing | GroupUnreadable | GroupProcsUnreadable | GroupOpen(processes: seq<Candidate>)

  /** The ledger is disciplined and numbers at or above next are unused. */
  ghost predicate Sound(log: seq<Event>, next: nat)
  {
    Disciplined(log) && forall n :: n in Seen(log) ==> n < next
  }

  /** Partway through start: on top of base, exactly the deferred handles are open; kept are the ones
      that stay open on success. */
  ghost predicate Building(log: seq<Event>, next: nat, base: set<nat>, ds: seq<Deferred>, kept: set<nat>)
  {
    && Sound(log, next) && OpenOf(log) == base + Closing(ds, false) && base !! Closing(ds, false)
    && Closing(ds, false) == Closing(ds, true) + kept && kept !! Closing(ds, true)
  }

  /** Exactly the current instance's handles and some extra ones are open, and only the current
      worker can be alive, under its own capture. */
  ghost predicate Tidied(log: seq<Event>, next: nat, current: Option<Instance>, extra: set<nat>)
  {
    && Sound(log, next) && OpenOf(log) == Handles(current) + extra && extra !! Handles(current)
    && (forall w :: w in LiveOf(log) ==>
         current.Some? && w == current.value.worker && LiveOf(log)[w] == current.value.capture)
    && (current.Some? ==>
         current.value.lease != current.value.capture && current.value.emptySince == EmptySince(current.value.readings))
  }

  datatype Verdict = Keep | Refuse | Clear

  // ---------------------------------------------------------------- what the controller decides

  /** The instance as its callers see it. */
  datatype Held = Held(key: string, alive: bool, readings: seq<Reading>)

  /** The instance, the state file, and the gate requests that wait for the lock with their keys. */
  datatype Abstract = Abstract(held: Option<Held>, file: StateFile, waiting: map<nat, string>)

  datatype Operation =
    | Arrive(id: nat, peer: PeerFault, uid: bool, net: NetFault, key: string)
    | Enter(id: nat, populated: bool, fault: StartFault, saved: bool, dies: bool)
    | Turn(now: int, reading: bool, cleared: bool, group: SavedGroup, removed: bool, failing: StartFault)
    | WorkerGone

  predicate Alive(a: Abstract) { a.held.Some? && a.held.value.alive }

  /** prepare up to the lock: a request that passes its checks waits. */
  function ArriveStep(a: Abstract, x: Operation): Abstract
    requires x.Arrive?
  {
    if x.id !in a.waiting && x.peer == PeerOk && x.uid && x.net == NetOk then a.(waiting := a.waiting[x.id := x.key])
      else a
  }

  /** What prepare decides about the instance already there. */
  function Judge(a: Abstract, key: string, populated: bool): Verdict
  {
    if !Alive(a) then Clear else if a.held.value.key == key then Keep else if populated then Refuse else Clear
  }

  function WorkerEnded(a: Abstract): Abstract
  {
    if a.held.None? then a else a.(held := Some(a.held.value.(alive := false)))
  }

  /** What the locked section of prepare leaves, before its worker can die again. */
  function Admit(a: Abstract, key: string, x: Operation): (Abstract, bool)
    requires x.Enter?
  {
    match Judge(a, key, x.populated)
    case Keep => (a, true)
    case Refuse => (a, false)
    case Clear =>
      if x.fault == NoFault && x.saved then (a.(held := Some(Held(key, true, [])), file := Saved(key)), true)
      else (a.(held := None), false)
  }

  /** prepare under the lock: the new state and whether it answers READY. The worker can die before the answer. */
  function EnterStep(a: Abstract, x: Operation): (Abstract, bool)
    requires x.Enter?
  {
    if x.id !in a.waiting then (a, false)
    else
      var b := Admit(a.(waiting := a.waiting - {x.id}), a.waiting[x.id], x);
      (if x.dies then WorkerEnded(b.0) else b.0, b.1)
  }

  predicate Carries(p: Candidate, key: string) { p.opens && p.owned && p.net == NetOk && p.key == key }

  predicate SomeCarries(ps: seq<Candidate>, key: string) { exists k :: 0 <= k < |ps| && Carries(ps[k], key) }

  /** recover, with no instance there: the new state and whether it returns without error. */
  function RecoverStep(a: Abstract, group: SavedGroup, removed: bool, fault: StartFault): (Abstract, bool)
  {
    var none := a.(held := None);
    match a.file
    case Missing => (none, true)
    case Unreadable => (none, false)
    case Saved(key) =>
      match group
      case GroupMissing => (if removed then none.(file := Missing) else none, removed)
      case GroupUnreadable => (none, false)
      case GroupProcsUnreadable => (none, false)
      case GroupOpen(ps) =>
        if !SomeCarries(ps, key) then (none, true)
        else if fault == NoFault then (a.(held := Some(Held(key, true, []))), true)
        else (none, false)
  }

  /** One turn of reconcile. */
  function TurnStep(a: Abstract, x: Operation): Abstract
    requires x.Turn?
  {
    if Alive(a) then
      var rs := a.held.value.readings + [Reading(x.now, x.reading)];
      if !Expired(rs) then a.(held := Some(a.held.value.(readings := rs)))
      else RecoverStep(if x.cleared then a.(file := Missing) else a, x.group, x.removed, x.failing).0
    else RecoverStep(a, x.group, x.removed, x.failing).0
  }

  function Step(a: Abstract, x: Operation): Abstract
  {
    match x
    case Arrive(_, _, _, _, _) => ArriveStep(a, x)
    case Enter(_, _, _, _, _) => EnterStep(a, x).0
    case Turn(_, _, _, _, _, _) => TurnStep(a, x)
    case WorkerGone => WorkerEnded(a)
  }

  function RunOps(file: StateFile, ops: seq<Operation>): Abstract
  {
    if |ops| == 0 then Abstract(None, file, map[]) else Step(RunOps(file, ops[..|ops| - 1]), ops[|ops| - 1])
  }

  /** The times at which reconcile looks never go back. */
  ghost predicate TurnsAscend(ops: seq<Operation>)
  {
    forall i, j :: 0 <= i <= j < |ops| && ops[i].Turn? && ops[j].Turn? ==> ops[i].now <= ops[j].now
  }

  lemma ReadingsStep(a: Abstract, x: Operation)
    ensures var b := Step(a, x);
      b.held.Some? && b.held.value.readings != [] ==>
        && a.held.Some?
        && (b.held.value.readings == a.held.value.readings ||
            (x.Turn? && b.held.value.readings == a.held.value.readings + [Reading(x.now, x.reading)]))
  {
    hide Expired, SomeCarries;
  }

  lemma {:induction false} ReadingsAreTurns(file: StateFile, ops: seq<Operation>)
    requires TurnsAscend(ops)
    ensures var a := RunOps(file, ops);
      a.held.Some? ==>
        && ClockAscends(a.held.value.readings)
        && forall r :: r in a.held.value.readings ==> exists i :: 0 <= i < |ops| && ops[i].Turn? && ops[i].now == r.at
  {
    hide Step;
    if |ops| > 0 {
      var n := |ops| - 1;
      var front := ops[..n];
      assert forall i :: 0 <= i < n ==> front[i] == ops[i];
      ReadingsAreTurns(file, front);
      ReadingsStep(RunOps(file, front), ops[n]);
      assert ops[n].Turn? ==> exists i :: 0 <= i < |ops| && ops[i].Turn? && ops[i].now == ops[n].now;
    }
  }

  /** Release discipline, for every run: an instance whose worker is alive goes away, or makes room for another,
      only when a gate request with another key finds its cgroup empty, or when reconcile has found the cgroup
      empty at every look over a span of at least thirty seconds; otherwise it stays what it was. */
  lemma LiveInstanceStays(file: StateFile, ops: seq<Operation>, x: Operation)
    requires TurnsAscend(ops + [x]) && Alive(RunOps(file, ops)) && !x.WorkerGone?
    ensures var a, b := RunOps(file, ops), Step(RunOps(file, ops), x);
      || (b.held.Some? && (b.held.value.alive || (x.Enter? && x.dies)) && b.held.value.key == a.held.value.key
          && a.held.value.readings <= b.held.value.readings)
      || (x.Enter? && x.id in a.waiting && a.waiting[x.id] != a.held.value.key && !x.populated)
      || (x.Turn? && var rs := a.held.value.readings + [Reading(x.now, x.reading)];
            exists m: nat :: EmptyFrom(rs, m) && rs[|rs| - 1].at - rs[m].at >= EMPTY_GRACE)
  {
    hide EmptyFrom;
    var a := RunOps(file, ops);
    assert (ops + [x])[..|ops|] == ops && (ops + [x])[|ops|] == x;
    assert forall i :: 0 <= i < |ops| ==> (ops + [x])[i] == ops[i];
    assert TurnsAscend(ops);
    ReadingsAreTurns(file, ops);
    if x.Turn? {
      var rs := a.held.value.readings + [Reading(x.now, x.reading)];
      assert ClockAscends(rs);
      ExpiredExactly(rs);
    }
  }

  // ---------------------------------------------------------------- the controller

  class WorkloadController {
    var log: seq<Event>
    var next: nat
    var current: Option<Instance>
    var file: StateFile
    var waiting: map<nat, Waiter>

    /** Between operations only the current instance and the waiting requests hold anything. */
    ghost predicate Tidy()
      reads this
    {
      Tidied(log, next, current, WaitingHandles(waiting)) && Apart(waiting)
    }

    ghost function Abs(): Abstract
      reads this
    {
      Abstract(
        match current case None => None case Some(i) => Some(Held(i.key, i.worker in LiveOf(log), i.readings)), file,
        Keys(waiting))
    }

    constructor (file: StateFile)
      ensures Tidy() && current.None? && log == [] && this.file == file && waiting == map[]
    {
      log, next, current, waiting := [], 0, None, map[];
      this.file := file;
    }

    method Open() returns (h: nat)
      requires Sound(log, next)
      modifies this`log, this`next
      ensures Sound(log, next) && OpenOf(log) == old(OpenOf(log)) + {h} && LiveOf(log) == old(LiveOf(log))
      ensures h !in old(OpenOf(log)) && old(log) <= log
    {
      OpenWasSeen(log);
      h := next;
      Appended(log, Opened(h));
      log := log + [Opened(h)];
      next := next + 1;
    }

    /** os.File.Close: releases the handle once; later calls do nothing. */
    method Release(h: nat)
      requires Sound(log, next) && h !in LiveOf(log).Values
      modifies this`log
      ensures Sound(log, next) && OpenOf(log) == old(OpenOf(log)) - {h} && LiveOf(log) == old(LiveOf(log))
        && old(log) <= log
    {
      if h in OpenOf(log) {
        Appended(log, Released(h));
        log := log + [Released(h)];
      }
    }

    /** The deferred calls of a function, last first. */
    method Unwind(ds: seq<Deferred>, ok: bool)
      requires Sound(log, next) && Closing(ds, ok) !! LiveOf(log).Values
      modifies this`log
      ensures Sound(log, next) && OpenOf(log) == old(OpenOf(log)) - Closing(ds, ok)
        && LiveOf(log) == old(LiveOf(log)) && old(log) <= log
    {
      var k := |ds|;
      while k > 0
        invariant 0 <= k <= |ds| && Sound(log, next) && LiveOf(log) == old(LiveOf(log)) && old(log) <= log
        invariant OpenOf(log) == old(OpenOf(log)) - Closing(ds[k..], ok)
      {
        k := k - 1;
        assert ds[k..] == [ds[k]] + ds[k + 1..];
        ClosingCons(ds[k], ds[k + 1..], ok);
        ClosingWithin(ds, k, ok);
        if Runs(ds[k], ok) {
          Release(ds[k].h);
        }
      }
      assert ds[0..] == ds;
    }

    method Reap(w: nat)
      requires Sound(log, next)
      modifies this`log
      ensures Sound(log, next) && OpenOf(log) == old(OpenOf(log)) && LiveOf(log) == old(LiveOf(log)) - {w}
        && old(log) <= log
    {
      if w in LiveOf(log) {
        Appended(log, Exited(w));
        log := log + [Exited(w)];
      }
    }

    method Spawn(capture: nat) returns (w: nat)
      requires Sound(log, next) && capture in OpenOf(log)
      modifies this`log, this`next
      ensures Sound(log, next) && OpenOf(log) == old(OpenOf(log)) && LiveOf(log) == old(LiveOf(log))[w := capture]
        && old(log) <= log
    {
      w := next;
      Appended(log, Started(w, capture));
      log := log + [Started(w, capture)];
      next := next + 1;
    }

    /** The worker can end at any time. */
    method WorkerEnds()
      requires Tidy()
      modifies this`log
      ensures Tidy() && Abs() == Step(old(Abs()), WorkerGone)
    {
      if current.Some? {
        Reap(current.value.worker);
      }
    }

    /** instance.close: the lease ends and the worker is waited for before the capture goes. */
    method CloseInstance(i: Instance)
      requires Sound(log, next) && i.lease !in LiveOf(log).Values && forall w :: w in LiveOf(log) ==> w == i.worker
      modifies this`log
      ensures Sound(log, next) && OpenOf(log) == old(OpenOf(log)) - Handles(Some(i)) && LiveOf(log) == map[]
        && old(log) <= log
    {
      hide OpenOf, LiveOf, Sound;
      Release(i.lease);
      Reap(i.worker);
      assert LiveOf(log) == map[];
      Release(i.capture);
      Release(i.cgroup);
      Release(i.netns);
      Release(i.resources);
    }

    method OpenDeferred(ghost base: set<nat>, ds: seq<Deferred>, ghost kept: set<nat>, keep: bool)
      returns (h: nat, more: seq<Deferred>, ghost kept': set<nat>)
      requires Building(log, next, base, ds, kept)
      modifies this`log, this`next
      ensures Building(log, next, base, more, kept') && kept' == (if keep then kept + {h} else kept)
      ensures Closing(more, true) == if keep then Closing(ds, true) else Closing(ds, true) + {h}
      ensures Sound(log, next) && h !in kept && LiveOf(log) == old(LiveOf(log)) && old(log) <= log
    {
      hide OpenOf, LiveOf, Sound, Closing;
      h := Open();
      more := ds + [Deferred(h, keep)];
      kept' := if keep then kept + {h} else kept;
      ClosingSnoc(ds, Deferred(h, keep), false);
      ClosingSnoc(ds, Deferred(h, keep), true);
    }

    method Abort(ghost base: set<nat>, ds: seq<Deferred>, ghost kept: set<nat>)
      requires Building(log, next, base, ds, kept) && LiveOf(log) == map[]
      modifies this`log
      ensures Sound(log, next) && OpenOf(log) == base && LiveOf(log) == map[] && old(log) <= log
    {
      Unwind(ds, false);
    }

    /** The capture, the readiness pipe, the sealed configuration and the lease pipe. */
    method AcquirePipes(fault: StartFault) returns (kit: Option<Pipes>, ds: seq<Deferred>)
      requires Sound(log, next) && LiveOf(log) == map[]
      modifies this`log, this`next
      ensures Sound(log, next) && old(log) <= log && LiveOf(log) == map[]
      ensures kit.None? <==> fault in {SetupNetwork, AttachCapture, ReadyPipe, SealConfig, LeasePipe}
      ensures kit.None? ==> OpenOf(log) == old(OpenOf(log))
      ensures kit.Some? ==> var k := kit.value;
        && Building(log, next, old(OpenOf(log)), ds, {k.capture, k.lease})
        && k.lease != k.capture && {k.readyW, k.configR, k.leaseR} <= Closing(ds, true)
    {
      hide OpenOf, LiveOf, Sound, Closing, Building;
      ghost var base, kept: set<nat> := OpenOf(log), {};
      kit, ds := None, [];
      NothingDeferred(log, next);
      if fault == SetupNetwork || fault == AttachCapture {
        return;
      }
      var capture, readyR, readyW, configR, leaseR, lease;
      capture, ds, kept := OpenDeferred(base, ds, kept, true);
      if fault == ReadyPipe {
        Abort(base, ds, kept);
        return;
      }
      readyR, ds, kept := OpenDeferred(base, ds, kept, false);
      readyW, ds, kept := OpenDeferred(base, ds, kept, false);
      if fault == SealConfig {
        Abort(base, ds, kept);
        return;
      }
      configR, ds, kept := OpenDeferred(base, ds, kept, false);
      if fault == LeasePipe {
        Abort(base, ds, kept);
        return;
      }
      leaseR, ds, kept := OpenDeferred(base, ds, kept, false);
      lease, ds, kept := OpenDeferred(base, ds, kept, true);
      kit := Some(Pipes(capture, readyW, configR, leaseR, lease));
      assert kept == {capture, lease};
    }

    /** The first half of start: everything that is opened before the worker runs. */
    method Acquire(fault: StartFault) returns (kit: Option<Kit>, ds: seq<Deferred>)
      requires Sound(log, next) && LiveOf(log) == map[]
      modifies this`log, this`next
      ensures Sound(log, next) && old(log) <= log && LiveOf(log) == map[]
      ensures kit.Some? <==> fault in {NoFault, SpawnWorker, Readiness}
      ensures kit.None? ==> OpenOf(log) == old(OpenOf(log))
      ensures kit.Some? ==> var k := kit.value;
        && Building(log, next, old(OpenOf(log)), ds, {k.capture, k.lease, k.resources})
        && k.lease != k.capture && {k.readyW, k.configR, k.leaseR} <= Closing(ds, true)
    {
      hide OpenOf, LiveOf, Sound, Closing, Building;
      ghost var base := OpenOf(log);
      var pipes;
      pipes, ds := AcquirePipes(fault);
      kit := None;
      if pipes.None? {
        return;
      }
      var k := pipes.value;
      ghost var kept := {k.capture, k.lease};
      if fault == Executable || fault == DupMap {
        Abort(base, ds, kept);
        return;
      }
      var mapFile, resources;
      mapFile, ds, kept := OpenDeferred(base, ds, kept, false);
      if fault == WorkerGroup {
        Abort(base, ds, kept);
        return;
      }
      resources, ds, kept := OpenDeferred(base, ds, kept, true);
      kit := Some(Kit(k.capture, k.readyW, k.configR, k.leaseR, k.lease, resources));
      assert kept == {k.capture, k.lease, resources};
    }

    /** start: attaches the capture before the worker runs; on every failure nothing it opened stays
        open and no worker is left. */
    method Start(cg: nat, ns: nat, key: string, fault: StartFault) returns (r: Option<Instance>)
      requires Sound(log, next) && LiveOf(log) == map[]
      modifies this`log, this`next
      ensures Sound(log, next) && old(log) <= log && (r.Some? <==> fault == NoFault)
      ensures r.None? ==> OpenOf(log) == old(OpenOf(log)) && LiveOf(log) == map[]
      ensures r.Some? ==>
        var i := r.value;
        && i.cgroup == cg && i.netns == ns && i.key == key && i.emptySince == None && i.readings == []
        && OpenOf(log) == old(OpenOf(log)) + {i.capture, i.lease, i.resources}
        && {i.capture, i.lease, i.resources} !! old(OpenOf(log))
        && LiveOf(log) == map[i.worker := i.capture] && i.lease != i.capture
    {
      hide OpenOf, LiveOf, Sound, Closing;
      ghost var base := OpenOf(log);
      var kit, ds := Acquire(fault);
      if kit.None? {
        return None;
      }
      var k := kit.value;
      ghost var kept := {k.capture, k.lease, k.resources};
      if fault == SpawnWorker {
        Abort(base, ds, kept);
        return None;
      }
      var worker := Spawn(k.capture);
      if fault == Readiness {
        Reap(worker);
        assert LiveOf(log) == map[];
        Abort(base, ds, kept);
        return None;
      }
      assert LiveOf(log) == map[worker := k.capture];
      OneValue(worker, k.capture);
      Release(k.readyW);
      Release(k.configR);
      Release(k.leaseR);
      Unwind(ds, true);
      r := Some(Instance(k.capture, cg, ns, k.lease, k.resources, worker, key, None, []));
    }

    /** The part of prepare that looks at the instance already there. */
    method Displace(key: string, populated: bool, ghost extra: set<nat>) returns (v: Verdict)
      requires Tidied(log, next, current, extra)
      modifies this`log, this`current
      ensures Tidied(log, next, current, extra) && old(log) <= log
      ensures v == Judge(old(Abs()), key, populated)
      ensures Abs() == if v == Clear then old(Abs()).(held := None) else old(Abs())
    {
      hide OpenOf, LiveOf, Sound, EmptySince;
      if current.None? {
        return Clear;
      }
      var i := current.value;
      if i.worker in LiveOf(log) {
        if key == i.key {
          return Keep;
        }
        if populated {
          return Refuse;
        }
      }
      CloseInstance(i);
      current := None;
      v := Clear;
    }

    /** Starting an instance on two handles the caller already holds. */
    method Install(cg: nat, ns: nat, key: string, fault: StartFault, ghost extra: set<nat>) returns (ok: bool)
      requires Tidied(log, next, current, extra) && current.None? && cg in extra && ns in extra
      modifies this`log, this`next, this`current
      ensures old(log) <= log
      ensures ok <==> fault == NoFault
      ensures ok ==> Tidied(log, next, current, extra - {cg, ns}) && Abs().held == Some(Held(key, true, []))
      ensures !ok ==> Tidied(log, next, current, extra) && current.None?
    {
      hide OpenOf, LiveOf, Sound;
      assert LiveOf(log) == map[];
      var started := Start(cg, ns, key, fault);
      ok := started.Some?;
      if ok {
        current := started;
      }
    }

    /** peerProcess: the pidfd is closed on every path, and the process directory stays open only on success. */
    method PeerProcess(fault: PeerFault, ghost extra: set<nat>) returns (r: Option<nat>)
      requires Tidied(log, next, current, extra)
      modifies this`log, this`next
      ensures old(log) <= log && LiveOf(log) == old(LiveOf(log)) && (r.Some? <==> fault == PeerOk)
      ensures r.None? ==> Tidied(log, next, current, extra)
      ensures r.Some? ==> r.value !in extra && Tidied(log, next, current, extra + {r.value})
    {
      hide OpenOf, LiveOf, Sound, Tidied;
      if fault == NoCredentials {
        return None;
      }
      var pidfd := OpenExtra(extra);
      if fault == GoneBefore || fault == NoProcess {
        CloseExtra(pidfd, extra);
        return None;
      }
      var proc := OpenExtra(extra + {pidfd});
      assert extra + {pidfd} + {proc} == extra + {proc} + {pidfd};
      CloseExtra(pidfd, extra + {proc});
      if fault == GoneAfter {
        CloseExtra(proc, extra);
        return None;
      }
      r := Some(proc);
    }

    /** processNetwork: the cgroup and namespace handles stay open only on success. */
    method ProcessNetwork(fault: NetFault, ghost extra: set<nat>) returns (r: Option<(nat, nat)>)
      requires Tidied(log, next, current, extra)
      modifies this`log, this`next
      ensures old(log) <= log && LiveOf(log) == old(LiveOf(log)) && (r.Some? <==> fault == NetOk)
      ensures r.None? ==> Tidied(log, next, current, extra)
      ensures r.Some? ==>
        && r.value.0 !in extra && r.value.1 !in extra && r.value.0 != r.value.1
        && Tidied(log, next, current, extra + {r.value.0} + {r.value.1})
    {
      hide OpenOf, LiveOf, Sound, Tidied;
      if fault == CgroupFile {
        return None;
      }
      var f := OpenExtra(extra);
      CloseExtra(f, extra);
      if fault == CgroupRead || fault == ForeignUnit || fault == CgroupOpen {
        return None;
      }
      var cg := OpenExtra(extra);
      if fault == NamespaceOpen {
        CloseExtra(cg, extra);
        return None;
      }
      var ns := OpenExtra(extra + {cg});
      if fault == CgroupStat || fault == NamespaceStat || fault == HostOpen {
        CloseExtra(ns, extra + {cg});
        CloseExtra(cg, extra);
        return None;
      }
      var host := OpenExtra(extra + {cg} + {ns});
      CloseExtra(host, extra + {cg} + {ns});
      if fault == HostNamespace {
        CloseExtra(ns, extra + {cg});
        CloseExtra(cg, extra);
        return None;
      }
      r := Some((cg, ns));
    }

    /** prepare up to the lock. A request that fails a check holds nothing afterwards; one that passes waits with
        its three handles. */
    method Arrive(id: nat, peer: PeerFault, uid: bool, net: NetFault, key: string)
      requires Tidy()
      modifies this
      ensures Tidy() && old(log) <= log && Abs() == ArriveStep(old(Abs()), Operation.Arrive(id, peer, uid, net, key))
      ensures id in waiting <==> id in old(waiting) || (peer == PeerOk && uid && net == NetOk)
      ensures id in waiting && id !in old(waiting) ==> waiting[id].key == key
      ensures waiting - {id} == old(waiting) - {id} && (id in old(waiting) ==> waiting == old(waiting))
      ensures current == old(current) && file == old(file)
    {
      hide OpenOf, LiveOf, Sound, EmptySince, Tidied, WaitingHandles, Apart, Keys;
      KeysOf(waiting);
      if id in waiting {
        return;
      }
      ghost var extra := WaitingHandles(waiting);
      var proc := PeerProcess(peer, extra);
      if proc.None? {
        return;
      }
      if !uid {
        CloseExtra(proc.value, extra);
        return;
      }
      var found := ProcessNetwork(net, extra + {proc.value});
      if found.None? {
        CloseExtra(proc.value, extra);
        return;
      }
      var x := Waiter(proc.value, found.value.0, found.value.1, key);
      WaiterComes(waiting, id, x);
      assert extra + {proc.value} + {found.value.0} + {found.value.1} == extra + WaiterHandles(x);
      waiting := waiting[id := x];
    }

    /** prepare under the lock: the request's cgroup and namespace handles either become the instance's or are closed,
        and the answer is READY only for the current key. The worker may die before the answer is sent. */
    method Enter(id: nat, populated: bool, fault: StartFault, saved: bool, dies: bool) returns (ready: bool)
      requires Tidy()
      modifies this
      ensures Tidy() && old(log) <= log
      ensures (Abs(), ready) == EnterStep(old(Abs()), Operation.Enter(id, populated, fault, saved, dies))
      ensures ready ==>
        && id in old(waiting) && current.Some? && current.value.key == old(waiting)[id].key
        && (!dies ==> current.value.worker in LiveOf(log))
    {
      hide OpenOf, LiveOf, Sound, EmptySince, Tidied, WaitingHandles, Apart, Keys;
      KeysOf(waiting);
      if id !in waiting {
        return false;
      }
      WaiterLeaves(waiting, id);
      var x := waiting[id];
      waiting := waiting - {id};
      ready := Admitted(x, populated, fault, saved, WaitingHandles(waiting));
      if dies && current.Some? {
        Die(WaitingHandles(waiting));
      }
    }

    method Die(ghost extra: set<nat>)
      requires Tidied(log, next, current, extra) && current.Some?
      modifies this`log
      ensures Tidied(log, next, current, extra) && old(log) <= log && Abs() == WorkerEnded(old(Abs()))
    {
      Reap(current.value.worker);
    }

    /** The decision under the lock, for a request that has left the queue. */
    method Admitted(x: Waiter, populated: bool, fault: StartFault, saved: bool, ghost rest: set<nat>)
      returns (ready: bool)
      requires Tidied(log, next, current, rest + WaiterHandles(x)) && rest !! WaiterHandles(x) && ThreeHandles(x)
      modifies this`log, this`next, this`current, this`file
      ensures Tidied(log, next, current, rest) && old(log) <= log
      ensures (Abs(), ready) == Admit(old(Abs()), x.key, Operation.Enter(0, populated, fault, saved, false))
    {
      hide OpenOf, LiveOf, Sound, EmptySince, Tidied;
      ghost var one := rest + {x.proc};
      ghost var two := one + {x.cg};
      ghost var three := two + {x.ns};
      assert rest + WaiterHandles(x) == three;
      var v := Displace(x.key, populated, three);
      ready := v == Keep;
      if v == Clear {
        ready := Install(x.cg, x.ns, x.key, fault, three);
        if ready {
          assert three - {x.cg, x.ns} == one;
          if saved {
            file := Saved(x.key);
          } else {
            CloseCurrent(one);
            ready := false;
          }
          CloseExtra(x.proc, rest);
          return;
        }
      }
      CloseExtra(x.ns, two);
      CloseExtra(x.cg, one);
      CloseExtra(x.proc, rest);
    }

    /** recover: walks the processes of the saved cgroup for one that still carries the saved key. */
    method Recover(group: SavedGroup, removed: bool, fault: StartFault) returns (ok: bool)
      requires Tidy() && current.None?
      modifies this`log, this`next, this`current, this`file
      ensures Tidy() && old(log) <= log
      ensures (Abs(), ok) == RecoverStep(old(Abs()), group, removed, fault)
    {
      hide OpenOf, LiveOf, Sound, EmptySince, Tidied, WaitingHandles, Apart, Keys;
      ghost var extra := WaitingHandles(waiting);
      if file.Missing? {
        return true;
      }
      if file.Unreadable? {
        return false;
      }
      if group.GroupMissing? {
        if removed {
          file := Missing;
        }
        return removed;
      }
      if group.GroupUnreadable? {
        return false;
      }
      var cg := OpenExtra(extra);
      ghost var one := extra + {cg};
      if group.GroupProcsUnreadable? {
        CloseExtra(cg, extra);
        return false;
      }
      var procs := OpenExtra(one);
      CloseExtra(procs, one);
      ok := true;
      for k := 0 to |group.processes|
        invariant Tidied(log, next, current, one) && current.None? && file == old(file) && old(log) <= log
        invariant forall j :: 0 <= j < k ==> !Carries(group.processes[j], file.key)
      {
        var p := group.processes[k];
        if p.opens {
          var outcome := TryProcess(p, file.key, fault, one);
          if outcome != Refuse {
            CloseExtra(cg, extra);
            return outcome == Keep;
          }
        }
      }
      CloseExtra(cg, extra);
    }

    /** One process of recover's loop: Refuse means go on with the next, Clear that start failed. */
    method TryProcess(p: Candidate, key: string, fault: StartFault, ghost extra: set<nat>) returns (v: Verdict)
      requires Tidied(log, next, current, extra) && current.None?
      modifies this`log, this`next, this`current
      ensures Tidied(log, next, current, extra) && old(log) <= log
      ensures v == if !(p.owned && p.net == NetOk && p.key == key) then Refuse else if fault == NoFault then Keep
        else Clear
      ensures Abs().held == if v == Keep then Some(Held(key, true, [])) else None
    {
      hide OpenOf, LiveOf, Sound, EmptySince, Tidied;
      var proc := OpenExtra(extra);
      if !p.owned {
        CloseExtra(proc, extra);
        return Refuse;
      }
      var found := ProcessNetwork(p.net, extra + {proc});
      if found.None? {
        CloseExtra(proc, extra);
        return Refuse;
      }
      var group, ns := found.value.0, found.value.1;
      ghost var one := extra + {group};
      ghost var two := one + {ns};
      assert extra + {proc} + {group} + {ns} == two + {proc};
      CloseExtra(proc, two);
      if p.key != key {
        CloseExtra(ns, one);
        CloseExtra(group, extra);
        return Refuse;
      }
      var ok := Install(group, ns, key, fault, two);
      if ok {
        assert two - {group, ns} == extra;
        return Keep;
      }
      CloseExtra(ns, one);
      CloseExtra(group, extra);
      v := Clear;
    }

    /** expiredEmpty on the current instance. */
    method ExpiredEmpty(now: int, populated: bool) returns (expired: bool)
      requires Tidy() && current.Some?
      modifies this`current
      ensures Tidy() && current.Some?
      ensures current.value ==
        old(current).value.(emptySince := current.value.emptySince,
          readings := old(current).value.readings + [Reading(now, populated)])
      ensures expired == Expired(current.value.readings)
    {
      hide OpenOf, LiveOf, Sound;
      var i := current.value;
      var rs := i.readings + [Reading(now, populated)];
      assert rs[..|rs| - 1] == i.readings;
      i := i.(readings := rs);
      if populated {
        current := Some(i.(emptySince := None));
        return false;
      }
      if i.emptySince.None? {
        current := Some(i.(emptySince := Some(now)));
        return false;
      }
      current := Some(i);
      expired := now - i.emptySince.value >= EMPTY_GRACE;
    }

    /** One turn of reconcile. An instance whose worker is alive stays, unless its cgroup has been seen
        empty for the whole grace period. */
    method ReconcileOnce(now: int, populated: bool, cleared: bool, group: SavedGroup, removed: bool, fault: StartFault)
      requires Tidy()
      modifies this`log, this`next, this`current, this`file
      ensures Tidy() && old(log) <= log
      ensures Abs() == TurnStep(old(Abs()), Turn(now, populated, cleared, group, removed, fault))
    {
      hide OpenOf, LiveOf, Sound, EmptySince, Tidied, Expired, WaitingHandles, Apart, Keys;
      if current.Some? && current.value.worker !in LiveOf(log) {
        CloseCurrent(WaitingHandles(waiting));
      }
      if current.Some? {
        var expired := ExpiredEmpty(now, populated);
        if expired {
          CloseCurrent(WaitingHandles(waiting));
          if cleared {
            file := Missing;
          }
        }
      }
      if current.None? {
        var _ := Recover(group, removed, fault);
      }
    }

    method OpenExtra(ghost extra: set<nat>) returns (h: nat)
      requires Tidied(log, next, current, extra)
      modifies this`log, this`next
      ensures Tidied(log, next, current, extra + {h}) && h !in extra && old(log) <= log
        && LiveOf(log) == old(LiveOf(log))
    {
      hide OpenOf, LiveOf, Sound;
      h := Open();
    }

    method CloseExtra(h: nat, ghost rest: set<nat>)
      requires Tidied(log, next, current, rest + {h}) && h !in rest
      modifies this`log
      ensures Tidied(log, next, current, rest) && old(log) <= log && LiveOf(log) == old(LiveOf(log))
    {
      hide OpenOf, LiveOf, Sound;
      Release(h);
    }

    method CloseCurrent(ghost extra: set<nat>)
      requires Tidied(log, next, current, extra) && current.Some?
      modifies this`log, this`current
      ensures Tidied(log, next, current, extra) && current.None? && old(log) <= log
    {
      hide OpenOf, LiveOf, Sound;
      CloseInstance(current.value);
      current := None;
    }
  }

  // ---------------------------------------------------------------- whole lifetimes

  /** Any sequence of requests that arrive and enter, reconcile turns and worker exits: at every moment of the run
      each live worker is captured; no handle is ever released twice or reopened; and in the end exactly the handles
      of the current instance and of the waiting requests are open. */
  method Lifetime(file: StateFile, ops: seq<Operation>)
    returns (log: seq<Event>, current: Option<Instance>, saved: StateFile, waiting: map<nat, Waiter>)
    ensures forall k :: 0 <= k <= |log| ==> Captured(log[..k])
    ensures forall i, j :: 0 <= i < j < |log| && log[i].Released? ==> log[i] != log[j]
    ensures forall i, j :: 0 <= i < j < |log| && log[i].Opened? ==> log[i] != log[j]
    ensures OpenOf(log) == Handles(current) + WaitingHandles(waiting)
    ensures forall w :: w in LiveOf(log) ==> current.Some? && w == current.value.worker
    ensures var a := RunOps(file, ops);
      && saved == a.file && Keys(waiting) == a.waiting && (current.Some? <==> a.held.Some?)
      && (current.Some? ==>
            current.value.key == a.held.value.key && (current.value.worker in LiveOf(log) <==> a.held.value.alive))
  {
    hide RunOps, Step, ArriveStep, EnterStep, TurnStep, WaitingHandles, Keys, OpenOf, LiveOf;
    RunNoOps(file, ops);
    NobodyWaits();
    var c := new WorkloadController(file);
    for k := 0 to |ops|
      invariant c.Tidy() && fresh(c) && c.Abs() == RunOps(file, ops[..k])
    {
      RunOneMore(file, ops, k);
      match ops[k]
      case Arrive(id, peer, uid, net, key) => c.Arrive(id, peer, uid, net, key);
      case Enter(id, populated, fault, stored, dies) =>
        var _ := c.Enter(id, populated, fault, stored, dies);
      case Turn(now, reading, cleared, group, removed, failing) =>
        c.ReconcileOnce(now, reading, cleared, group, removed, failing);
      case WorkerGone => c.WorkerEnds();
    }
    assert ops[..|ops|] == ops;
    log, current, saved, waiting := c.log, c.current, c.file, c.waiting;
    LogFacts(log);
  }

  lemma NobodyWaits()
    ensures WaitingHandles(map[]) == {} && Keys(map[]) == map[]
  {
  }

  lemma KeysOf(waiting: map<nat, Waiter>)
    ensures forall id :: id in Keys(waiting) <==> id in waiting
    ensures forall id :: id in waiting ==> Keys(waiting)[id] == waiting[id].key
  {
  }

  lemma RunNoOps(file: StateFile, ops: seq<Operation>)
    ensures RunOps(file, ops[..0]) == Abstract(None, file, map[])
  {
  }

  lemma RunOneMore(file: StateFile, ops: seq<Operation>, k: nat)
    requires k < |ops|
    ensures var a := RunOps(file, ops[..k]);
      && RunOps(file, ops[..k + 1]) == Step(a, ops[k])
      && (ops[k].Arrive? ==> Step(a, ops[k]) == ArriveStep(a, ops[k]))
      && (ops[k].Enter? ==> Step(a, ops[k]) == EnterStep(a, ops[k]).0)
      && (ops[k].Turn? ==> Step(a, ops[k]) == TurnStep(a, ops[k]))
  {
    assert ops[..k + 1][..k] == ops[..k];
  }

  ghost predicate Captured(log: seq<Event>)
  {
    forall w :: w in LiveOf(log) ==> LiveOf(log)[w] in OpenOf(log)
  }

  lemma LogFacts(log: seq<Event>)
    requires Disciplined(log)
    ensures forall k :: 0 <= k <= |log| ==> Captured(log[..k])
    ensures forall i, j :: 0 <= i < j < |log| && log[i].Released? ==> log[i] != log[j]
    ensures forall i, j :: 0 <= i < j < |log| && log[i].Opened? ==> log[i] != log[j]
  {
    forall k | 0 <= k <= |log| ensures Captured(log[..k]) {
      DisciplinedPrefix(log, k);
      LiveWorkersAreCaptured(log[..k]);
    }
    forall i, j | 0 <= i < j < |log| && log[i].Released? ensures log[i] != log[j] {
      ReleasedForGood(log, i);
    }
    forall i, j | 0 <= i < j < |log| && log[i].Opened? ensures log[i] != log[j] {
      OpenedOnce(log, i);
    }
  }

  lemma {:induction false} OpenedOnce(log: seq<Event>, i: nat)
    requires Disciplined(log) && i < |log| && log[i].Opened?
    ensures log[i].h in Seen(log) && forall j :: i < j < |log| ==> log[j] != log[i]
  {
    var n := |log| - 1;
    if i < n {
      assert log[..n][i] == log[i];
      OpenedOnce(log[..n], i);
      assert forall j :: i < j < n ==> log[..n][j] == log[j];
    }
  }

  lemma NothingDeferred(log: seq<Event>, next: nat)
    requires Sound(log, next)
    ensures Building(log, next, OpenOf(log), [], {})
  {
  }

  lemma OneValue(w: nat, c: nat)
    ensures map[w := c].Values == {c}
  {
    assert w in map[w := c];
  }

  lemma ClosingSnoc(ds: seq<Deferred>, d: Deferred, ok: bool)
    ensures Closing(ds + [d], ok) == Closing(ds, ok) + if Runs(d, ok) then {d.h} else {}
  {
    var all := ds + [d];
    forall h ensures h in Closing(all, ok) <==> h in Closing(ds, ok) || (Runs(d, ok) && h == d.h) {
      if h in Closing(ds, ok) {
        var k :| 0 <= k < |ds| && Runs(ds[k], ok) && ds[k].h == h;
        assert all[k] == ds[k];
      }
      if Runs(d, ok) && h == d.h {
        assert all[|ds|] == d;
      }
    }
  }

  lemma Appended(log: seq<Event>, e: Event)
    ensures (log + [e])[..|log + [e]| - 1] == log
  {
  }

  lemma ClosingCons(d: Deferred, ds: seq<Deferred>, ok: bool)
    ensures Closing([d] + ds, ok) == Closing(ds, ok) + if Runs(d, ok) then {d.h} else {}
  {
    var all := [d] + ds;
    forall h ensures h in Closing(all, ok) <==> h in Closing(ds, ok) || (Runs(d, ok) && h == d.h) {
      if h in Closing(ds, ok) {
        var k :| 0 <= k < |ds| && Runs(ds[k], ok) && ds[k].h == h;
        assert all[k + 1] == ds[k];
      }
      if Runs(d, ok) && h == d.h {
        assert all[0] == d;
      }
    }
  }

  lemma ClosingWithin(ds: seq<Deferred>, k: nat, ok: bool)
    requires k < |ds|
    ensures Runs(ds[k], ok) ==> ds[k].h in Closing(ds, ok)
  {
  }
}
