/** The quota daemon's loop as a state machine that can crash or fault between any two effects. */
module QuotaGate {
  import opened Text
  import opened Transfer

  const LIMIT: nat := 100_000_000_000

  /** Where the process is: not running, at the top of its loop, or after one of the loop's effects. */
  datatype Pc = Down | Top | Counted | Kept | Marked | Announced

  /** disk, marker and month outlive the process; starts lists the month of every start command, stops counts the
      stop commands, and saved lists the samples whose accounting reached the disk. */
  datatype State = State(
    disk: Option<Usage>, marker: bool, month: int, starts: seq<int>, stops: nat, saved: seq<Sample>,
    pc: Pc, usage: Option<Usage>, sample: Option<Sample>, running: bool, wasBlocked: bool, announced: bool)

  function Installed(month: int): State { State(None, false, month, [], 0, [], Down, None, None, false, false, false) }

  /** Observe reads the counters and whether the unit is neither inactive nor failed. Crash loses the process;
      Fault is an exception, which may also come from loading the state file. */
  datatype Action =
    | NextMonth(months: nat) | Boot | Observe(current: Snapshot, running: bool)
    | Save | Mark | Announce | Decide | Crash | Fault

  predicate Exhausted(u: Option<Usage>) { u.Some? && u.value.used >= LIMIT }

  function Apply(s: State, x: Action): State
  {
    match x
    case NextMonth(d) => s.(month := s.month + d)
    case Boot => if s.pc.Down? then s.(pc := Top, usage := s.disk, announced := false) else s
    case Observe(current, running) =>
      if s.pc.Top? then
        s.(pc := Counted, wasBlocked := s.marker, running := running,
          usage := Some(Accounted(s.usage, current, s.month)),
           sample := Some(Sample(current, s.month)))
      else s
    case Save =>
      if s.pc.Counted? && s.sample.Some? then s.(pc := Kept, disk := s.usage, saved := s.saved + [s.sample.value])
        else s
    case Mark =>
      if s.pc.Kept? then
        s.(pc := Marked, marker := Exhausted(s.usage),
           stops := if Exhausted(s.usage) && s.running then s.stops + 1 else s.stops)
      else s
    case Announce => if s.pc.Marked? then s.(pc := Announced) else s
    case Decide =>
      if s.pc.Announced? then
        var go := !Exhausted(s.usage) && (s.wasBlocked || !s.announced);
        s.(pc := Top, announced := true, starts := if go then s.starts + [s.month] else s.starts)
      else s
    case Crash => s.(pc := Down)
    case Fault => s.(pc := Down, marker := true, stops := s.stops + 1)
  }

  function RunFrom(s: State, xs: seq<Action>): State
  {
    if |xs| == 0 then s else Apply(RunFrom(s, xs[..|xs| - 1]), xs[|xs| - 1])
  }

  // ---------------------------------------------------------------- invariants

  /** Memory agrees with the disk except between counting and saving, and months never run ahead. */
  ghost predicate Inv(s: State)
  {
    && (s.disk.Some? ==> s.disk.value.month <= s.month)
    && (s.pc.Top? || s.pc.Kept? || s.pc.Marked? || s.pc.Announced? ==> s.usage == s.disk)
    && s.disk == After(s.saved)
    && (s.pc.Counted? ==>
          && s.sample.Some? && s.usage == Some(Accounted(s.disk, s.sample.value.snapshot, s.sample.value.month))
          && s.usage.Some? && s.usage.value.month <= s.month
          && (s.disk.Some? ==> s.disk.value.month <= s.usage.value.month)
          && (s.disk.Some? && s.disk.value.month == s.usage.value.month ==> s.usage.value.used >= s.disk.value.used))
    && (s.pc.Kept? || s.pc.Marked? || s.pc.Announced? ==> s.usage.Some?)
    && (s.pc.Marked? || s.pc.Announced? ==> s.marker == Exhausted(s.usage))
  }

  lemma InvKept(s: State, x: Action)
    requires Inv(s)
    ensures Inv(Apply(s, x))
  {
    if x.Save? && s.pc.Counted? {
      assert (s.saved + [s.sample.value])[..|s.saved|] == s.saved;
    }
  }

  lemma {:induction false} InvHolds(s: State, xs: seq<Action>)
    requires Inv(s)
    ensures Inv(RunFrom(s, xs))
  {
    hide Inv, Apply;
    if |xs| > 0 {
      InvHolds(s, xs[..|xs| - 1]);
      InvKept(RunFrom(s, xs[..|xs| - 1]), xs[|xs| - 1]);
    }
  }

  /** The quota of month m has been used up, or a later month has begun on disk. */
  ghost predicate ShutUntil(s: State, m: int)
  {
    s.disk.Some? && (s.disk.value.month > m || (s.disk.value.month == m && s.disk.value.used >= LIMIT))
  }

  lemma StaysShutStep(s: State, x: Action, m: int)
    requires Inv(s) && ShutUntil(s, m)
    ensures ShutUntil(Apply(s, x), m)
    ensures Apply(s, x).starts == s.starts || (Apply(s, x).starts == s.starts + [s.month] && s.month > m)
  {
  }

  /** Once the saved usage of a month has reached the limit, no start is issued before a later month,
      whatever crashes, faults and restarts happen in between. */
  lemma {:induction false} StaysShut(s: State, ys: seq<Action>, m: int)
    requires Inv(s) && ShutUntil(s, m)
    ensures var t := RunFrom(s, ys);
      ShutUntil(t, m) && s.starts <= t.starts && forall i :: |s.starts| <= i < |t.starts| ==> t.starts[i] > m
  {
    if |ys| > 0 {
      StaysShut(s, ys[..|ys| - 1], m);
      InvHolds(s, ys[..|ys| - 1]);
      StaysShutStep(RunFrom(s, ys[..|ys| - 1]), ys[|ys| - 1], m);
    }
  }

  lemma {:induction false} RunFromConcat(s: State, xs: seq<Action>, ys: seq<Action>)
    ensures RunFrom(s, xs + ys) == RunFrom(RunFrom(s, xs), ys)
    decreases ys
  {
    if |ys| == 0 {
      assert xs + ys == xs;
    } else {
      assert (xs + ys)[..|xs + ys| - 1] == xs + ys[..|ys| - 1];
      RunFromConcat(s, xs, ys[..|ys| - 1]);
    }
  }

  /** The same for a process that begins with an empty disk. */
  lemma QuotaStaysShut(month: int, xs: seq<Action>, ys: seq<Action>)
    requires Exhausted(RunFrom(Installed(month), xs).disk)
    ensures var s, t := RunFrom(Installed(month), xs), RunFrom(Installed(month), xs + ys);
      forall i :: |s.starts| <= i < |t.starts| ==> t.starts[i] > s.disk.value.month
  {
    var s := RunFrom(Installed(month), xs);
    InvHolds(Installed(month), xs);
    StaysShut(s, ys, s.disk.value.month);
    RunFromConcat(Installed(month), xs, ys);
  }

  /** Conservation through crashes and faults: the disk always holds the accounting of exactly the samples that were
      saved, in order, so the final figures of all months sum to the increments of those samples; a sample lost in a
      crash is made up for by the next one saved. */
  lemma DiskIsSavedSamples(month: int, xs: seq<Action>)
    ensures var s := RunFrom(Installed(month), xs);
      && s.disk == After(s.saved)
      && Transfer.Counted(s.saved) == Closed(s.saved) + if s.disk.Some? then s.disk.value.used else 0
  {
    hide RunFrom, Closed, Transfer.Counted;
    InvHolds(Installed(month), xs);
    SegmentsConserveBytes(RunFrom(Installed(month), xs).saved);
  }

  /** Every completed turn of the loop leaves the marker present exactly when the saved usage has
      reached the limit. */
  lemma MarkerIsExact(month: int, xs: seq<Action>)
    requires RunFrom(Installed(month), xs).pc.Announced?
    ensures var t := RunFrom(Installed(month), xs + [Decide]);
      t.pc.Top? && (t.marker <==> Exhausted(t.disk))
  {
    InvHolds(Installed(month), xs);
    assert (xs + [Decide])[..|xs|] == xs;
  }

  // ---------------------------------------------------------------- one whole turn

  function Turn(current: Snapshot, running: bool): seq<Action>
  {
    [Observe(current, running), Save, Mark, Announce, Decide]
  }

  lemma FiveSteps(s: State, xs: seq<Action>)
    requires |xs| == 5
    ensures RunFrom(s, xs) == Apply(Apply(Apply(Apply(Apply(s, xs[0]), xs[1]), xs[2]), xs[3]), xs[4])
  {
    assert xs[..4][..3] == xs[..3] && xs[..3][..2] == xs[..2] && xs[..2][..1] == xs[..1] && xs[..1][..0] == [];
    assert RunFrom(s, xs[..1]) == Apply(s, xs[0]);
    assert RunFrom(s, xs[..2]) == Apply(RunFrom(s, xs[..1]), xs[1]);
    assert RunFrom(s, xs[..3]) == Apply(RunFrom(s, xs[..2]), xs[2]);
    assert RunFrom(s, xs[..4]) == Apply(RunFrom(s, xs[..3]), xs[3]);
  }

  /** A fault at any point, then a restart and one undisturbed turn: the unit is started again exactly when the
      usage now on disk is below the limit, and stopped once more exactly when it is not and the unit runs. */
  lemma FaultRecovers(s: State, current: Snapshot, running: bool)
    requires Inv(s)
    ensures var t := RunFrom(Apply(Apply(s, Fault), Boot), Turn(current, running));
      && t.disk == Some(Accounted(s.disk, current, s.month)) && (t.marker <==> Exhausted(t.disk))
      && t.starts == (if Exhausted(t.disk) then s.starts else s.starts + [s.month])
      && t.stops == s.stops + 1 + (if Exhausted(t.disk) && running then 1 else 0)
  {
    FiveSteps(Apply(Apply(s, Fault), Boot), Turn(current, running));
  }

  /** The disk's usage has reached one hundred billion bytes. */
  predicate UsedUp(u: Option<Usage>) { u.Some? && u.value.used >= 100_000_000_000 }

  /** In every run the marker is there after a step exactly if the step decides so, which only the marking step of a
      turn does, by the saved usage, or if it was there before, or if an exception put it there. */
  lemma MarkerExactly(month: int, xs: seq<Action>, x: Action)
    ensures var s, t := RunFrom(Installed(month), xs), RunFrom(Installed(month), xs + [x]);
      t.marker <==> if x.Mark? && s.pc.Kept? then UsedUp(s.disk) else s.marker || x.Fault?
  {
    InvHolds(Installed(month), xs);
    assert (xs + [x])[..|xs|] == xs;
  }

  /** In every run a step starts the unit exactly if it ends a turn whose saved usage is below the limit, and that turn
      found the marker or is the first of its process. A step stops the unit exactly if it marks a running unit at its
      limit, or is an exception. */
  lemma CommandsExactly(month: int, xs: seq<Action>, x: Action)
    ensures var s, t := RunFrom(Installed(month), xs), RunFrom(Installed(month), xs + [x]);
      && t.starts == (if x.Decide? && s.pc.Announced? && !UsedUp(s.disk) && (s.wasBlocked || !s.announced)
                      then s.starts + [s.month] else s.starts)
      && t.stops == s.stops +
         (if x.Fault? || (x.Mark? && s.pc.Kept? && UsedUp(s.disk) && s.running) then 1 else 0)
  {
    InvHolds(Installed(month), xs);
    assert (xs + [x])[..|xs|] == xs;
  }

  /** A process that boots and takes two turns starts the unit in the first exactly below the limit, and in the second
      exactly if only the first was at the limit. */
  lemma TwoTurns(s: State, one: Snapshot, first: bool, two: Snapshot, second: bool)
    requires Inv(s) && s.pc.Down?
    ensures var t := RunFrom(Apply(s, Boot), Turn(one, first));
      var u := RunFrom(t, Turn(two, second));
      && t.starts == (if UsedUp(t.disk) then s.starts else s.starts + [s.month])
      && u.starts == (if UsedUp(t.disk) && !UsedUp(u.disk) then t.starts + [s.month] else t.starts)
      && t.stops == s.stops + (if UsedUp(t.disk) && first then 1 else 0)
      && u.stops == t.stops + (if UsedUp(u.disk) && second then 1 else 0)
  {
    hide RunFrom, Accounted;
    TurnIsFiveSteps(Apply(s, Boot), one, first);
    TurnIsFiveSteps(RunFrom(Apply(s, Boot), Turn(one, first)), two, second);
  }

  // ---------------------------------------------------------------- implementation

  /** One undisturbed turn, in one go. */
  function TurnResult(s: State, current: Snapshot, running: bool): State
  {
    var usage := Some(Accounted(s.usage, current, s.month));
    var exhausted := Exhausted(usage);
    State(usage, exhausted, s.month,
          if !exhausted && (s.marker || !s.announced) then s.starts + [s.month] else s.starts,
          if exhausted && running then s.stops + 1 else s.stops,
          s.saved + [Sample(current, s.month)], Top, usage, Some(Sample(current, s.month)), running, s.marker, true)
  }

  lemma TurnIsFiveSteps(s: State, current: Snapshot, running: bool)
    requires s.pc.Top?
    ensures RunFrom(s, Turn(current, running)) == TurnResult(s, current, running)
  {
    hide RunFrom;
    FiveSteps(s, Turn(current, running));
  }

  class QuotaDaemon {
    var disk: Option<Usage>
    var marker: bool
    var month: int
    var starts: seq<int>
    var stops: nat
    var usage: Option<Usage>
    var announced: bool
    ghost var saved: seq<Sample>
    ghost var sample: Option<Sample>
    ghost var wasRunning: bool
    ghost var wasBlocked: bool

    /** The daemon at the top of its loop. */
    ghost function View(): State
      reads this
    {
      State(disk, marker, month, starts, stops, saved, Top, usage, sample, wasRunning, wasBlocked, announced)
    }

    /** A process that has just loaded its state file. */
    constructor (s: State)
      requires s.pc.Down?
      ensures View() == Apply(s, Boot)
    {
      disk, marker, month, starts, stops, saved := s.disk, s.marker, s.month, s.starts, s.stops, s.saved;
      sample, wasRunning, wasBlocked := s.sample, s.running, s.wasBlocked;
      usage, announced := s.disk, false;
    }

    /** One turn of the loop in main. */
    method LoopTurn(current: Snapshot, running: bool)
      modifies this
      ensures View() == RunFrom(old(View()), Turn(current, running))
    {
      hide RunFrom, Accounted, Apply, Turn;
      TurnIsFiveSteps(View(), current, running);
      wasBlocked, wasRunning := marker, running;
      var blocked := marker;
      var next := Account(usage, current, month);
      sample := Some(Sample(current, month));
      usage := Some(next);
      disk := usage;
      saved := saved + [Sample(current, month)];
      var exhausted := next.used >= LIMIT;
      if exhausted {
        marker := true;
        if running {
          stops := stops + 1;
        }
      } else {
        marker := false;
      }
      if !exhausted && (blocked || !announced) {
        starts := starts + [month];
      }
      announced := true;
    }
  }
}
