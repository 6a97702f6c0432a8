/** Every byte the unit moves in either direction, against every byte its observer counts. */
module ByteLedger {
  import opened Text
  import opened Transfer
  import C = CounterLedger

  /** Counters can be reset in one direction or both, and a look can find no data for one or both. */
  datatype Event =
    | Traffic(ingress: nat, egress: nat)
    | Reset(ingressToo: bool, egressToo: bool)
    | Switch(invocation: string)
    | Look(month: int, ingressBlank: bool, egressBlank: bool)

  datatype Direction = Ingress | Egress

  /** What one direction's counter sees of an event. */
  function Seen(e: Event, d: Direction): C.Event
  {
    match e
    case Traffic(a, b) => C.Traffic(if d.Ingress? then a else b)
    case Reset(a, b) => if (if d.Ingress? then a else b) then C.Reset else C.Pause
    case Switch(i) => C.Switch(i)
    case Look(_, a, b) => C.Look(if d.Ingress? then a else b)
  }

  function Side(es: seq<Event>, d: Direction): (cs: seq<C.Event>)
    ensures |cs| == |es|
  {
    seq(|es|, i requires 0 <= i < |es| => Seen(es[i], d))
  }

  function Ledger(es: seq<Event>, d: Direction): C.World { C.Watch(Side(es, d)) }

  /** The readings that snapshot returns over the events, in order. */
  function Samples(es: seq<Event>): seq<Sample>
  {
    if |es| == 0 then []
    else
      var front, e := es[..|es| - 1], es[|es| - 1];
      if !e.Look? then Samples(front)
      else
        var a, b := Ledger(front, Ingress), Ledger(front, Egress);
        var now := Snapshot(a.invocation, C.Figure(a, e.ingressBlank), C.Figure(b, e.egressBlank));
        Samples(front) + [Sample(now, e.month)]
  }

  function Moved(es: seq<Event>): nat { Ledger(es, Ingress).moved + Ledger(es, Egress).moved }

  ghost function Waiting(es: seq<Event>): nat
  {
    C.Waiting(Ledger(es, Ingress).meters) + C.Waiting(Ledger(es, Egress).meters)
  }

  // ---------------------------------------------------------------- the ledgers follow the accounting

  lemma SideStep(es: seq<Event>, d: Direction)
    requires |es| > 0
    ensures Ledger(es, d) == C.Step(Ledger(es[..|es| - 1], d), Seen(es[|es| - 1], d))
  {
    var n := |es| - 1;
    assert Side(es, d)[..n] == Side(es[..n], d);
  }

  /** The saved record and the two ledgers note the same invocation and figures. */
  ghost predicate Noted(u: Option<Usage>, a: C.World, b: C.World)
  {
    match u
    case None => a.last.None? && b.last.None?
    case Some(r) => a.last == Some(C.Note(r.invocation, r.ingress)) && b.last == Some(C.Note(r.invocation, r.egress))
  }

  lemma LookCounts(u: Option<Usage>, a: C.World, b: C.World, e: Event)
    requires Noted(u, a, b) && a.invocation == b.invocation && e.Look?
    ensures var now := Snapshot(a.invocation, C.Figure(a, e.ingressBlank), C.Figure(b, e.egressBlank));
      var a', b' := C.Step(a, Seen(e, Ingress)), C.Step(b, Seen(e, Egress));
      && Noted(Some(Accounted(u, now, e.month)), a', b')
      && a'.counted + b'.counted == a.counted + b.counted + Increment(u, now)
  {
  }

  lemma OthersCountNothing(w: C.World, e: C.Event)
    requires !e.Look?
    ensures C.Step(w, e).counted == w.counted && C.Step(w, e).last == w.last
  {
  }

  lemma SameInvocation(a: C.World, b: C.World, e: Event)
    requires a.invocation == b.invocation
    ensures C.Step(a, Seen(e, Ingress)).invocation == C.Step(b, Seen(e, Egress)).invocation
  {
  }

  /** What account has counted over the readings is what the two ledgers have counted. */
  lemma {:induction false} LedgersFollow(es: seq<Event>)
    ensures var a, b := Ledger(es, Ingress), Ledger(es, Egress);
      && Noted(After(Samples(es)), a, b) && a.invocation == b.invocation
      && Counted(Samples(es)) == a.counted + b.counted
  {
    hide C.Step, Ledger, Noted, Accounted, Increment;
    if |es| == 0 {
      NothingNoted(es);
    } else {
      var front, e := es[..|es| - 1], es[|es| - 1];
      var a, b := Ledger(front, Ingress), Ledger(front, Egress);
      LedgersFollow(front);
      SideStep(es, Ingress);
      SideStep(es, Egress);
      SameInvocation(a, b, e);
      if e.Look? {
        LookCounts(After(Samples(front)), a, b, e);
        assert Samples(es)[..|Samples(es)| - 1] == Samples(front);
      } else {
        OthersCountNothing(a, Seen(e, Ingress));
        OthersCountNothing(b, Seen(e, Egress));
        NotedAgain(After(Samples(front)), a, b, C.Step(a, Seen(e, Ingress)), C.Step(b, Seen(e, Egress)));
      }
    }
  }

  lemma NotedAgain(u: Option<Usage>, a: C.World, b: C.World, a': C.World, b': C.World)
    requires Noted(u, a, b) && a'.last == a.last && b'.last == b.last
    ensures Noted(u, a', b')
  {
  }

  lemma NothingNoted(es: seq<Event>)
    requires es == []
    ensures Ledger(es, Ingress) == C.START && Ledger(es, Egress) == C.START && Noted(None, C.START, C.START)
  {
  }

  // ---------------------------------------------------------------- conservation

  /** Byte conservation, for every sequence of traffic, resets, restarts, returns and looks, with or without data: what
      was moved and what was counted twice make up what account counted, what resets took away and what still waits
      unread in a counter. */
  lemma Balance(es: seq<Event>)
    ensures var a, b := Ledger(es, Ingress), Ledger(es, Egress);
      Moved(es) + a.recounted + b.recounted == Counted(Samples(es)) + a.hidden + b.hidden + Waiting(es)
  {
    hide C.Watch, C.Waiting, Samples, Counted;
    LedgersFollow(es);
    C.Balance(Side(es, Ingress));
    C.Balance(Side(es, Egress));
  }

  /** Some look reads a counter again that an earlier look had read, never reset in between, after a look past it: one
      at another invocation, or one that found no data. */
  ghost predicate ComesBack(es: seq<Event>)
  {
    C.ComesBack(Side(es, Ingress)) || C.ComesBack(Side(es, Egress))
  }

  /** Without that the count never exceeds the traffic, and what it misses was taken by a reset or waits unread. */
  lemma CountNeverExceedsTraffic(es: seq<Event>)
    requires !ComesBack(es)
    ensures Counted(Samples(es)) <= Moved(es)
    ensures Moved(es) == Counted(Samples(es)) + Ledger(es, Ingress).hidden + Ledger(es, Egress).hidden + Waiting(es)
  {
    hide C.Watch, C.Waiting, C.ComesBack, Samples, Counted;
    LedgersFollow(es);
    C.CountNeverExceedsTraffic(Side(es, Ingress));
    C.CountNeverExceedsTraffic(Side(es, Egress));
  }

  // ---------------------------------------------------------------- schedules

  predicate NoTraffic(es: seq<Event>) { forall e :: e in es ==> !e.Traffic? }

  /** An event list's schedule: everything but the traffic. */
  function Schedule(es: seq<Event>): seq<Event>
  {
    if |es| == 0 then []
    else Schedule(es[..|es| - 1]) + if es[|es| - 1].Traffic? then [] else [es[|es| - 1]]
  }

  lemma {:induction false} ScheduleSide(es: seq<Event>, d: Direction)
    ensures C.Schedule(Side(es, d)) == Side(Schedule(es), d)
  {
    if |es| > 0 {
      var n := |es| - 1;
      ScheduleSide(es[..n], d);
      assert Side(es, d)[..n] == Side(es[..n], d);
      assert es[n].Traffic? ==> Schedule(es) == Schedule(es[..n]);
      assert !es[n].Traffic? ==> Side(Schedule(es), d) == Side(Schedule(es[..n]), d) + [Seen(es[n], d)];
    }
  }

  lemma SameReturns(es: seq<Event>, d: Direction)
    ensures C.ComesBack(Side(es, d)) <==> C.ComesBack(Side(Schedule(es), d))
  {
    hide C.ComesBack, C.Follow, C.Schedule, Side, Schedule;
    C.AgainExactly(Side(es, d));
    C.AgainExactly(Side(Schedule(es), d));
    C.ScheduleFollows(Side(es, d));
    ScheduleSide(es, d);
  }

  function Byte(d: Direction): Event { if d.Ingress? then Traffic(1, 0) else Traffic(0, 1) }

  function Other(d: Direction): Direction { if d.Ingress? then Egress else Ingress }

  /** The schedule with one byte put in before event j. */
  function Insert(plan: seq<Event>, j: nat, d: Direction): seq<Event>
    requires j <= |plan|
  {
    plan[..j] + [Byte(d)] + plan[j..]
  }

  lemma InsertSide(plan: seq<Event>, j: nat, d: Direction)
    requires j <= |plan|
    ensures Side(Insert(plan, j, d), d) == C.Insert(Side(plan, d), j)
    ensures Side(Insert(plan, j, d), Other(d)) == Side(plan, Other(d))[..j] + [C.Traffic(0)] + Side(plan, Other(d))[j..]
  {
  }

  lemma {:induction false} ScheduleConcat(a: seq<Event>, b: seq<Event>)
    ensures Schedule(a + b) == Schedule(a) + Schedule(b)
    decreases b
  {
    if |b| == 0 {
      assert a + b == a;
    } else {
      assert (a + b)[..|a + b| - 1] == a + b[..|b| - 1];
      ScheduleConcat(a, b[..|b| - 1]);
    }
  }

  lemma {:induction false} ScheduleOfSchedule(es: seq<Event>)
    requires NoTraffic(es)
    ensures Schedule(es) == es
  {
    if |es| > 0 {
      assert es[|es| - 1] in es;
      ScheduleOfSchedule(es[..|es| - 1]);
    }
  }

  lemma ByteUnscheduled(d: Direction)
    ensures Schedule([Byte(d)]) == []
  {
    assert [Byte(d)][..0] == [];
  }

  lemma InsertKeepsSchedule(plan: seq<Event>, j: nat, d: Direction)
    requires NoTraffic(plan) && j <= |plan|
    ensures Schedule(Insert(plan, j, d)) == plan
  {
    hide Schedule, Byte;
    ScheduleConcat(plan[..j] + [Byte(d)], plan[j..]);
    ScheduleConcat(plan[..j], [Byte(d)]);
    ScheduleOfSchedule(plan[..j]);
    ScheduleOfSchedule(plan[j..]);
    ByteUnscheduled(d);
    assert plan[..j] + [] + plan[j..] == plan;
  }

  lemma {:induction false} NothingMoves(cs: seq<C.Event>)
    requires forall c :: c in cs ==> c.Traffic? ==> c.n == 0
    ensures C.Watch(cs).moved == 0
  {
    if |cs| > 0 {
      assert cs[|cs| - 1] in cs;
      NothingMoves(cs[..|cs| - 1]);
    }
  }

  lemma SideNoTraffic(plan: seq<Event>, d: Direction)
    requires NoTraffic(plan)
    ensures C.NoTraffic(Side(plan, d))
  {
    forall c | c in Side(plan, d) ensures !c.Traffic? {
      var i :| 0 <= i < |plan| && Side(plan, d)[i] == c;
      assert plan[i] in plan;
    }
  }

  /** In every schedule with a return, one byte moved before its first look is counted twice. */
  lemma ReturningOvercounts(plan: seq<Event>, d: Direction, u: string, j: nat, k: nat, m: nat)
    requires NoTraffic(plan) && C.Returns(Side(plan, d), u, j, k, m)
    ensures j < |plan|
    ensures var es := Insert(plan, j, d); Schedule(es) == plan && Moved(es) == 1 && Counted(Samples(es)) >= 2
  {
    hide C.Watch, C.Returns, Side, Schedule, Samples, Counted, Insert, NoTraffic;
    C.ReturnEnds(Side(plan, d), u, j, k, m);
    var es := Insert(plan, j, d);
    SideNoTraffic(plan, d);
    InsertKeepsSchedule(plan, j, d);
    InsertSide(plan, j, d);
    C.ReturningOvercounts(Side(plan, d), u, j, k, m);
    OtherSideStill(plan, j, d);
    LedgersFollow(es);
  }

  lemma OtherSideStill(plan: seq<Event>, j: nat, d: Direction)
    requires NoTraffic(plan) && j <= |plan|
    ensures Ledger(Insert(plan, j, d), Other(d)).moved == 0
  {
    hide Side, Insert, C.Watch;
    InsertSide(plan, j, d);
    SideNoTraffic(plan, Other(d));
    NothingMoves(Side(Insert(plan, j, d), Other(d)));
  }

  /** A schedule of resets, restarts and looks never overcounts, whatever the traffic, exactly when no look reads a
      counter again after a look past it, with the counter never reset in between. */
  lemma NeverOvercountsExactly(plan: seq<Event>)
    requires NoTraffic(plan)
    ensures (forall es :: Schedule(es) == plan ==> Counted(Samples(es)) <= Moved(es)) <==> !ComesBack(plan)
  {
    hide C.Returns, Side, Schedule, Samples, Counted, Moved;
    if ComesBack(plan) {
      var d := if C.ComesBack(Side(plan, Ingress)) then Ingress else Egress;
      var u, j: nat, k: nat, m: nat :| C.Returns(Side(plan, d), u, j, k, m);
      ReturningOvercounts(plan, d, u, j, k, m);
    } else {
      forall es | Schedule(es) == plan ensures Counted(Samples(es)) <= Moved(es) {
        SameReturns(es, Ingress);
        SameReturns(es, Egress);
        CountNeverExceedsTraffic(es);
      }
    }
  }

  /** One unit, never restarted and never reset: a look that finds no data makes the next one count everything again. */
  lemma BlankLookOvercounts(a: string, n: nat)
    requires n > 0
    ensures var es := [Switch(a), Traffic(n, 0), Look(1, false, false), Look(1, true, true), Look(1, false, false)];
      Moved(es) == n && Counted(Samples(es)) == 2 * n
  {
    hide C.Step, Samples, Counted, Ledger;
    var es := [Switch(a), Traffic(n, 0), Look(1, false, false), Look(1, true, true), Look(1, false, false)];
    Unfold(es, Ingress);
    Unfold(es, Egress);
    IngressTwice(a, n);
    EgressNever(a);
    LedgersFollow(es);
  }

  lemma Unfold(es: seq<Event>, d: Direction)
    requires |es| == 5
    ensures var s := C.Step(C.Step(C.Step(C.START, Seen(es[0], d)), Seen(es[1], d)), Seen(es[2], d));
      Ledger(es, d) == C.Step(C.Step(s, Seen(es[3], d)), Seen(es[4], d))
  {
    hide C.Step, Ledger, Seen;
    assert es[..5] == es && es[..5][..4] == es[..4] && es[..4][..3] == es[..3] && es[..3][..2] == es[..2];
    assert es[..2][..1] == es[..1] && es[..1][..0] == es[..0] == [];
    NothingNoted(es[..0]);
    SideStep(es[..1], d);
    SideStep(es[..2], d);
    SideStep(es[..3], d);
    SideStep(es[..4], d);
    SideStep(es, d);
  }

  lemma IngressTwice(a: string, n: nat)
    ensures var s := C.Step(C.Step(C.Step(C.START, C.Switch(a)), C.Traffic(n)), C.Look(false));
      var w := C.Step(C.Step(s, C.Look(true)), C.Look(false));
      w.moved == n && w.counted == 2 * n
  {
  }

  lemma EgressNever(a: string)
    ensures var s := C.Step(C.Step(C.Step(C.START, C.Switch(a)), C.Traffic(0)), C.Look(false));
      var w := C.Step(C.Step(s, C.Look(true)), C.Look(false));
      w.moved == 0 && w.counted == 0
  {
  }

  // ---------------------------------------------------------------- looks with nothing in between

  predicate OnlyTraffic(ts: seq<Event>) { forall e :: e in ts ==> e.Traffic? }

  function Total(ts: seq<Event>): nat
    requires OnlyTraffic(ts)
  {
    if |ts| == 0 then 0 else Total(ts[..|ts| - 1]) + ts[|ts| - 1].ingress + ts[|ts| - 1].egress
  }

  lemma {:induction false} TotalSides(ts: seq<Event>)
    requires OnlyTraffic(ts)
    ensures C.OnlyTraffic(Side(ts, Ingress)) && C.OnlyTraffic(Side(ts, Egress))
    ensures Total(ts) == C.Total(Side(ts, Ingress)) + C.Total(Side(ts, Egress))
  {
    forall d, c | c in Side(ts, d) ensures c.Traffic? {
      var i :| 0 <= i < |ts| && Side(ts, d)[i] == c;
      assert ts[i] in ts;
    }
    if |ts| > 0 {
      var n := |ts| - 1;
      TotalSides(ts[..n]);
      assert Side(ts, Ingress)[..n] == Side(ts[..n], Ingress) && Side(ts, Egress)[..n] == Side(ts[..n], Egress);
    }
  }

  /** A look, nothing but traffic, and a look, in one direction. */
  lemma SideAround(es: seq<Event>, before: Event, ts: seq<Event>, after: Event, d: Direction)
    ensures var v := C.Step(Ledger(es, d), Seen(before, d));
      && Ledger(es + [before], d) == v
      && Ledger(es + [before] + ts + [after], d) == C.Step(C.WatchFrom(v, Side(ts, d)), Seen(after, d))
  {
    hide C.Step, C.WatchFrom, Seen;
    var one, two, all := es + [before], es + [before] + ts, es + [before] + ts + [after];
    assert one[..|one| - 1] == es && all[..|all| - 1] == two;
    SideStep(one, d);
    SideStep(all, d);
    assert Side(two, d) == Side(one, d) + Side(ts, d);
    C.WatchConcat(C.START, Side(one, d), Side(ts, d));
  }

  /** Between two looks with nothing but traffic, whatever came before, account counts exactly that traffic. */
  lemma UnbrokenLookIsExact(es: seq<Event>, before: int, ts: seq<Event>, month: int)
    requires OnlyTraffic(ts)
    ensures var one := es + [Look(before, false, false)];
      Counted(Samples(one + ts + [Look(month, false, false)])) == Counted(Samples(one)) + Total(ts)
  {
    hide C.Step, C.WatchFrom, Samples, Counted, Ledger, Side;
    var first, last := Look(before, false, false), Look(month, false, false);
    TotalSides(ts);
    SideAround(es, first, ts, last, Ingress);
    SideAround(es, first, ts, last, Egress);
    C.UnbrokenLookIsExact(Ledger(es, Ingress), Side(ts, Ingress));
    C.UnbrokenLookIsExact(Ledger(es, Egress), Side(ts, Egress));
    LedgersFollow(es + [first]);
    LedgersFollow(es + [first] + ts + [last]);
  }
}
