/** One counter of every invocation, against what its observer counts from it: resets, restarts, returning invocations
    and looks that find no data. */
module CounterLedger {
  import opened Text
  import opened Transfer

  // ---------------------------------------------------------------- the counter and its observer

  /** A blank look finds no figure, and takes it for zero while the counter keeps its value. */
  datatype Event = Traffic(n: nat) | Reset | Pause | Switch(invocation: string) | Look(blank: bool)

  /** A counter, and how much of its present figure a look has already read. */
  datatype Meter = Meter(value: nat, seen: nat)

  const ZERO: Meter := Meter(0, 0)

  /** What the last look noted. */
  datatype Note = Note(invocation: string, figure: nat)

  /** The counters of every invocation, kept while another one runs. moved is the true total; hidden what resets
      took away before it was counted; recounted what looks counted although an earlier look had read it. */
  datatype World = World(
    invocation: string, meters: map<string, Meter>, last: Option<Note>,
    moved: nat, counted: nat, hidden: nat, recounted: nat)

  const START: World := World("", map[], None, 0, 0, 0, 0)

  function Of(meters: map<string, Meter>, u: string): Meter { if u in meters then meters[u] else ZERO }

  function Here(w: World): Meter { Of(w.meters, w.invocation) }

  function Unread(m: Meter): nat { if m.value >= m.seen then m.value - m.seen else 0 }

  /** The figure that account subtracts. */
  function OldFigure(w: World): nat
  {
    if w.last.Some? && w.last.value.invocation == w.invocation then w.last.value.figure else 0
  }

  function Figure(w: World, blank: bool): nat { if blank then 0 else Here(w).value }

  /** What a look falls short by: after a reset it still subtracts the old figure, if the new one has grown past it. */
  function Short(old': nat, m: Meter): nat { if m.value >= old' > m.seen then old' - m.seen else 0 }

  /** What a look counts again: what was read before and is not subtracted. */
  function Twice(old': nat, m: Meter): nat { if m.value >= old' && m.seen > old' then m.seen - old' else 0 }

  function Step(w: World, e: Event): World
  {
    var m := Here(w);
    match e
    case Traffic(n) => w.(meters := w.meters[w.invocation := m.(value := m.value + n)], moved := w.moved + n)
    case Reset => w.(meters := w.meters[w.invocation := ZERO], hidden := w.hidden + Unread(m))
    case Pause => w
    case Switch(i) => w.(invocation := i)
    case Look(blank) =>
      var old', figure := OldFigure(w), Figure(w, blank);
      var noted := w.(last := Some(Note(w.invocation, figure)), counted := w.counted + Delta(old', figure));
      if blank then noted
      else
        noted.(meters := w.meters[w.invocation := Meter(m.value, m.value)],
               hidden := w.hidden + Short(old', m), recounted := w.recounted + Twice(old', m))
  }

  function WatchFrom(w: World, es: seq<Event>): World
  {
    if |es| == 0 then w else Step(WatchFrom(w, es[..|es| - 1]), es[|es| - 1])
  }

  function Watch(es: seq<Event>): World { WatchFrom(START, es) }

  // ---------------------------------------------------------------- what waits in the counters

  /** Bytes that stand in some counter and that no look has read there yet. */
  ghost function Waiting(meters: map<string, Meter>): nat
  {
    if meters == map[] then 0
    else
      var u :| u in meters;
      Unread(meters[u]) + Waiting(meters - {u})
  }

  lemma {:induction false} WaitingSplit(meters: map<string, Meter>, u: string)
    requires u in meters
    ensures Waiting(meters) == Unread(meters[u]) + Waiting(meters - {u})
    decreases meters
  {
    hide Unread;
    var v :| v in meters && Waiting(meters) == Unread(meters[v]) + Waiting(meters - {v});
    if v != u {
      WaitingSplit(meters - {v}, u);
      WaitingSplit(meters - {u}, v);
      assert meters - {u} - {v} == meters - {v} - {u};
    }
  }

  /** Changing one invocation's counter changes the sum by just that. */
  lemma WaitingUpdate(meters: map<string, Meter>, u: string, m: Meter)
    ensures Waiting(meters[u := m]) + Unread(Of(meters, u)) == Waiting(meters) + Unread(m)
  {
    WaitingSplit(meters[u := m], u);
    assert meters[u := m] - {u} == meters - {u};
    if u in meters {
      WaitingSplit(meters, u);
    } else {
      assert meters - {u} == meters;
    }
  }

  // ---------------------------------------------------------------- the balance

  /** The counter of the last look's invocation is as that look read it, or was reset since, or the look was blank. */
  ghost predicate NoteOk(m: Meter, note: Note) { m.seen == note.figure || m.seen == 0 || note.figure == 0 }

  ghost predicate Sane(w: World)
  {
    && (forall u :: u in w.meters ==> w.meters[u].seen <= w.meters[u].value)
    && (w.last.Some? ==> NoteOk(Of(w.meters, w.last.value.invocation), w.last.value))
  }

  ghost predicate Balanced(w: World) { w.moved + w.recounted == w.counted + w.hidden + Waiting(w.meters) }

  lemma StepSane(w: World, e: Event)
    requires Sane(w)
    ensures Sane(Step(w, e))
  {
  }

  lemma StepBalances(w: World, e: Event)
    requires Sane(w) && Balanced(w)
    ensures Balanced(Step(w, e))
  {
    hide Waiting;
    var m := Here(w);
    match e {
      case Traffic(n) => WaitingUpdate(w.meters, w.invocation, m.(value := m.value + n));
      case Reset => WaitingUpdate(w.meters, w.invocation, ZERO);
      case Pause =>
      case Switch(_) =>
      case Look(_) => WaitingUpdate(w.meters, w.invocation, Meter(m.value, m.value));
    }
  }

  /** Conservation, for every sequence of traffic, resets, restarts, returns and looks: what was moved and what was
      counted twice make up what was counted, what resets took away and what still waits in a counter. */
  lemma {:induction false} Balance(es: seq<Event>)
    ensures var w := Watch(es); Sane(w) && Balanced(w)
  {
    hide Step, Sane, Balanced;
    if |es| == 0 {
      StartOk();
    } else {
      var w, e := Watch(es[..|es| - 1]), es[|es| - 1];
      Balance(es[..|es| - 1]);
      StepSane(w, e);
      StepBalances(w, e);
    }
  }

  lemma StartOk()
    ensures Sane(START) && Balanced(START)
  {
  }

  // ---------------------------------------------------------------- which schedules recount

  /** The invocation running after some events. */
  function Current(es: seq<Event>): string
  {
    if |es| == 0 then START.invocation
    else if es[|es| - 1].Switch? then es[|es| - 1].invocation
    else Current(es[..|es| - 1])
  }

  /** Look k reads u's counter. */
  predicate LooksAt(es: seq<Event>, k: nat, u: string)
  {
    k < |es| && es[k].Look? && !es[k].blank && Current(es[..k]) == u
  }

  /** Look k notes nothing of u's counter: it is at another invocation, or blank. */
  predicate LooksPast(es: seq<Event>, k: nat, u: string)
  {
    k < |es| && es[k].Look? && (es[k].blank || Current(es[..k]) != u)
  }

  predicate ResetsAt(es: seq<Event>, k: nat, u: string) { k < |es| && es[k].Reset? && Current(es[..k]) == u }

  /** Look j read u's counter and nothing has reset it since. */
  ghost predicate SeenSince(es: seq<Event>, u: string, j: nat)
  {
    LooksAt(es, j, u) && forall r: nat :: j < r < |es| ==> !ResetsAt(es, r, u)
  }

  /** Look j reads u, look k looks past it, and look m reads u again, with u's counter never reset between. */
  ghost predicate Returns(es: seq<Event>, u: string, j: nat, k: nat, m: nat)
  {
    && j < k < m < |es| && SeenSince(es[..m], u, j) && LooksPast(es, k, u) && LooksAt(es, m, u)
  }

  ghost predicate ComesBack(es: seq<Event>) { exists u, j, k, m :: Returns(es, u, j, k, m) }

  /** The same, followed event by event: the invocations whose counter a look has read since its last reset, the one
      that the last look read, if any, and whether some counter was read again after a look past it. */
  datatype Track = Track(seen: set<string>, last: Option<string>, again: bool)

  function Follow(es: seq<Event>): Track
  {
    if |es| == 0 then Track({}, None, false)
    else
      var t, u := Follow(es[..|es| - 1]), Current(es[..|es| - 1]);
      match es[|es| - 1]
      case Look(blank) =>
        if blank then t.(last := None) else Track(t.seen + {u}, Some(u), t.again || (u in t.seen && t.last != Some(u)))
      case Reset => t.(seen := t.seen - {u})
      case _ => t
  }

  // ---------------------------------------------------------------- no return, no recount

  /** Counters that no look has read since their reset show nothing as read. */
  ghost predicate Follows(w: World, t: Track, current: string)
  {
    && w.invocation == current
    && (t.last.Some? ==> w.last.Some? && t.last == Some(w.last.value.invocation))
    && (t.last.Some? && t.last.value in t.seen ==> Of(w.meters, t.last.value).seen == w.last.value.figure)
    && (forall u :: u !in t.seen ==> Of(w.meters, u).seen == 0)
    && (!t.again ==> w.recounted == 0)
  }

  lemma {:induction false} WatchFollows(es: seq<Event>)
    ensures Follows(Watch(es), Follow(es), Current(es))
  {
    if |es| > 0 {
      WatchFollows(es[..|es| - 1]);
    }
  }

  /** An event list's schedule: everything but the traffic. */
  function Schedule(es: seq<Event>): seq<Event>
  {
    if |es| == 0 then []
    else Schedule(es[..|es| - 1]) + if es[|es| - 1].Traffic? then [] else [es[|es| - 1]]
  }

  lemma {:induction false} ScheduleFollows(es: seq<Event>)
    ensures Follow(Schedule(es)) == Follow(es) && Current(Schedule(es)) == Current(es)
  {
    if |es| > 0 {
      var front, e := es[..|es| - 1], es[|es| - 1];
      ScheduleFollows(front);
      if e.Traffic? {
        assert Schedule(es) == Schedule(front);
      } else {
        assert Schedule(es)[..|Schedule(es)| - 1] == Schedule(front);
      }
    }
  }

  // ---------------------------------------------------------------- the two readings agree

  lemma {:induction false} SeenExactly(es: seq<Event>, u: string)
    ensures u in Follow(es).seen <==> exists j: nat :: SeenSince(es, u, j)
  {
    hide Current;
    if |es| > 0 {
      var n := |es| - 1;
      var front := es[..n];
      SeenExactly(front, u);
      assert forall k: nat :: k < n ==> front[..k] == es[..k] && front[k] == es[k];
      if u in Follow(front).seen {
        var j: nat :| SeenSince(front, u, j);
        assert LooksAt(es, j, u);
        forall r: nat | j < r < n ensures !ResetsAt(es, r, u) {
          assert !ResetsAt(front, r, u);
        }
        assert !ResetsAt(es, n, u) ==> SeenSince(es, u, j);
      }
      if LooksAt(es, n, u) {
        assert SeenSince(es, u, n);
      }
      forall j: nat | SeenSince(es, u, j) && j < n ensures SeenSince(front, u, j) {
        assert !ResetsAt(es, n, u);
        assert forall r: nat :: ResetsAt(front, r, u) ==> ResetsAt(es, r, u);
      }
    }
  }

  ghost predicate LastLook(es: seq<Event>, k: nat)
  {
    k < |es| && es[k].Look? && forall r: nat :: k < r < |es| ==> !es[r].Look?
  }

  /** The last look, and what it read. */
  lemma {:induction false} LastExactly(es: seq<Event>, u: string)
    ensures Follow(es).last == Some(u) ==> exists k: nat :: LastLook(es, k) && LooksAt(es, k, u)
    ensures Follow(es).last != Some(u) ==> forall k: nat :: LastLook(es, k) ==> LooksPast(es, k, u)
  {
    if |es| > 0 {
      var n := |es| - 1;
      var front := es[..n];
      LastExactly(front, u);
      assert forall k: nat :: k < n ==> front[..k] == es[..k] && front[k] == es[k];
      if es[n].Look? {
        assert LastLook(es, n);
        assert forall k: nat :: LastLook(es, k) ==> k == n;
      } else {
        assert forall k: nat :: LastLook(es, k) ==> LastLook(front, k);
        if Follow(es).last == Some(u) {
          var k: nat :| LastLook(front, k) && LooksAt(front, k, u);
          assert LastLook(es, k) && LooksAt(es, k, u);
        }
      }
    }
  }

  lemma {:induction false} SomeLastLook(es: seq<Event>, j: nat) returns (k: nat)
    requires j < |es| && es[j].Look?
    ensures LastLook(es, k) && j <= k
    decreases |es| - j
  {
    if r: nat :| j < r < |es| && es[r].Look? {
      k := SomeLastLook(es, r);
    } else {
      k := j;
    }
  }

  lemma PrefixReturns(es: seq<Event>, n: nat, u: string, j: nat, k: nat, m: nat)
    requires n <= |es|
    ensures Returns(es[..n], u, j, k, m) <==> Returns(es, u, j, k, m) && m < n
  {
    hide SeenSince;
    var front := es[..n];
    if j < k < m < n {
      assert front[..m] == es[..m] && front[..k] == es[..k] && front[k] == es[k] && front[m] == es[m];
    }
  }

  /** What the last look adds: a return that ends with it. */
  lemma LookReturns(es: seq<Event>, u: string)
    requires |es| > 0 && LooksAt(es, |es| - 1, u)
    ensures var t := Follow(es[..|es| - 1]);
      u in t.seen && t.last != Some(u) ==> ComesBack(es)
  {
    hide Current;
    var n := |es| - 1;
    var front := es[..n];
    var t := Follow(front);
    if u in t.seen && t.last != Some(u) {
      SeenExactly(front, u);
      var j: nat :| SeenSince(front, u, j);
      var k := SomeLastLook(front, j);
      LastExactly(front, u);
      assert LooksPast(front, k, u);
      assert front[..k] == es[..k];
      assert Returns(es, u, j, k, n);
    }
  }

  /** A return that ends with the last look, where the look before it read the same counter, ended before. */
  lemma EarlierReturn(es: seq<Event>, u: string, j: nat, k: nat, l: nat)
    requires |es| > 0 && Returns(es, u, j, k, |es| - 1) && LooksAt(es, l, u) && LastLook(es[..|es| - 1], l)
    ensures Returns(es, u, j, k, l)
  {
    hide Current;
    var front := es[..|es| - 1];
    assert front[k].Look?;
    assert k < l;
    forall r: nat | j < r < l ensures !ResetsAt(es[..l], r, u) {
      assert !ResetsAt(front, r, u);
      assert front[..r] == es[..r] == es[..l][..r];
    }
    assert front[..j] == es[..j] == es[..l][..j];
  }

  /** What one more event does to the answer. */
  lemma FollowOne(es: seq<Event>)
    requires |es| > 0
    ensures var n := |es| - 1;
      var t, u := Follow(es[..n]), Current(es[..n]);
      Follow(es).again <==> t.again || (LooksAt(es, n, u) && u in t.seen && t.last != Some(u))
  {
  }

  lemma {:induction false} AgainExactly(es: seq<Event>)
    ensures Follow(es).again <==> ComesBack(es)
  {
    hide Follow, Returns;
    if |es| == 0 {
      NothingFollowed();
    } else {
      var n := |es| - 1;
      var front := es[..n];
      AgainExactly(front);
      FollowOne(es);
      if ComesBack(front) {
        var u, j: nat, k: nat, m: nat :| Returns(front, u, j, k, m);
        PrefixReturns(es, n, u, j, k, m);
      } else if Follow(es).again {
        LookReturns(es, Current(front));
      }
      if ComesBack(es) && !ComesBack(front) {
        var u, j: nat, k: nat, m: nat :| Returns(es, u, j, k, m);
        PrefixReturns(es, n, u, j, k, m);
        ReturnEnds(es, u, j, k, m);
        LastReturn(es, u, j, k);
      }
    }
  }

  lemma NothingFollowed()
    ensures !Follow([]).again && !ComesBack([])
  {
  }

  lemma ReturnEnds(es: seq<Event>, u: string, j: nat, k: nat, m: nat)
    requires Returns(es, u, j, k, m)
    ensures j < k < m < |es|
  {
  }

  /** A first return is the one the last look completes. */
  lemma LastReturn(es: seq<Event>, u: string, j: nat, k: nat)
    requires |es| > 0 && Returns(es, u, j, k, |es| - 1) && !ComesBack(es[..|es| - 1])
    ensures Follow(es).again
  {
    hide Follow, SeenSince, Current;
    var n := |es| - 1;
    var front := es[..n];
    SeenExactly(front, u);
    LastExactly(front, u);
    FollowOne(es);
    if Follow(front).last == Some(u) {
      var l: nat :| LastLook(front, l) && LooksAt(front, l, u);
      assert front[..l] == es[..l];
      EarlierReturn(es, u, j, k, l);
      PrefixReturns(es, n, u, j, k, l);
    }
  }

  /** Without a return nothing is counted twice, so the count never exceeds the traffic, and what it misses was taken
      by a reset or still stands in a counter. */
  lemma CountNeverExceedsTraffic(es: seq<Event>)
    requires !ComesBack(es)
    ensures var w := Watch(es);
      w.recounted == 0 && w.counted <= w.moved && w.moved == w.counted + w.hidden + Waiting(w.meters)
  {
    hide Watch, Waiting, ComesBack;
    Balance(es);
    WatchFollows(es);
    AgainExactly(es);
  }

  // ---------------------------------------------------------------- a return can recount

  lemma {:induction false} WatchConcat(w: World, a: seq<Event>, b: seq<Event>)
    ensures WatchFrom(w, a + b) == WatchFrom(WatchFrom(w, a), b)
    decreases b
  {
    if |b| == 0 {
      assert a + b == a;
    } else {
      assert (a + b)[..|a + b| - 1] == a + b[..|b| - 1];
      WatchConcat(w, a, b[..|b| - 1]);
    }
  }

  /** Without traffic every figure stays zero. */
  ghost predicate Silent(w: World)
  {
    && w.moved == w.counted == 0 && (forall u :: u in w.meters ==> w.meters[u] == ZERO)
    && (w.last.Some? ==> w.last.value.figure == 0)
  }

  predicate NoTraffic(es: seq<Event>) { forall e :: e in es ==> !e.Traffic? }

  lemma {:induction false} StaysSilent(es: seq<Event>)
    requires NoTraffic(es)
    ensures Silent(Watch(es))
  {
    if |es| > 0 {
      assert es[|es| - 1] in es;
      StaysSilent(es[..|es| - 1]);
    }
  }

  /** One byte has been moved and counted, and still stands in u's counter. */
  ghost predicate Hot(w: World, u: string) { w.moved == 1 && w.counted >= 1 && Of(w.meters, u).value >= 1 }

  /** The last look noted nothing of u. */
  predicate SeenPast(w: World, u: string)
  {
    w.last.Some? && (w.last.value.invocation != u || w.last.value.figure == 0)
  }

  lemma OneByte(w: World)
    requires Silent(w)
    ensures Hot(Step(Step(w, Traffic(1)), Look(false)), w.invocation)
  {
  }

  lemma StaysHot(w: World, e: Event, u: string)
    requires Hot(w, u) && !e.Traffic? && !(e.Reset? && w.invocation == u)
    ensures Hot(Step(w, e), u) && Step(w, e).counted >= w.counted
    ensures e.Look? && (w.invocation != u || e.blank) ==> SeenPast(Step(w, e), u)
    ensures SeenPast(w, u) && e.Look? && !e.blank && w.invocation == u ==> Step(w, e).counted >= 2
    ensures SeenPast(w, u) && !(e.Look? && !e.blank && w.invocation == u) ==> SeenPast(Step(w, e), u)
  {
  }

  lemma {:induction false} CountOnlyGrows(w: World, es: seq<Event>)
    requires NoTraffic(es)
    ensures WatchFrom(w, es).counted >= w.counted && WatchFrom(w, es).moved == w.moved
  {
    if |es| > 0 {
      assert es[|es| - 1] in es;
      CountOnlyGrows(w, es[..|es| - 1]);
    }
  }

  /** The schedule up to event r, with one byte moved just before event j. */
  function WithByte(es: seq<Event>, j: nat, r: nat): World
    requires j <= r <= |es|
  {
    WatchFrom(Step(Watch(es[..j]), Traffic(1)), es[j..r])
  }

  lemma WithByteStep(es: seq<Event>, j: nat, r: nat)
    requires j <= r < |es|
    ensures WithByte(es, j, r + 1) == Step(WithByte(es, j, r), es[r])
  {
    assert es[j..r + 1][..r - j] == es[j..r];
  }

  lemma {:induction false} WithByteCurrent(es: seq<Event>, j: nat, r: nat)
    requires j <= r <= |es|
    ensures WithByte(es, j, r).invocation == Current(es[..r])
    decreases r
  {
    if r == j {
      WatchFollows(es[..j]);
    } else {
      WithByteCurrent(es, j, r - 1);
      WithByteStep(es, j, r - 1);
      assert es[..r][..r - 1] == es[..r - 1];
    }
  }

  lemma {:induction false} HotUntil(es: seq<Event>, u: string, j: nat, k: nat, m: nat, r: nat)
    requires NoTraffic(es) && Returns(es, u, j, k, m) && j < r <= m
    ensures Hot(WithByte(es, j, r), u)
    ensures r > k ==> SeenPast(WithByte(es, j, r), u) || WithByte(es, j, r).counted >= 2
    decreases r
  {
    hide Step, Hot, SeenPast, Silent, Current;
    assert es[r - 1] in es;
    WithByteStep(es, j, r - 1);
    WithByteCurrent(es, j, r - 1);
    assert es[..m][..r - 1] == es[..r - 1];
    if r == j + 1 {
      StaysSilent(es[..j]);
      WatchFollows(es[..j]);
      assert es[j..j] == [] && es[..m][..j] == es[..j];
      ByteMoves(Watch(es[..j]), es[j]);
    } else {
      HotUntil(es, u, j, k, m, r - 1);
      assert !ResetsAt(es[..m], r - 1, u);
      StaysHot(WithByte(es, j, r - 1), es[r - 1], u);
    }
  }

  lemma ByteMoves(w: World, look: Event)
    requires Silent(w) && look == Look(false)
    ensures Hot(Step(Step(w, Traffic(1)), look), w.invocation)
  {
    OneByte(w);
  }

  lemma {:induction false} ScheduleOfSchedule(es: seq<Event>)
    requires NoTraffic(es)
    ensures Schedule(es) == es
  {
    if |es| > 0 {
      assert es[|es| - 1] in es;
      ScheduleOfSchedule(es[..|es| - 1]);
    }
  }

  lemma {:induction false} ScheduleConcat(a: seq<Event>, b: seq<Event>)
    ensures Schedule(a + b) == Schedule(a) + Schedule(b)
    decreases b
  {
    if |b| == 0 {
      assert a + b == a;
    } else {
      assert (a + b)[..|a + b| - 1] == a + b[..|b| - 1];
      ScheduleConcat(a, b[..|b| - 1]);
    }
  }

  /** The schedule with one byte put in before event j. */
  function Insert(plan: seq<Event>, j: nat): seq<Event>
    requires j <= |plan|
  {
    plan[..j] + [Traffic(1)] + plan[j..]
  }

  lemma InsertKeepsSchedule(plan: seq<Event>, j: nat)
    requires NoTraffic(plan) && j <= |plan|
    ensures Schedule(Insert(plan, j)) == plan
  {
    hide Schedule;
    var byte := [Traffic(1)];
    ScheduleConcat(plan[..j] + byte, plan[j..]);
    ScheduleConcat(plan[..j], byte);
    ScheduleOfSchedule(plan[..j]);
    ScheduleOfSchedule(plan[j..]);
    ByteUnscheduled();
    assert plan[..j] + [] + plan[j..] == plan;
  }

  lemma ByteUnscheduled()
    ensures Schedule([Traffic(1)]) == []
  {
    assert [Traffic(1)][..0] == [];
  }

  lemma InsertWatches(plan: seq<Event>, j: nat)
    requires j <= |plan|
    ensures Watch(Insert(plan, j)) == WithByte(plan, j, |plan|)
  {
    hide Step, WatchFrom;
    ByteOnly(Watch(plan[..j]));
    WatchConcat(START, plan[..j] + [Traffic(1)], plan[j..]);
    WatchConcat(START, plan[..j], [Traffic(1)]);
    assert plan[j..|plan|] == plan[j..];
  }

  lemma ByteStays(plan: seq<Event>, j: nat, r: nat)
    requires NoTraffic(plan) && j <= r <= |plan|
    ensures WithByte(plan, j, |plan|).counted >= WithByte(plan, j, r).counted
      && WithByte(plan, j, |plan|).moved == WithByte(plan, j, r).moved
  {
    hide Step, WatchFrom;
    assert plan[j..|plan|] == plan[j..r] + plan[r..];
    WatchConcat(Step(Watch(plan[..j]), Traffic(1)), plan[j..r], plan[r..]);
    CountOnlyGrows(WithByte(plan, j, r), plan[r..]);
  }

  /** One byte moved just before the first look of a return is counted twice. */
  lemma ReturningOvercounts(plan: seq<Event>, u: string, j: nat, k: nat, m: nat)
    requires NoTraffic(plan) && Returns(plan, u, j, k, m)
    ensures Schedule(Insert(plan, j)) == plan
    ensures Watch(Insert(plan, j)).moved == 1 && Watch(Insert(plan, j)).counted >= 2
  {
    hide SeenSince, Current, Watch, WithByte, Insert, Schedule, NoTraffic;
    InsertKeepsSchedule(plan, j);
    InsertWatches(plan, j);
    CountsAgain(plan, u, j, k, m);
    ByteStays(plan, j, m + 1);
  }

  lemma ByteOnly(w: World)
    ensures WatchFrom(w, [Traffic(1)]) == Step(w, Traffic(1))
  {
    assert [Traffic(1)][..0] == [];
  }

  lemma CountsAgain(plan: seq<Event>, u: string, j: nat, k: nat, m: nat)
    requires NoTraffic(plan) && Returns(plan, u, j, k, m)
    ensures WithByte(plan, j, m + 1).counted >= 2 && WithByte(plan, j, m + 1).moved == 1
  {
    hide Step, SeenPast, Current, SeenSince, Watch;
    HotUntil(plan, u, j, k, m, m);
    WithByteStep(plan, j, m);
    WithByteCurrent(plan, j, m);
    StaysHot(WithByte(plan, j, m), plan[m], u);
  }

  // ---------------------------------------------------------------- looks with nothing in between

  predicate OnlyTraffic(ts: seq<Event>) { forall e :: e in ts ==> e.Traffic? }

  function Total(ts: seq<Event>): nat
    requires OnlyTraffic(ts)
  {
    if |ts| == 0 then 0 else Total(ts[..|ts| - 1]) + ts[|ts| - 1].n
  }

  /** The counter has grown from the figure that look v noted by a known amount. */
  ghost predicate GrownBy(w: World, v: World, n: nat)
  {
    && w.counted == v.counted && w.hidden == v.hidden && w.recounted == v.recounted
    && w.last.Some? && w.last.value == Note(w.invocation, Here(w).seen) && Here(w).value == Here(w).seen + n
  }

  lemma {:induction false} TrafficAdds(v: World, ts: seq<Event>)
    requires OnlyTraffic(ts) && GrownBy(v, v, 0)
    ensures GrownBy(WatchFrom(v, ts), v, Total(ts))
  {
    if |ts| > 0 {
      assert ts[|ts| - 1] in ts;
      TrafficAdds(v, ts[..|ts| - 1]);
    }
  }

  lemma LookCounts(w: World, v: World, n: nat)
    requires GrownBy(w, v, n)
    ensures var t := Step(w, Look(false));
      t.counted == v.counted + n && t.hidden == v.hidden && t.recounted == v.recounted
  {
  }

  /** Between two looks with nothing but traffic, whatever came before, exactly that traffic is counted, nothing is
      missed and nothing is counted again. */
  lemma UnbrokenLookIsExact(w: World, ts: seq<Event>)
    requires OnlyTraffic(ts)
    ensures var v := Step(w, Look(false));
      var t := Step(WatchFrom(v, ts), Look(false));
      t.counted == v.counted + Total(ts) && t.hidden == v.hidden && t.recounted == v.recounted
  {
    var v := Step(w, Look(false));
    TrafficAdds(v, ts);
    LookCounts(WatchFrom(v, ts), v, Total(ts));
  }
}
