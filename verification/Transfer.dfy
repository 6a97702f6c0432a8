/** The monthly transfer quota: counting bytes across counter resets, invocations and months. */
module Transfer {
  import opened Text

  /** One reading of the unit's IP counters. */
  datatype Snapshot = Snapshot(invocation: string, ingress: nat, egress: nat)

  /** The saved record. Months are numbered in order. */
  datatype Usage = Usage(month: int, used: nat, invocation: string, ingress: nat, egress: nat)

  // ---------------------------------------------------------------- account

  /** Bytes counted for one direction: a counter below its old value has been reset. */
  function Delta(old': nat, value: nat): nat { if value >= old' then value - old' else value }

  function OldCounters(previous: Option<Usage>, current: Snapshot): (nat, nat)
  {
    if previous.Some? && previous.value.invocation == current.invocation
    then (previous.value.ingress, previous.value.egress) else (0, 0)
  }

  function Increment(previous: Option<Usage>, current: Snapshot): nat
  {
    var old' := OldCounters(previous, current);
    Delta(old'.0, current.ingress) + Delta(old'.1, current.egress)
  }

  function Carried(previous: Option<Usage>, month: int): nat
  {
    if previous.Some? && previous.value.month == month then previous.value.used else 0
  }

  function Accounted(previous: Option<Usage>, current: Snapshot, month: int): Usage
  {
    Usage(month, Carried(previous, month) + Increment(previous, current), current.invocation, current.ingress,
      current.egress)
  }

  /** account: one pass over the two directions. */
  method Account(previous: Option<Usage>, current: Snapshot, month: int) returns (r: Usage)
    ensures r == Accounted(previous, current, month)
  {
    var used := 0;
    if previous.Some? && previous.value.month == month {
      used := previous.value.used;
    }
    var same := previous.Some? && previous.value.invocation == current.invocation;
    var directions := [true, false];
    for k := 0 to 2
      invariant used == Carried(previous, month) +
        (if k == 0 then 0 else Delta(OldCounters(previous, current).0, current.ingress)) +
        (if k < 2 then 0 else Delta(OldCounters(previous, current).1, current.egress))
    {
      var value := if directions[k] then current.ingress else current.egress;
      var old' := 0;
      if same {
        old' := if directions[k] then previous.value.ingress else previous.value.egress;
      }
      if value >= old' {
        used := used + (value - old');
      } else {
        used := used + value;
      }
    }
    r := Usage(month, used, current.invocation, current.ingress, current.egress);
  }

  // ---------------------------------------------------------------- month segments

  datatype Sample = Sample(snapshot: Snapshot, month: int)

  /** Usage after a list of samples. */
  function After(xs: seq<Sample>): Option<Usage>
  {
    if |xs| == 0 then None
    else
      var x := xs[|xs| - 1];
      Some(Accounted(After(xs[..|xs| - 1]), x.snapshot, x.month))
  }

  /** Sum of the final used_bytes of the month segments that have ended. */
  function Closed(xs: seq<Sample>): nat
  {
    if |xs| == 0 then 0
    else
      var before := After(xs[..|xs| - 1]);
      Closed(xs[..|xs| - 1]) + if before.Some? && before.value.month != xs[|xs| - 1].month then before.value.used else 0
  }

  function Counted(xs: seq<Sample>): nat
  {
    if |xs| == 0 then 0 else Counted(xs[..|xs| - 1]) + Increment(After(xs[..|xs| - 1]), xs[|xs| - 1].snapshot)
  }

  /** Every counted byte is in exactly one month segment's final figure. */
  lemma {:induction false} SegmentsConserveBytes(xs: seq<Sample>)
    ensures Counted(xs) == Closed(xs) + if |xs| == 0 then 0 else After(xs).value.used
  {
    if |xs| > 0 {
      SegmentsConserveBytes(xs[..|xs| - 1]);
    }
  }
}
