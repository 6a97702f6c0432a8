/** The per-node limit of six approvals per minute, kept in a slice that is filtered in place. */
module SuccessQuota {
  import opened Clock
  import opened Counting

  const QUOTA: nat := 6

  // ---------------------------------------------------------------- specification

  /** The entries younger than one minute, in order. */
  function Live(times: seq<int>, now: int): (live: seq<int>)
    ensures |live| <= |times|
  {
    if |times| == 0 then []
    else
      var earlier := Live(times[..|times| - 1], now);
      if times[|times| - 1] > now - MINUTE then earlier + [times[|times| - 1]] else earlier
  }

  predicate Admits(times: seq<int>, now: int) { |Live(times, now)| < QUOTA }

  /** The list after chargeSuccess, whether it admits or refuses. */
  function Charged(times: seq<int>, now: int): seq<int>
  {
    if Admits(times, now) then Live(times, now) + [now] else Live(times, now)
  }

  // ---------------------------------------------------------------- history

  ghost predicate Ascending(h: seq<int>) { forall i, j :: 0 <= i <= j < |h| ==> h[i] <= h[j] }

  ghost predicate MinuteApart(h: seq<int>, i: nat)
    requires i + QUOTA < |h|
  {
    h[i + QUOTA] >= h[i] + MINUTE
  }

  /** Seven successes in a row span at least a minute. */
  ghost predicate Spaced(h: seq<int>)
  {
    forall i: nat :: i + QUOTA < |h| ==> MinuteApart(h, i)
  }

  /** recent is the tail of the full success history h, and what it dropped is out of the window. */
  ghost predicate Tracks(recent: seq<int>, h: seq<int>, now: int)
  {
    && Ascending(h) && Spaced(h) && |recent| <= QUOTA && |recent| <= |h|
    && recent == h[|h| - |recent|..]
    && (forall i :: 0 <= i < |h| ==> h[i] <= now)
    && forall i :: 0 <= i < |h| - |recent| ==> h[i] <= now - MINUTE
  }

  /** On an ascending list the filter only drops a prefix. */
  lemma {:induction false} LiveIsSuffix(times: seq<int>, now: int) returns (cut: nat)
    requires Ascending(times)
    ensures cut <= |times| && Live(times, now) == times[cut..]
    ensures forall i :: 0 <= i < cut ==> times[i] <= now - MINUTE
    ensures forall i :: cut <= i < |times| ==> times[i] > now - MINUTE
  {
    if |times| == 0 {
      cut := 0;
    } else {
      var n := |times| - 1;
      cut := LiveIsSuffix(times[..n], now);
      if times[n] > now - MINUTE {
        assert times[..n][cut..] + [times[n]] == times[cut..];
      } else {
        forall i | 0 <= i < n ensures times[i] <= now - MINUTE {
          assert times[i] <= times[n];
        }
        cut := n + 1;
      }
    }
  }

  /** Dropping what has left the window at a later time keeps the slice in step. */
  lemma DropTracks(recent: seq<int>, h: seq<int>, before: int, now: int)
    requires Tracks(recent, h, before) && before <= now
    ensures Tracks(Live(recent, now), h, now)
  {
    var k := |h| - |recent|;
    var cut := LiveIsSuffix(recent, now);
    assert recent[cut..] == h[k + cut..];
    forall i | 0 <= i < k + cut ensures h[i] <= now - MINUTE {
      if i >= k {
        assert h[i] == recent[i - k];
      }
    }
  }

  /** A success recorded while fewer than six remain keeps the history spaced. */
  lemma AddTracks(live: seq<int>, h: seq<int>, now: int)
    requires Tracks(live, h, now) && |live| < QUOTA
    ensures Tracks(live + [now], h + [now], now)
  {
    var h' := h + [now];
    assert live + [now] == h'[|h| - |live|..];
    forall i: nat | i + QUOTA < |h'| ensures MinuteApart(h', i) {
      if i + QUOTA < |h| {
        assert MinuteApart(h, i);
      } else {
        assert i < |h| - |live|;
      }
    }
  }

  /** One charge at a later time keeps the slice in step with the full history. */
  lemma ChargeTracks(recent: seq<int>, h: seq<int>, before: int, now: int)
    requires Tracks(recent, h, before) && before <= now
    ensures Tracks(Charged(recent, now), if Admits(recent, now) then h + [now] else h, now)
  {
    DropTracks(recent, h, before, now);
    if Admits(recent, now) {
      AddTracks(Live(recent, now), h, now);
    }
  }

  /** A charge is refused exactly when six successes of the whole history lie in the last minute. */
  lemma AdmitsExactly(recent: seq<int>, h: seq<int>, before: int, now: int)
    requires Tracks(recent, h, before) && before <= now
    ensures Admits(recent, now) <==> |set i | 0 <= i < |h| && h[i] > now - MINUTE| < QUOTA
  {
    var k := |h| - |recent|;
    var cut := LiveIsSuffix(recent, now);
    var inside := set i | 0 <= i < |h| && h[i] > now - MINUTE;
    forall i | 0 <= i < |h| ensures i in inside <==> k + cut <= i < |h| {
      if i >= k {
        assert h[i] == recent[i - k];
      }
    }
    IntervalSize(inside, k + cut, |h|);
  }

  /** No half-open minute holds more than six successes. */
  lemma WindowHolds(h: seq<int>, start: int)
    requires Ascending(h) && Spaced(h)
    ensures |set i | 0 <= i < |h| && start <= h[i] < start + MINUTE| <= QUOTA
  {
    var inside := set i | 0 <= i < |h| && start <= h[i] < start + MINUTE;
    if inside != {} {
      var low := 0;
      while low < |h| && h[low] < start
        invariant 0 <= low <= |h|
        invariant forall i :: 0 <= i < low ==> h[i] < start
      {
        low := low + 1;
      }
      if low + QUOTA < |h| {
        assert MinuteApart(h, low);
        assert forall i :: low + QUOTA <= i < |h| ==> h[low + QUOTA] <= h[i];
      }
      IntervalSize(inside, low, low + QUOTA);
    }
  }

  /** The bound is tight at both ends: a closed minute can hold seven. */
  lemma ClosedMinuteHoldsSeven()
    ensures var h := [0, 0, 0, 0, 0, 0, MINUTE];
            Ascending(h) && Spaced(h) && |set i | 0 <= i < |h| && 0 <= h[i] <= MINUTE| == 7
  {
    var h := [0, 0, 0, 0, 0, 0, MINUTE];
    IntervalSize(set i | 0 <= i < |h| && 0 <= h[i] <= MINUTE, 0, 7);
  }

  // ---------------------------------------------------------------- implementation

  /** One node's success times. chargeSuccess filters them into the front of their own backing array. */
  class SuccessSlice {
    var data: array<int>
    var count: nat

    ghost predicate Valid()
      reads this
    {
      count <= data.Length
    }

    ghost function Times(): seq<int>
      reads this, data
      requires Valid()
    {
      data[..count]
    }

    constructor ()
      ensures Valid() && Times() == [] && fresh(data)
    {
      data := new int[0];
      count := 0;
    }

    /** chargeSuccess. The write index never passes the read index, so the loop reads no entry
        it has already overwritten. */
    method Charge(now: int) returns (ok: bool)
      requires Valid()
      modifies this, data
      ensures Valid() && (data == old(data) || fresh(data))
      ensures ok == Admits(old(Times()), now)
      ensures Times() == Charged(old(Times()), now)
    {
      ghost var before := Times();
      var kept := 0;
      var read := 0;
      while read < count
        invariant 0 <= kept <= read <= count <= data.Length
        invariant data == old(data) && count == old(count)
        invariant |before| == count && forall i :: read <= i < count ==> data[i] == before[i]
        invariant data[..kept] == Live(before[..read], now)
      {
        assert data[read] == before[read];
        assert before[..read + 1][..read] == before[..read];
        if data[read] > now - MINUTE {
          data[kept] := data[read];
          assert data[..kept + 1] == data[..kept] + [before[read]];
          kept := kept + 1;
        }
        read := read + 1;
      }
      assert before[..read] == before;
      count := kept;
      ok := count < QUOTA;
      if ok {
        Append(now);
      }
    }

    /** append: in place while the backing array has room, else into a larger copy. */
    method Append(t: int)
      requires Valid()
      modifies this, data
      ensures Valid() && (data == old(data) || fresh(data))
      ensures Times() == old(Times()) + [t]
    {
      if count == data.Length {
        var larger := new int[2 * count + 1];
        forall i | 0 <= i < count {
          larger[i] := data[i];
        }
        data := larger;
      }
      data[count] := t;
      count := count + 1;
    }
  }
}
