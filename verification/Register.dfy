/** spire-register: bringing the SPIRE server in line with a manifest, interruptible at any command. */
module Register {

  /** Selectors, parent and identity of one registration entry. */
  datatype Entry = Entry(parentId: string, spiffeId: string, selectors: seq<string>)

  /** One manifest entry under its node and name. */
  datatype Item = Item(node: string, name: string, entry: Entry)

  /** A name-based UUID; the hash is ideal, so the ID stands for the hashed name. */
  datatype Id = Uuid(name: string)

  function HashedName(node: string, name: string): string { "nyaw-realm:" + node + ":" + name }

  function EntryId(node: string, name: string): Id { Uuid(HashedName(node, name)) }

  function IdOf(x: Item): Id { EntryId(x.node, x.name) }

  // ---------------------------------------------------------------- entry IDs

  predicate Starts(s: string, prefix: string) { |prefix| <= |s| && s[..|prefix|] == prefix }

  lemma SameTail(n1: string, m1: string, n2: string, m2: string)
    requires HashedName(n1, m1) == HashedName(n2, m2)
    ensures n1 + ":" + m1 == n2 + ":" + m2
  {
    var head := "nyaw-realm:";
    assert HashedName(n1, m1)[|head|..] == n1 + ":" + m1;
    assert HashedName(n2, m2)[|head|..] == n2 + ":" + m2;
  }

  lemma LongerStarts(n1: string, m1: string, n2: string, m2: string)
    requires n1 + ":" + m1 == n2 + ":" + m2 && |n1| <= |n2|
    ensures (n1 == n2 && m1 == m2) || Starts(n2, n1 + ":")
  {
    var t := n1 + ":" + m1;
    assert t[..|n1|] == n1 && t[..|n2|] == n2;
    if |n1| == |n2| {
      assert t[|n1| + 1..] == m1 && t[|n2| + 1..] == m2;
    } else {
      assert t[..|n1| + 1] == n1 + ":";
      assert n2[..|n1| + 1] == t[..|n2|][..|n1| + 1] == t[..|n1| + 1];
    }
  }

  /** Two nodes can produce the same entry ID exactly when they are equal or one continues the other
      with a colon; so node names without colons never clash. */
  lemma NodesClashExactly(n1: string, n2: string)
    ensures (exists m1, m2 :: EntryId(n1, m1) == EntryId(n2, m2)) <==>
      n1 == n2 || Starts(n2, n1 + ":") || Starts(n1, n2 + ":")
  {
    if m1, m2 :| EntryId(n1, m1) == EntryId(n2, m2) {
      SameTail(n1, m1, n2, m2);
      if |n1| <= |n2| {
        LongerStarts(n1, m1, n2, m2);
      } else {
        LongerStarts(n2, m2, n1, m1);
      }
    }
    if n1 == n2 {
      assert EntryId(n1, "") == EntryId(n2, "");
    } else if Starts(n2, n1 + ":") {
      Witness(n1, n2);
    } else if Starts(n1, n2 + ":") {
      Witness(n2, n1);
    }
  }

  lemma Witness(short: string, long: string)
    requires Starts(long, short + ":")
    ensures EntryId(short, long[|short| + 1..] + ":") == EntryId(long, "")
  {
    var rest := long[|short| + 1..];
    assert long == short + ":" + rest;
    assert HashedName(short, rest + ":") == "nyaw-realm:" + (short + ":" + rest) + ":" + "";
  }

  /** On nodes without colons, equal IDs mean the same node and the same name. */
  lemma IdsAreUnique(n1: string, m1: string, n2: string, m2: string)
    requires ':' !in n1 && ':' !in n2 && EntryId(n1, m1) == EntryId(n2, m2)
    ensures n1 == n2 && m1 == m2
  {
    SameTail(n1, m1, n2, m2);
    ColonlessNeverStarts(n1, n2);
    ColonlessNeverStarts(n2, n1);
    if |n1| <= |n2| {
      LongerStarts(n1, m1, n2, m2);
    } else {
      LongerStarts(n2, m2, n1, m1);
    }
  }

  lemma ColonlessNeverStarts(n: string, p: string)
    requires ':' !in n
    ensures !Starts(n, p + ":")
  {
    assert (p + ":")[|p|] == ':';
    assert forall i :: 0 <= i < |n| ==> n[i] != ':';
  }

  // ---------------------------------------------------------------- specification

  datatype Op = Put(id: Id, entry: Entry) | Remove(id: Id)

  type Server = map<Id, Entry>

  function Perform(s: Server, op: Op): Server
  {
    match op
    case Put(id, entry) => s[id := entry]
    case Remove(id) => s - {id}
  }

  function PerformAll(s: Server, ops: seq<Op>): Server
  {
    if |ops| == 0 then s else Perform(PerformAll(s, ops[..|ops| - 1]), ops[|ops| - 1])
  }

  function Ids(items: seq<Item>): seq<Id>
  {
    if |items| == 0 then [] else Ids(items[..|items| - 1]) + [IdOf(items[|items| - 1])]
  }

  function Puts(items: seq<Item>): (ops: seq<Op>)
    ensures |ops| == |items|
  {
    if |items| == 0 then []
    else
      var x := items[|items| - 1];
      Puts(items[..|items| - 1]) + [Put(IdOf(x), x.entry)]
  }

  function Removes(previous: seq<Id>, keep: seq<Id>): seq<Op>
  {
    if |previous| == 0 then []
    else
      var id := previous[|previous| - 1];
      Removes(previous[..|previous| - 1], keep) + if id in keep then [] else [Remove(id)]
  }

  /** The effects of one uninterrupted run, in order. */
  function Plan(items: seq<Item>, previous: seq<Id>): seq<Op> { Puts(items) + Removes(previous, Ids(items)) }

  /** What the manifest declares; a repeated ID keeps its last entry. */
  function Declared(items: seq<Item>): Server
  {
    if |items| == 0 then map[] else Declared(items[..|items| - 1])[IdOf(items[|items| - 1]) := items[|items| - 1].entry]
  }

  function IdSet(ids: seq<Id>): set<Id> { set id | id in ids }

  /** The server after a run: declared entries in place, own stale entries gone, the rest as before. */
  function Reconciled(s: Server, items: seq<Item>, previous: seq<Id>): Server
  {
    s + Declared(items) - (IdSet(previous) - IdSet(Ids(items)))
  }

  // ---------------------------------------------------------------- effects of a plan

  lemma {:induction false} PutsDeclare(s: Server, items: seq<Item>)
    ensures PerformAll(s, Puts(items)) == s + Declared(items)
  {
    if |items| > 0 {
      var n := |items| - 1;
      PutsDeclare(s, items[..n]);
      assert Puts(items)[..n] == Puts(items[..n]);
    } else {
      assert s + map[] == s;
    }
  }

  lemma {:induction false} PutsPrefix(items: seq<Item>, k: nat)
    requires k <= |items|
    ensures Puts(items)[..k] == Puts(items[..k])
  {
    var n := |items| - 1;
    if k < |items| {
      PutsPrefix(items[..n], k);
      assert items[..n][..k] == items[..k];
      assert Puts(items)[..k] == Puts(items[..n])[..k];
    } else {
      assert items[..k] == items;
    }
  }

  lemma {:induction false} RemovesRemove(s: Server, previous: seq<Id>, keep: seq<Id>, k: nat) returns (gone: set<Id>)
    requires k <= |Removes(previous, keep)|
    ensures PerformAll(s, Removes(previous, keep)[..k]) == s - gone
    ensures gone <= IdSet(previous) - IdSet(keep)
    ensures k == |Removes(previous, keep)| ==> gone == IdSet(previous) - IdSet(keep)
  {
    if |previous| == 0 {
      gone := {};
    } else {
      var n := |previous| - 1;
      var id := previous[n];
      var front := Removes(previous[..n], keep);
      assert IdSet(previous) == IdSet(previous[..n]) + {id};
      if k <= |front| {
        assert Removes(previous, keep)[..k] == front[..k];
        gone := RemovesRemove(s, previous[..n], keep, k);
      } else {
        assert Removes(previous, keep)[..k] == front + [Remove(id)];
        assert front[..|front|] == front && (front + [Remove(id)])[..|front|] == front;
        var before := RemovesRemove(s, previous[..n], keep, |front|);
        gone := before + {id};
        assert s - before - {id} == s - gone;
      }
    }
  }

  lemma {:induction false} PerformConcat(s: Server, a: seq<Op>, b: seq<Op>)
    ensures PerformAll(s, a + b) == PerformAll(PerformAll(s, a), b)
    decreases b
  {
    if |b| == 0 {
      assert a + b == a;
    } else {
      var n := |b| - 1;
      assert (a + b)[..|a + b| - 1] == a + b[..n];
      PerformConcat(s, a, b[..n]);
    }
  }

  /** What an interrupted run has done: some of the declared entries, or all of them and some deletions. */
  lemma PlanPrefix(s: Server, items: seq<Item>, previous: seq<Id>, k: nat) returns (done: nat, gone: set<Id>)
    requires k <= |Plan(items, previous)|
    ensures done <= |items| && gone <= IdSet(previous) - IdSet(Ids(items))
    ensures PerformAll(s, Plan(items, previous)[..k]) == s + Declared(items[..done]) - gone
    ensures k < |items| ==> done == k && gone == {}
    ensures k >= |items| ==> done == |items|
    ensures k == |Plan(items, previous)| ==> gone == IdSet(previous) - IdSet(Ids(items))
  {
    var puts, removes := Puts(items), Removes(previous, Ids(items));
    if k < |items| {
      assert (puts + removes)[..k] == puts[..k];
      PutsPrefix(items, k);
      PutsDeclare(s, items[..k]);
      done, gone := k, {};
    } else {
      assert (puts + removes)[..k] == puts + removes[..k - |items|];
      PerformConcat(s, puts, removes[..k - |items|]);
      PutsDeclare(s, items);
      gone := RemovesRemove(s + Declared(items), previous, Ids(items), k - |items|);
      done := |items|;
      assert items[..done] == items;
    }
  }

  lemma {:induction false} DeclaredKeys(items: seq<Item>)
    ensures Declared(items).Keys == IdSet(Ids(items))
  {
    if |items| > 0 {
      var n := |items| - 1;
      DeclaredKeys(items[..n]);
      assert IdSet(Ids(items)) == IdSet(Ids(items[..n])) + {IdOf(items[n])};
    }
  }

  lemma {:induction false} DeclaredPrefixKeys(items: seq<Item>, k: nat)
    requires k <= |items|
    ensures Declared(items[..k]).Keys <= Declared(items).Keys
  {
    if k < |items| {
      var n := |items| - 1;
      DeclaredPrefixKeys(items[..n], k);
      assert items[..n][..k] == items[..k];
    } else {
      assert items[..k] == items;
    }
  }

  // ---------------------------------------------------------------- main results

  /** An uninterrupted run ends in the reconciled server. */
  lemma PlanReconciles(s: Server, items: seq<Item>, previous: seq<Id>)
    ensures PerformAll(s, Plan(items, previous)) == Reconciled(s, items, previous)
  {
    var k := |Plan(items, previous)|;
    assert Plan(items, previous)[..k] == Plan(items, previous);
    var done, gone := PlanPrefix(s, items, previous, k);
    assert items[..done] == items;
  }

  /** Of the IDs it manages, the server holds exactly the declared ones; all others are untouched. */
  lemma ManagedIdsMatch(s: Server, items: seq<Item>, previous: seq<Id>, id: Id)
    ensures var t := Reconciled(s, items, previous);
      && (id in Ids(items) ==> id in t && id in Declared(items) && t[id] == Declared(items)[id])
      && (id in previous && id !in Ids(items) ==> id !in t)
      && (id !in previous && id !in Ids(items) ==> (id in t <==> id in s) && (id in s ==> t[id] == s[id]))
  {
    DeclaredKeys(items);
  }

  lemma Idempotent(s: Server, items: seq<Item>, previous: seq<Id>)
    ensures Reconciled(Reconciled(s, items, previous), items, Ids(items)) == Reconciled(s, items, previous)
  {
    DeclaredKeys(items);
  }

  /** Stopping after any number of effects and running the same manifest again, with the old state
      file, ends where an uninterrupted run would have. */
  lemma InterruptedRunConverges(s: Server, items: seq<Item>, previous: seq<Id>, k: nat)
    requires k <= |Plan(items, previous)|
    ensures Reconciled(PerformAll(s, Plan(items, previous)[..k]), items, previous) == Reconciled(s, items, previous)
  {
    var done, gone := PlanPrefix(s, items, previous, k);
    DeclaredKeys(items);
    DeclaredPrefixKeys(items, done);
  }

  /** The same after any number of interrupted runs. */
  lemma {:induction false} ManyInterruptions(s: Server, items: seq<Item>, previous: seq<Id>, stops: seq<nat>)
    requires forall i :: 0 <= i < |stops| ==> stops[i] <= |Plan(items, previous)|
    ensures Reconciled(AfterStops(s, items, previous, stops), items, previous) == Reconciled(s, items, previous)
  {
    if |stops| > 0 {
      var n := |stops| - 1;
      ManyInterruptions(s, items, previous, stops[..n]);
      InterruptedRunConverges(AfterStops(s, items, previous, stops[..n]), items, previous, stops[n]);
    }
  }

  function AfterStops(s: Server, items: seq<Item>, previous: seq<Id>, stops: seq<nat>): Server
    requires forall i :: 0 <= i < |stops| ==> stops[i] <= |Plan(items, previous)|
  {
    if |stops| == 0 then s
    else PerformAll(AfterStops(s, items, previous, stops[..|stops| - 1]), Plan(items, previous)[..stops[|stops| - 1]])
  }

  /** Interrupting one manifest and then running another leaves exactly one kind of difference: entries
      of the first that had been written, are not in the second and were not yet in the state file. */
  lemma OrphansExactly(s: Server, first: seq<Item>, second: seq<Item>, previous: seq<Id>, k: nat)
    requires k <= |Plan(first, previous)|
    ensures var written := Declared(first[..if k < |first| then k else |first|]);
      Reconciled(PerformAll(s, Plan(first, previous)[..k]), second, previous) ==
      Reconciled(s, second, previous) + (written - (IdSet(previous) + IdSet(Ids(second))))
  {
    hide Declared, Ids, Plan, PerformAll;
    var done, gone := PlanPrefix(s, first, previous, k);
    DeclaredKeys(second);
  }

  /** Every declared item is served under its own ID exactly when no later item takes its ID for a
      different entry. */
  lemma {:induction false} EveryItemServedExactly(items: seq<Item>)
    ensures (forall i :: 0 <= i < |items| ==>
      IdOf(items[i]) in Declared(items) && Declared(items)[IdOf(items[i])] == items[i].entry)
       <==> forall i, j :: 0 <= i < j < |items| && IdOf(items[i]) == IdOf(items[j]) ==> items[i].entry == items[j].entry
  {
    forall i | 0 <= i < |items| ensures IdOf(items[i]) in Declared(items) {
      LastWins(items, i);
    }
    forall i | 0 <= i < |items|
      && (forall j :: i < j < |items| ==> IdOf(items[j]) != IdOf(items[i]) || items[j].entry == items[i].entry)
      ensures Declared(items)[IdOf(items[i])] == items[i].entry
    {
      LastWins(items, i);
    }
  }

  lemma {:induction false} LastWins(items: seq<Item>, i: nat)
    requires i < |items|
    ensures IdOf(items[i]) in Declared(items)
    ensures (forall j :: i < j < |items| ==> IdOf(items[j]) != IdOf(items[i]) || items[j].entry == items[i].entry) ==>
      Declared(items)[IdOf(items[i])] == items[i].entry
  {
    var n := |items| - 1;
    if i < n {
      LastWins(items[..n], i);
      assert forall j :: i < j < n ==> items[..n][j] == items[j];
    }
  }

  // ---------------------------------------------------------------- implementation

  predicate Complete(x: Item) { x.entry.parentId != "" && x.entry.spiffeId != "" && |x.entry.selectors| > 0 }

  predicate AllComplete(items: seq<Item>) { forall x :: x in items ==> Complete(x) }

  /** An entry with a parent, an identity and at least one selector. */
  predicate Filled(e: Entry) { e.parentId != "" && e.spiffeId != "" && e.selectors != [] }

  lemma CompleteExactly(items: seq<Item>)
    ensures AllComplete(items) <==> forall x :: x in items ==> Filled(x.entry)
  {
  }

  lemma {:induction false} RemovesSize(previous: seq<Id>, keep: seq<Id>)
    ensures |Removes(previous, keep)| <= |previous|
  {
    if |previous| > 0 {
      RemovesSize(previous[..|previous| - 1], keep);
    }
  }

  /** The effects that a number of commands allows: a show and a create or update for each item, one command
      for each deletion. Replacing the state file takes one more. */
  function Reached(items: seq<Item>, previous: seq<Id>, budget: nat): nat
  {
    if !AllComplete(items) then 0
    else if budget < 2 * |items| then budget / 2
    else
      var deletes := |Removes(previous, Ids(items))|;
      |items| + if budget - 2 * |items| < deletes then budget - 2 * |items| else deletes
  }

  lemma {:induction false} RemovesPrefix(previous: seq<Id>, keep: seq<Id>, j: nat)
    requires j <= |previous|
    ensures Removes(previous[..j], keep) <= Removes(previous, keep)
  {
    var n := |previous| - 1;
    if j < |previous| {
      RemovesPrefix(previous[..n], keep, j);
      assert previous[..n][..j] == previous[..j];
    } else {
      assert previous[..j] == previous;
    }
  }

  lemma NothingPerformed(s: Server, ops: seq<Op>)
    ensures PerformAll(s, ops[..0]) == s
  {
  }

  lemma NextEffect(s: Server, ops: seq<Op>, k: nat)
    requires k < |ops|
    ensures PerformAll(s, ops[..k + 1]) == Perform(PerformAll(s, ops[..k]), ops[k])
  {
    assert ops[..k + 1][..k] == ops[..k];
  }

  lemma {:induction false} PutAt(items: seq<Item>, i: nat)
    requires i < |items|
    ensures Puts(items)[i] == Put(IdOf(items[i]), items[i].entry)
  {
    if i < |items| - 1 {
      PutAt(items[..|items| - 1], i);
    }
  }

  lemma PlanSize(items: seq<Item>, previous: seq<Id>)
    ensures |Plan(items, previous)| == |items| + |Removes(previous, Ids(items))|
  {
  }

  /** The plan's effect after i items, and how many deletions precede the j-th saved ID. */
  lemma PlanPutAt(items: seq<Item>, previous: seq<Id>, i: nat)
    requires i < |items|
    ensures i < |Plan(items, previous)| && Plan(items, previous)[i] == Put(IdOf(items[i]), items[i].entry)
  {
    PutAt(items, i);
  }

  lemma PlanRemoveAt(items: seq<Item>, previous: seq<Id>, j: nat)
    requires j < |previous|
    ensures var keep := Ids(items);
      var k := |items| + |Removes(previous[..j], keep)|;
      && |Removes(previous[..j + 1], keep)| == |Removes(previous[..j], keep)| + (if previous[j] in keep then 0 else 1)
      && (previous[j] !in keep ==> k < |Plan(items, previous)| && Plan(items, previous)[k] == Remove(previous[j]))
  {
    var keep := Ids(items);
    assert previous[..j + 1][..j] == previous[..j];
    RemovesPrefix(previous, keep, j + 1);
    if previous[j] !in keep {
      var k := |Removes(previous[..j], keep)|;
      assert Removes(previous[..j + 1], keep)[k] == Remove(previous[j]);
    }
  }

  /** The external server's entries and the state file of IDs created before. */
  class Registrar {
    var server: Server
    var file: seq<Id>

    constructor (server: Server, file: seq<Id>)
      ensures this.server == server && this.file == file
    {
      this.server, this.file := server, file;
    }

    /** reconcile, killed after at most budget commands. It shows, then creates or updates, every item;
        deletes what it created before and the manifest no longer declares; then replaces the state file
        in one rename. k counts the effects that took place. */
    method Reconcile(items: seq<Item>, budget: nat) returns (done: bool, ghost k: nat)
      modifies this
      ensures k <= |Plan(items, old(file))| && server == PerformAll(old(server), Plan(items, old(file))[..k])
      ensures k == Reached(items, old(file), budget)
      ensures done <==> AllComplete(items) && budget > 2 * |items| + |Removes(old(file), Ids(items))|
      ensures done ==> k == |Plan(items, old(file))| && server == Reconciled(old(server), items, old(file))
      ensures file == if done then Ids(items) else old(file)
      ensures !(forall x :: x in items ==> Filled(x.entry)) ==> !done && server == old(server)
      ensures (forall x :: x in items ==> Filled(x.entry)) && budget > 2 * |items| + |old(file)| ==> done
    {
      hide PerformAll, Plan, Reconciled, Filled, Removes;
      CompleteExactly(items);
      RemovesSize(file, Ids(items));
      NothingPerformed(server, Plan(items, file));
      done, k := false, 0;
      for i := 0 to |items|
        invariant forall j :: 0 <= j < i ==> Complete(items[j])
      {
        if !Complete(items[i]) {
          return;
        }
      }
      var left := budget;
      var current: seq<Id> := [];
      for i := 0 to |items|
        invariant k == i <= |Plan(items, file)| && file == old(file)
        invariant server == PerformAll(old(server), Plan(items, file)[..k])
        invariant current == Ids(items[..i]) && left == budget - 2 * i
      {
        PlanPutAt(items, file, i);
        NextEffect(old(server), Plan(items, file), i);
        assert items[..i + 1][..i] == items[..i];
        var id := IdOf(items[i]);
        current := current + [id];
        if left < 2 {
          return;
        }
        left := left - 2;
        var known := id in server;
        if known {
          server := server[id := items[i].entry];
        } else {
          server := server + map[id := items[i].entry];
        }
        k := k + 1;
      }
      assert items[..|items|] == items;
      done, k := DeleteStale(items, left, old(server));
      if done {
        PlanReconciles(old(server), items, file);
        assert Plan(items, file)[..k] == Plan(items, file);
        file := current;
      }
    }

    /** The second half: deletes, and whether the budget still reaches the state file. */
    method DeleteStale(items: seq<Item>, budget: nat, ghost start: Server) returns (done: bool, ghost k: nat)
      requires |items| <= |Plan(items, file)| && server == PerformAll(start, Plan(items, file)[..|items|])
      modifies this`server
      ensures k <= |Plan(items, file)| && server == PerformAll(start, Plan(items, file)[..k])
      ensures var deletes := |Removes(file, Ids(items))|;
        k == |items| + (if budget < deletes then budget else deletes) && (done <==> budget > deletes)
      ensures done ==> k == |Plan(items, file)|
    {
      hide PerformAll, Plan, Ids;
      var left := budget;
      var keep := Ids(items);
      k := |items|;
      done := false;
      PlanSize(items, file);
      for j := 0 to |file|
        invariant k == |items| + |Removes(file[..j], keep)| <= |Plan(items, file)|
        invariant left == budget - |Removes(file[..j], keep)|
        invariant server == PerformAll(start, Plan(items, file)[..k])
      {
        PlanRemoveAt(items, file, j);
        var id := file[j];
        if id !in keep {
          NextEffect(start, Plan(items, file), k);
          if left < 1 {
            return;
          }
          left := left - 1;
          server := server - {id};
          k := k + 1;
        }
      }
      assert file[..|file|] == file;
      done := left >= 1;
    }
  }
}
