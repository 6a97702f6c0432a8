/** The parser for the unit stanzas that "systemctl show" prints. */
module Stanzas {
  import opened Text
  import opened Counting

  const MAX_ADMIN_BYTES: nat := 8 * 1024 * 1024

  // ---------------------------------------------------------------- lines

  /** strings.Cut at the first '='. */
  function Cut(s: string): (r: Option<(string, string)>)
    ensures r.None? <==> '=' !in s
    ensures r.Some? ==> '=' !in r.value.0 && s == r.value.0 + "=" + r.value.1
  {
    if s == "" then None
    else if s[0] == '=' then
      assert s == "" + "=" + s[1..];
      Some(("", s[1..]))
    else match Cut(s[1..])
      case None => assert s == [s[0]] + s[1..]; None
      case Some(p) =>
        assert s == ([s[0]] + p.0) + "=" + p.1;
        Some(([s[0]] + p.0, p.1))
  }

  lemma {:induction false} CutField(key: string, value: string)
    requires '=' !in key
    ensures Cut(key + "=" + value) == Some((key, value))
  {
    if key == "" {
      assert key + "=" + value == "=" + value;
      assert ("=" + value)[1..] == value;
    } else {
      assert (key + "=" + value)[1..] == key[1..] + "=" + value;
      CutField(key[1..], value);
      assert [key[0]] + key[1..] == key;
    }
  }

  // ---------------------------------------------------------------- one pass

  /** The loop's variables: stanzas committed so far and the fields of the open one. */
  datatype Scan = Scan(result: map<string, string>, id: string, state: string)

  function Commit(x: Scan, expected: set<string>): Option<Scan>
  {
    if x.id == "" && x.state == "" then Some(x)
    else if x.id !in expected || x.state == "" || (x.id in x.result && x.result[x.id] != "") then None
    else Some(Scan(x.result[x.id := x.state], "", ""))
  }

  function Feed(x: Scan, line: string, expected: set<string>): Option<Scan>
  {
    if line == "" then Commit(x, expected)
    else
      var c := Cut(line);
      if c.None? then None
      else if c.value.0 == "Id" then (if x.id != "" then None else Some(x.(id := c.value.1)))
      else if c.value.0 == "ActiveState" then (if x.state != "" then None else Some(x.(state := c.value.1)))
      else None
  }

  function ScanAll(lines: seq<string>, expected: set<string>): Option<Scan>
  {
    if |lines| == 0 then Some(Scan(map[], "", ""))
    else
      var before := ScanAll(lines[..|lines| - 1], expected);
      if before.None? then None else Feed(before.value, lines[|lines| - 1], expected)
  }

  function Units(targets: seq<string>): set<string> { set t | t in targets }

  function Parse(raw: string, targets: seq<string>): Option<map<string, string>>
  {
    if |raw| > MAX_ADMIN_BYTES then None
    else
      var x := ScanAll(Split(raw, '\n'), Units(targets));
      if x.None? then None
      else
        var end := Commit(x.value, Units(targets));
        if end.None? || |end.value.result| != |targets| then None else Some(end.value.result)
  }

  /** parseWorkloadActivity: one pass over the lines with a commit at each blank line and at the end. */
  method ParseWorkloadActivity(raw: string, targets: seq<string>) returns (r: Option<map<string, string>>)
    ensures r == Parse(raw, targets)
  {
    if |raw| > MAX_ADMIN_BYTES {
      return None;
    }
    var expected: set<string> := {};
    for k := 0 to |targets|
      invariant expected == set t | t in targets[..k]
    {
      expected := expected + {targets[k]};
    }
    assert targets[..|targets|] == targets;
    var result: map<string, string>, id, state := map[], "", "";
    var lines := Split(raw, '\n');
    for k := 0 to |lines|
      invariant ScanAll(lines[..k], expected) == Some(Scan(result, id, state))
    {
      var line := lines[k];
      ghost var now := Feed(Scan(result, id, state), line, expected);
      ScanPrefix(lines, expected, k);
      if line == "" {
        if !(id == "" && state == "") {
          if id !in expected || state == "" || (id in result && result[id] != "") {
            return None;
          }
          result := result[id := state];
          id, state := "", "";
        }
      } else {
        var cut := Cut(line);
        if cut.None? {
          return None;
        }
        if cut.value.0 == "Id" {
          if id != "" {
            return None;
          }
          id := cut.value.1;
        } else if cut.value.0 == "ActiveState" {
          if state != "" {
            return None;
          }
          state := cut.value.1;
        } else {
          return None;
        }
      }
      assert now == Some(Scan(result, id, state));
    }
    assert lines[..|lines|] == lines;
    if !(id == "" && state == "") {
      if id !in expected || state == "" || (id in result && result[id] != "") {
        return None;
      }
      result := result[id := state];
    }
    if |result| != |targets| {
      return None;
    }
    r := Some(result);
  }

  /** A rejected line rejects every longer input. */
  lemma {:induction false} ScanPrefix(lines: seq<string>, expected: set<string>, k: nat)
    requires k < |lines| && ScanAll(lines[..k], expected).Some?
    ensures ScanAll(lines[..k + 1], expected) == Feed(ScanAll(lines[..k], expected).value, lines[k], expected)
    ensures ScanAll(lines[..k + 1], expected).None? ==> ScanAll(lines, expected).None?
  {
    assert lines[..k + 1][..k] == lines[..k];
    if ScanAll(lines[..k + 1], expected).None? {
      ScanStaysNone(lines, expected, k + 1);
    }
  }

  lemma {:induction false} ScanStaysNone(lines: seq<string>, expected: set<string>, k: nat)
    requires k <= |lines| && ScanAll(lines[..k], expected).None?
    ensures ScanAll(lines, expected).None?
  {
    if k < |lines| {
      assert lines[..|lines| - 1][..k] == lines[..k];
      ScanStaysNone(lines[..|lines| - 1], expected, k);
    } else {
      assert lines[..k] == lines;
    }
  }

  // ---------------------------------------------------------------- blocks

  function AddLine(bs: seq<seq<string>>, line: string): (r: seq<seq<string>>)
    requires |bs| >= 1
    ensures |r| >= 1
  {
    if line == "" then bs + [[]] else bs[..|bs| - 1] + [bs[|bs| - 1] + [line]]
  }

  /** Lines grouped into blocks at every blank line. */
  function Blocks(lines: seq<string>): (bs: seq<seq<string>>)
    ensures |bs| >= 1
  {
    if |lines| == 0 then [[]] else AddLine(Blocks(lines[..|lines| - 1]), lines[|lines| - 1])
  }

  predicate IsField(line: string, key: string) { Cut(line).Some? && Cut(line).value.0 == key }

  predicate SameField(a: string, b: string)
  {
    Cut(a).Some? && Cut(b).Some? && Cut(a).value.0 == Cut(b).value.0
  }

  /** Every line is one of the two fields, and only the last line for a field may carry a value. */
  ghost predicate Readable(block: seq<string>)
  {
    && (forall i :: 0 <= i < |block| ==> IsField(block[i], "Id") || IsField(block[i], "ActiveState"))
    && (forall i, j :: 0 <= i < j < |block| && SameField(block[i], block[j]) ==> Cut(block[i]).value.1 == "")
  }

  /** The value of a block's last line for a key. */
  function Value(block: seq<string>, key: string): string
  {
    if |block| == 0 then ""
    else if IsField(block[|block| - 1], key) then Cut(block[|block| - 1]).value.1
    else Value(block[..|block| - 1], key)
  }

  predicate Empty(block: seq<string>) { Value(block, "Id") == "" && Value(block, "ActiveState") == "" }

  /** A block that may be committed: it says nothing, or names an expected unit and a state. */
  ghost predicate Good(block: seq<string>, expected: set<string>)
  {
    && Readable(block)
    && (Empty(block) || (Value(block, "Id") in expected && Value(block, "ActiveState") != ""))
  }

  ghost predicate Separate(bs: seq<seq<string>>)
  {
    forall i, j :: 0 <= i < j < |bs| && !Empty(bs[i]) && !Empty(bs[j]) ==> Value(bs[i], "Id") != Value(bs[j], "Id")
  }

  /** m holds exactly the blocks that say something. */
  ghost predicate Holds(m: map<string, string>, bs: seq<seq<string>>)
  {
    && (forall i :: 0 <= i < |bs| && !Empty(bs[i]) ==>
          Value(bs[i], "Id") in m && m[Value(bs[i], "Id")] == Value(bs[i], "ActiveState"))
    && (forall u :: u in m ==> m[u] != "" && exists i :: 0 <= i < |bs| && !Empty(bs[i]) && Value(bs[i], "Id") == u)
  }

  lemma {:induction false} ValueBlank(block: seq<string>, key: string)
    requires Readable(block)
    ensures Value(block, key) == "" <==> forall i :: 0 <= i < |block| && IsField(block[i], key) ==>
      Cut(block[i]).value.1 == ""
  {
    hide Cut;
    if |block| > 0 {
      var n := |block| - 1;
      if IsField(block[n], key) {
        forall i | 0 <= i < n && IsField(block[i], key) ensures Cut(block[i]).value.1 == "" {
          assert SameField(block[i], block[n]);
        }
      } else {
        ValueBlank(block[..n], key);
        assert forall i :: 0 <= i < n ==> block[i] == block[..n][i];
      }
    }
  }

  /** A further line is readable exactly when its field has no value yet. */
  lemma ReadableExtends(block: seq<string>, line: string)
    ensures Readable(block + [line]) <==>
      && Readable(block)
      && ((IsField(line, "Id") && Value(block, "Id") == "")
           || (IsField(line, "ActiveState") && Value(block, "ActiveState") == ""))
  {
    hide Value, Cut;
    var more := block + [line];
    assert forall i :: 0 <= i < |block| ==> more[i] == block[i];
    if Readable(block) {
      ValueBlank(block, "Id");
      ValueBlank(block, "ActiveState");
      if Readable(more) {
        assert more[|block|] == line;
        forall i | 0 <= i < |block| && SameField(block[i], line) ensures Cut(block[i]).value.1 == "" {
          assert SameField(more[i], more[|block|]);
        }
      }
    }
    if Readable(more) {
      assert forall i, j :: 0 <= i < j < |block| && SameField(block[i], block[j]) ==> SameField(more[i], more[j]);
    }
  }

  lemma ValueExtends(block: seq<string>, line: string, key: string)
    ensures Value(block + [line], key) == if IsField(line, key) then Cut(line).value.1 else Value(block, key)
  {
    assert (block + [line])[..|block|] == block;
  }

  ghost predicate AllGood(bs: seq<seq<string>>, expected: set<string>)
  {
    forall i :: 0 <= i < |bs| ==> Good(bs[i], expected)
  }

  /** Committing a readable block succeeds exactly when it is good and its unit is new. */
  lemma CommitBlock(m: map<string, string>, bs: seq<seq<string>>, b: seq<string>, expected: set<string>)
    requires Holds(m, bs) && AllGood(bs, expected) && Separate(bs) && Readable(b)
    ensures var c := Commit(Scan(m, Value(b, "Id"), Value(b, "ActiveState")), expected);
      && (c.Some? <==> AllGood(bs + [b], expected) && Separate(bs + [b]))
      && (c.Some? ==> Holds(c.value.result, bs + [b]) && c.value.id == "" && c.value.state == "")
  {
    hide Value, Readable;
    var u, all := Value(b, "Id"), bs + [b];
    assert all[|bs|] == b;
    assert forall i :: 0 <= i < |bs| ==> all[i] == bs[i];
    var c := Commit(Scan(m, u, Value(b, "ActiveState")), expected);
    if c.Some? {
      CommitHolds(m, bs, b, expected);
    } else if Good(b, expected) {
      var i :| 0 <= i < |bs| && !Empty(bs[i]) && Value(bs[i], "Id") == u;
      assert !Empty(all[i]) && !Empty(all[|bs|]) && Value(all[i], "Id") == Value(all[|bs|], "Id");
    }
  }

  lemma CommitHolds(m: map<string, string>, bs: seq<seq<string>>, b: seq<string>, expected: set<string>)
    requires Holds(m, bs) && AllGood(bs, expected) && Separate(bs) && Readable(b)
    requires Commit(Scan(m, Value(b, "Id"), Value(b, "ActiveState")), expected).Some?
    ensures var c := Commit(Scan(m, Value(b, "Id"), Value(b, "ActiveState")), expected);
      Separate(bs + [b]) && Holds(c.value.result, bs + [b])
  {
    hide Value, Readable;
    var c := Commit(Scan(m, Value(b, "Id"), Value(b, "ActiveState")), expected).value.result;
    var all := bs + [b];
    assert all[|bs|] == b;
    assert forall i :: 0 <= i < |bs| ==> all[i] == bs[i];
    forall u | u in c
      ensures c[u] != "" && exists i :: 0 <= i < |all| && !Empty(all[i]) && Value(all[i], "Id") == u
    {
      if u in m {
        var i :| 0 <= i < |bs| && !Empty(bs[i]) && Value(bs[i], "Id") == u;
        assert !Empty(all[i]) && Value(all[i], "Id") == u;
      } else {
        assert !Empty(all[|bs|]) && Value(all[|bs|], "Id") == u;
      }
    }
  }

  /** x is the scan of the lines grouped in bs. */
  ghost predicate Reads(x: Option<Scan>, bs: seq<seq<string>>, expected: set<string>)
    requires |bs| >= 1
  {
    var closed, last := bs[..|bs| - 1], bs[|bs| - 1];
    && (x.Some? <==> AllGood(closed, expected) && Separate(closed) && Readable(last))
    && (x.Some? ==>
          && Holds(x.value.result, closed)
          && x.value.id == Value(last, "Id") && x.value.state == Value(last, "ActiveState"))
  }

  lemma ReadsBlank(x: Option<Scan>, bs: seq<seq<string>>, expected: set<string>)
    requires |bs| >= 1 && Reads(x, bs, expected)
    ensures Reads(if x.None? then None else Commit(x.value, expected), bs + [[]], expected)
  {
    hide Holds, Commit;
    var closed, last := bs[..|bs| - 1], bs[|bs| - 1];
    assert (bs + [[]])[..|bs|] == bs == closed + [last];
    if x.Some? {
      CommitBlock(x.value.result, closed, last, expected);
    } else {
      assert forall i :: 0 <= i < |closed| ==> closed[i] == bs[i];
    }
  }

  lemma ReadsField(x: Option<Scan>, bs: seq<seq<string>>, line: string, expected: set<string>)
    requires |bs| >= 1 && Reads(x, bs, expected) && line != ""
    ensures Reads(if x.None? then None else Feed(x.value, line, expected), AddLine(bs, line), expected)
  {
    hide Readable, Holds, AllGood, Separate, Value, Cut;
    var closed, last := bs[..|bs| - 1], bs[|bs| - 1];
    assert AddLine(bs, line)[..|bs| - 1] == closed;
    ReadableExtends(last, line);
    ValueExtends(last, line, "Id");
    ValueExtends(last, line, "ActiveState");
  }

  /** The one-pass scan computes the grouped reading of the lines. */
  lemma {:induction false} ScanIsBlocks(lines: seq<string>, expected: set<string>)
    ensures Reads(ScanAll(lines, expected), Blocks(lines), expected)
  {
    if |lines| > 0 {
      var front, line := lines[..|lines| - 1], lines[|lines| - 1];
      ScanIsBlocks(front, expected);
      if line == "" {
        ReadsBlank(ScanAll(front, expected), Blocks(front), expected);
      } else {
        ReadsField(ScanAll(front, expected), Blocks(front), line, expected);
      }
    }
  }

  // ---------------------------------------------------------------- what is accepted

  lemma {:induction false} UnitsSize(targets: seq<string>)
    ensures |Units(targets)| <= |targets|
  {
    if |targets| > 0 {
      var n := |targets| - 1;
      UnitsSize(targets[..n]);
      assert Units(targets) == Units(targets[..n]) + {targets[n]};
    }
  }

  ghost predicate Named(bs: seq<seq<string>>, u: string)
  {
    exists i :: 0 <= i < |bs| && !Empty(bs[i]) && Value(bs[i], "Id") == u
  }

  /** The exact accepted language: every block is blank or names an expected unit with a state, no unit is
      named twice, every target is named and no target is configured twice. The result is then the map of the
      blocks, its keys are exactly the configured units and no state is empty. */
  lemma AcceptsExactly(raw: string, targets: seq<string>)
    ensures var bs, units, r := Blocks(Split(raw, '\n')), Units(targets), Parse(raw, targets);
      && (r.Some? <==>
            && |raw| <= 8_388_608 && AllGood(bs, units) && Separate(bs)
            && |units| == |targets| && forall u :: u in units ==> Named(bs, u))
      && (r.Some? ==> Holds(r.value, bs) && r.value.Keys == units && forall u :: u in units ==> r.value[u] != "")
  {
    hide ScanAll, Blocks, Split, AllGood, Separate, Holds, Commit, Named, Reads;
    var lines, units := Split(raw, '\n'), Units(targets);
    var bs, x := Blocks(lines), ScanAll(lines, units);
    ScanIsBlocks(lines, units);
    UnitsSize(targets);
    AcceptsBlocks(x, bs, units);
    if x.Some? && Commit(x.value, units).Some? {
      SubsetSize(Commit(x.value, units).value.result.Keys, units);
    }
  }

  lemma AcceptsBlocks(x: Option<Scan>, bs: seq<seq<string>>, units: set<string>)
    requires |bs| >= 1 && Reads(x, bs, units)
    ensures var c := if x.None? then None else Commit(x.value, units);
      && (c.Some? <==> AllGood(bs, units) && Separate(bs))
      && (c.Some? ==>
            && Holds(c.value.result, bs) && c.value.result.Keys <= units
            && (forall u :: u in c.value.result ==> c.value.result[u] != "")
            && (forall u :: u in c.value.result <==> Named(bs, u)))
  {
    hide Commit, Value, Readable;
    ReadsBlank(x, bs, units);
    assert (bs + [[]])[..|bs|] == bs;
    NothingIsReadable();
  }

  lemma NothingIsReadable()
    ensures Readable([])
  {
  }

  // ---------------------------------------------------------------- round trip

  datatype Stanza = Stanza(unit: string, state: string, idFirst: bool)

  function FieldLines(x: Stanza): seq<string>
  {
    var id, state := "Id=" + x.unit, "ActiveState=" + x.state;
    if x.idFirst then [id, state] else [state, id]
  }

  /** Two field lines for each stanza, each pair followed by a line break and stanzas parted by a blank line. */
  function RenderLines(xs: seq<Stanza>): seq<string>
  {
    if |xs| == 0 then [] else RenderLines(xs[..|xs| - 1]) + FieldLines(xs[|xs| - 1]) + [""]
  }

  function Render(xs: seq<Stanza>): string { Join(RenderLines(xs), '\n') }

  function RenderBlocks(xs: seq<Stanza>): seq<seq<string>>
  {
    if |xs| == 0 then [] else RenderBlocks(xs[..|xs| - 1]) + [FieldLines(xs[|xs| - 1])]
  }

  ghost predicate DistinctUnits(xs: seq<Stanza>)
  {
    forall i, j :: 0 <= i < j < |xs| ==> xs[i].unit != xs[j].unit
  }

  function StateMap(xs: seq<Stanza>): map<string, string>
    requires DistinctUnits(xs)
  {
    map x | x in xs :: x.unit := x.state
  }

  lemma {:induction false} RenderedBlocks(xs: seq<Stanza>)
    ensures |RenderBlocks(xs)| == |xs|
    ensures forall i :: 0 <= i < |xs| ==> RenderBlocks(xs)[i] == FieldLines(xs[i])
  {
    if |xs| > 0 {
      RenderedBlocks(xs[..|xs| - 1]);
    }
  }

  lemma {:induction false} RenderedLines(xs: seq<Stanza>)
    requires forall x :: x in xs ==> '\n' !in x.state && '\n' !in x.unit
    ensures forall l :: l in RenderLines(xs) ==> '\n' !in l
  {
    if |xs| > 0 {
      RenderedLines(xs[..|xs| - 1]);
      assert xs[|xs| - 1] in xs;
      var f := FieldLines(xs[|xs| - 1]);
      assert '\n' !in f[0] && '\n' !in f[1];
    }
  }

  /** Appending two lines and a blank one closes exactly one block. */
  lemma AppendStanza(start: seq<string>, bs: seq<seq<string>>, f: seq<string>)
    requires Blocks(start) == bs + [[]] && |f| == 2 && f[0] != "" && f[1] != ""
    ensures Blocks(start + f + [""]) == bs + [f] + [[]]
  {
    var one, two, three := start + [f[0]], start + f, start + f + [""];
    assert three[..|three| - 1] == two && two[..|two| - 1] == one && one[..|one| - 1] == start;
    assert (bs + [[]])[..|bs|] == bs && [] + [f[0]] == [f[0]];
    assert Blocks(one) == bs + [[f[0]]];
    assert (bs + [[f[0]]])[..|bs|] == bs && [f[0]] + [f[1]] == f;
    assert Blocks(two) == bs + [f];
  }

  lemma {:induction false} BlocksOfRender(xs: seq<Stanza>)
    ensures Blocks(RenderLines(xs)) == RenderBlocks(xs) + [[]]
  {
    hide Blocks;
    if |xs| > 0 {
      var front, f := xs[..|xs| - 1], FieldLines(xs[|xs| - 1]);
      BlocksOfRender(front);
      assert f[0] != "" && f[1] != "";
      AppendStanza(RenderLines(front), RenderBlocks(front), f);
    } else {
      NoBlocks();
    }
  }

  lemma NoBlocks()
    ensures Blocks([]) == [[]] && Blocks([""]) == [[], []]
  {
    assert [""][..0] == [];
  }

  /** The lines read back are the lines printed; an empty print reads as one blank line. */
  lemma SplitRender(xs: seq<Stanza>)
    requires forall x :: x in xs ==> '\n' !in x.state && '\n' !in x.unit
    ensures Split(Render(xs), '\n') == if |xs| == 0 then [""] else RenderLines(xs)
  {
    if |xs| > 0 {
      RenderedLines(xs);
      SplitJoin(RenderLines(xs), '\n');
    }
  }

  lemma FieldsRead(x: Stanza)
    requires x.state != ""
    ensures var b := FieldLines(x);
      Readable(b) && Value(b, "Id") == x.unit && Value(b, "ActiveState") == x.state
  {
    hide Cut;
    var id, state := "Id=" + x.unit, "ActiveState=" + x.state;
    assert id == "Id" + "=" + x.unit && state == "ActiveState" + "=" + x.state;
    CutField("Id", x.unit);
    CutField("ActiveState", x.state);
    assert |"Id"| != |"ActiveState"|;
    assert IsField(id, "Id") && !IsField(id, "ActiveState") && IsField(state, "ActiveState") && !IsField(state, "Id");
    TwoFields(if x.idFirst then id else state, if x.idFirst then state else id, "Id", "ActiveState");
    TwoFields(if x.idFirst then id else state, if x.idFirst then state else id, "ActiveState", "Id");
  }

  lemma TwoFields(a: string, b: string, key: string, other: string)
    requires (IsField(a, key) && IsField(b, other)) || (IsField(b, key) && IsField(a, other))
    requires key != other
    ensures Value([a, b], key) == Cut(if IsField(a, key) then a else b).value.1
  {
    assert [a, b][..1] == [a];
    assert Value([a, b], key) == if IsField(b, key) then Cut(b).value.1 else Value([a], key);
    assert Value([a], key) == if IsField(a, key) then Cut(a).value.1 else Value([a][..0], key);
  }

  /** Printing distinct units with non-empty newline-free states, in any order and with either field first,
      parses back to exactly that map. */
  lemma RoundTrip(xs: seq<Stanza>, targets: seq<string>)
    requires forall x :: x in xs ==> x.state != "" && '\n' !in x.state && '\n' !in x.unit
    requires DistinctUnits(xs)
    requires Units(targets) == (set x | x in xs :: x.unit) && |Units(targets)| == |targets|
    requires |Render(xs)| <= MAX_ADMIN_BYTES
    ensures Parse(Render(xs), targets) == Some(StateMap(xs))
  {
    hide Split, Blocks, Parse, Value, Readable, Render, RenderLines, FieldLines, AllGood, Separate, Named, Empty,
      StateMap;
    var bs, units := Blocks(Split(Render(xs), '\n')), Units(targets);
    ReadBack(xs);
    RenderedGood(xs, bs, units);
    AcceptsExactly(Render(xs), targets);
    MapIsRendered(xs, Parse(Render(xs), targets).value, bs);
  }

  lemma ReadBack(xs: seq<Stanza>)
    requires forall x :: x in xs ==> '\n' !in x.state && '\n' !in x.unit
    ensures var bs := Blocks(Split(Render(xs), '\n'));
      && |bs| > |xs| && (forall i :: 0 <= i < |xs| ==> bs[i] == FieldLines(xs[i]))
      && forall i :: |xs| <= i < |bs| ==> bs[i] == []
  {
    hide Split, Blocks, Render, RenderLines, FieldLines, RenderBlocks;
    SplitRender(xs);
    BlocksOfRender(xs);
    RenderedBlocks(xs);
    NoBlocks();
  }

  lemma MapIsRendered(xs: seq<Stanza>, m: map<string, string>, bs: seq<seq<string>>)
    requires |bs| >= |xs| && Holds(m, bs) && m.Keys == set x | x in xs :: x.unit
    requires DistinctUnits(xs)
    requires forall i :: 0 <= i < |xs| ==>
      !Empty(bs[i]) && Value(bs[i], "Id") == xs[i].unit && Value(bs[i], "ActiveState") == xs[i].state
    ensures m == StateMap(xs)
  {
    hide Value, Empty;
    forall x | x in xs ensures x.unit in m && m[x.unit] == x.state {
      var i :| 0 <= i < |xs| && xs[i] == x;
      assert !Empty(bs[i]);
    }
  }

  lemma RenderedGood(xs: seq<Stanza>, bs: seq<seq<string>>, units: set<string>)
    requires forall x :: x in xs ==> x.state != ""
    requires DistinctUnits(xs)
    requires units == set x | x in xs :: x.unit
    requires |bs| >= |xs| && (forall i :: 0 <= i < |xs| ==> bs[i] == FieldLines(xs[i]))
    requires forall i :: |xs| <= i < |bs| ==> bs[i] == []
    ensures AllGood(bs, units) && Separate(bs) && forall u :: u in units ==> Named(bs, u)
    ensures forall i :: 0 <= i < |xs| ==>
      !Empty(bs[i]) && Value(bs[i], "Id") == xs[i].unit && Value(bs[i], "ActiveState") == xs[i].state
  {
    hide Readable, FieldLines;
    NothingIsReadable();
    forall i | 0 <= i < |xs|
      ensures Readable(bs[i]) && Value(bs[i], "Id") == xs[i].unit && Value(bs[i], "ActiveState") == xs[i].state
    {
      FieldsRead(xs[i]);
    }
    forall u | u in units ensures Named(bs, u) {
      var x :| x in xs && x.unit == u;
      var i :| 0 <= i < |xs| && xs[i] == x;
      assert !Empty(bs[i]) && Value(bs[i], "Id") == u;
    }
  }
}
