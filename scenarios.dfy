/**
  Whole-form behaviour of the rebaser on the shapes of form its callers send: a
  flat list of one property, a list nested one level, and the corner cases of the
  reset flags and of the index pattern. Each shape is proved for every property
  name and index text that fits it; the two corner cases are single inputs.
 */
module RebaseScenarios {
  import opened JsText
  import opened RebaseSpec

  // ---------------------------------------------------------------------------
  // Segment steps on a segment `pName[idx]`
  // ---------------------------------------------------------------------------

  /** A property name the index pattern leaves alone: no brackets, no dot, not ending in a digit. */
  predicate PlainName(pName: string) {
    && pName != [] && !IsDigit(pName[|pName| - 1])
    && '[' !in pName && ']' !in pName && '.' !in pName
  }

  /** The segment `pName[idx]`. */
  function Indexed(pName: string, idx: string): (seg: string)
    ensures ']' in seg && '[' in seg
  {
    assert (pName + "[" + idx + "]")[|pName|] == '[';
    assert (pName + "[" + idx + "]")[|pName| + |idx| + 1] == ']';
    pName + "[" + idx + "]"
  }

  lemma IndexedHasNoDot(pName: string, idx: string)
    requires '.' !in pName && AllDigits(idx)
    ensures '.' !in Indexed(pName, idx)
  {
    var seg := Indexed(pName, idx);
    forall k | 0 <= k < |seg| ensures seg[k] != '.' {
      if k < |pName| {
        assert seg[k] == pName[k];
      } else if |pName| < k < |pName| + 1 + |idx| {
        assert seg[k] == idx[k - |pName| - 1];
      }
    }
  }

  /** `pName[idx]` is read as property name `pName` and index text `idx`. */
  lemma ParseIndexed(pName: string, idx: string)
    requires PlainName(pName) && AllDigits(idx)
    ensures var seg := Indexed(pName, idx);
      HasIndexer(seg) && PropertyName(seg) == pName && IndexText(seg) == idx
  {
    assert forall k :: 0 <= k < |idx| ==> idx[k] != ']';
    assert ']' !in idx;
    ParseIndexedSegment(pName, idx, "");
    assert pName + "[" + idx + "]" + "" == Indexed(pName, idx);
  }

  /** In `pName[idx]` the index pattern matches exactly the bracketed index. */
  lemma ReplaceIndexed(pName: string, idx: string, repl: string)
    requires PlainName(pName) && AllDigits(idx)
    ensures ReplaceIndexer(Indexed(pName, idx), repl) == pName + repl
  {
    ReplaceIndexerSegment(pName, "", idx, "", repl);
    assert pName + "" + "[" + idx + "]" + "" == Indexed(pName, idx);
    assert pName + repl + "" == pName + repl;
  }

  /** What the rebaser reads from `pName[idx]` and what it writes back. */
  lemma ReadIndexed(st: State, i: nat, pName: string, idx: string)
    requires Wf(st) && PlainName(pName) && AllDigits(idx)
    ensures var seg := Indexed(pName, idx);
      && HasIndexer(seg) && PropertyName(seg) == pName && IndexText(seg) == idx
      && SegmentStep(st, i, seg).1 == pName + Bracketed(Lookup(SegmentStep(st, i, seg).0, pName).newIndex.value)
  {
    var seg := Indexed(pName, idx);
    ParseIndexed(pName, idx);
    var r := SegmentStep(st, i, seg);
    ReplaceIndexed(pName, idx, Bracketed(Lookup(r.0, pName).newIndex.value));
  }

  /** The step on a segment already read as `pName` and `idx`, with its output left aside. */
  lemma StepState(st: State, i: nat, seg: string, pName: string, idx: string)
    requires Wf(st) && HasIndexer(seg) && PropertyName(seg) == pName && IndexText(seg) == idx
    ensures var prev := Lookup(st, pName);
      var cascaded := CascadeFrom(st.flags, i + 1);
      var reset := i in cascaded && cascaded[i];
      var n: nat := if reset || prev.newIndex.None? then 0 else prev.newIndex.value + 1;
      SegmentStep(st, i, seg).0 ==
        if prev.oldIndex == Some(idx) then st
        else State(st.states[pName := PrefixState(Some(idx), Some(n))], if reset then cascaded[i := false] else cascaded)
  {
  }

  /**
    The index text changed (or the name is new) and the position's flag is not
    raised: the counter moves on from where it was (0 for a new name), the deeper
    flags are raised, and the segment is written with the new counter. The new
    table and flags are passed in as `states'` and `flags'`.
   */
  lemma ChangedStep(st: State, i: nat, pName: string, idx: string, n: nat,
                    states': map<string, PrefixState>, flags': map<nat, bool>)
    requires Wf(st) && PlainName(pName) && AllDigits(idx)
    requires Lookup(st, pName).oldIndex != Some(idx)
    requires !(i in st.flags && st.flags[i])
    requires n == if Lookup(st, pName).newIndex.None? then 0 else Lookup(st, pName).newIndex.value + 1
    requires states' == st.states[pName := PrefixState(Some(idx), Some(n))]
    requires flags' == CascadeFrom(st.flags, i + 1)
    ensures SegmentStep(st, i, Indexed(pName, idx)) == (State(states', flags'), pName + Bracketed(n))
  {
    var seg := Indexed(pName, idx);
    ReadIndexed(st, i, pName, idx);
    StepState(st, i, seg, pName, idx);
    CascadeKeepsOwnFlag(st.flags, i);
  }

  /**
    The index text changed and the position's flag is raised: the counter restarts
    at 0 and the flag is lowered after the deeper flags are raised. The new table
    and flags are passed in as `states'` and `flags'`.
   */
  lemma ResetStep(st: State, i: nat, pName: string, idx: string,
                  states': map<string, PrefixState>, flags': map<nat, bool>)
    requires Wf(st) && PlainName(pName) && AllDigits(idx)
    requires Lookup(st, pName).oldIndex != Some(idx)
    requires i in st.flags && st.flags[i]
    requires states' == st.states[pName := PrefixState(Some(idx), Some(0))]
    requires flags' == CascadeFrom(st.flags, i + 1)[i := false]
    ensures SegmentStep(st, i, Indexed(pName, idx)) == (State(states', flags'), pName + Bracketed(0))
  {
    var seg := Indexed(pName, idx);
    ReadIndexed(st, i, pName, idx);
    StepState(st, i, seg, pName, idx);
    CascadeKeepsOwnFlag(st.flags, i);
  }

  /** The index text is the one last seen: the counter is reused and nothing changes, whatever the flags say. */
  lemma RepeatedStep(st: State, i: nat, pName: string, idx: string, n: nat)
    requires Wf(st) && PlainName(pName) && AllDigits(idx)
    requires Lookup(st, pName) == PrefixState(Some(idx), Some(n))
    ensures SegmentStep(st, i, Indexed(pName, idx)) == (st, pName + Bracketed(n))
  {
    ReadIndexed(st, i, pName, idx);
    StepState(st, i, Indexed(pName, idx), pName, idx);
  }

  // ---------------------------------------------------------------------------
  // Names of one and two segments
  // ---------------------------------------------------------------------------

  /** A name without a dot is a single segment at position 0. */
  lemma OneSegmentName(st: State, seg: string)
    requires Wf(st) && '.' !in seg
    ensures Split(seg, '.') == [seg]
    ensures RebaseName(st, seg) == SegmentStep(st, 0, seg)
  {
    var r := SegmentStep(st, 0, seg);
    assert [seg][0] == seg;
    var e: seq<string> := [];
    assert e + [r.1] == [r.1];
    assert RewritePrefix(st, [seg], 0) == (st, e);
    assert RewritePrefix(st, [seg], 1) == (r.0, [r.1]);
    assert JoinRebased([r.1]) == AppendSegment("", r.1);
  }

  /** A name `a.b` is segment `a` at position 0 and then segment `b` at position 1. */
  lemma TwoSegmentName(st: State, a: string, b: string)
    requires Wf(st) && '.' !in a && '.' !in b
    ensures Split(a + "." + b, '.') == [a, b]
    ensures var s1 := SegmentStep(st, 0, a);
      var s2 := SegmentStep(s1.0, 1, b);
      RebaseName(st, a + "." + b) == (s2.0, AppendSegment(s1.1, s2.1))
  {
    SplitTwo(a, b);
    var s1 := SegmentStep(st, 0, a);
    var s2 := SegmentStep(s1.0, 1, b);
    var e: seq<string> := [];
    assert RewritePrefix(st, [a, b], 0) == (st, e);
    assert e + [s1.1] == [s1.1];
    var segs := [a, b];
    assert segs[0] == a && segs[1] == b;
    assert RewritePrefix(st, segs, 1) == (s1.0, [s1.1]);
    assert [s1.1] + [s2.1] == [s1.1, s2.1];
    assert RewritePrefix(st, segs, 2) == (s2.0, [s1.1, s2.1]);
    assert [s1.1, s2.1][..1] == [s1.1];
    assert JoinRebased([s1.1]) == AppendSegment("", s1.1);
  }

  /** Writing counter `n` into `pName` gives the segment `pName[n]`. */
  lemma BracketedIsIndexed(pName: string, n: nat)
    ensures pName + Bracketed(n) == Indexed(pName, NatToString(n))
  {
  }

  // ---------------------------------------------------------------------------
  // The sort and the seeding on forms whose names all have the same length
  // ---------------------------------------------------------------------------

  /** A name ending in `]` sorts by its length. */
  lemma KeyOfClosedName(it: Item)
    requires |it.name| > 0 && it.name[|it.name| - 1] == ']'
    ensures SortKey(it) == |it.name| - 1
  {
  }

  /** All keys equal: the stable sort keeps the form as it is. */
  lemma {:induction false} EqualKeysUnsorted(items: seq<Item>)
    requires forall k :: 0 <= k < |items| ==> SortKey(items[k]) == SortKey(items[0])
    ensures SortByLastBracket(items) == items
  {
    if items != [] {
      EqualKeysUnsorted(items[1..]);
      assert items == [items[0]] + items[1..];
    }
  }

  // ---------------------------------------------------------------------------
  // A form without brackets
  // ---------------------------------------------------------------------------

  /** Names without `[` that do not start with `.` are renamed to themselves from the empty state. */
  lemma {:induction false} PlainItemsUnchanged(items: seq<Item>, n: nat)
    requires n <= |items|
    requires forall k :: 0 <= k < |items| ==> '[' !in items[k].name && (items[k].name == "" || items[k].name[0] != '.')
    ensures RenamePrefix(Initial(), items, n) == (Initial(), items[..n])
  {
    if n > 0 {
      PlainItemsUnchanged(items, n - 1);
      var name := items[n - 1].name;
      assert '[' !in name && (name == "" || name[0] != '.');
      PlainItemStep(items, n);
    }
  }

  /** One more plain item keeps the empty state and its own name. */
  lemma PlainItemStep(items: seq<Item>, n: nat)
    requires 0 < n <= |items|
    requires '[' !in items[n - 1].name && (items[n - 1].name == "" || items[n - 1].name[0] != '.')
    requires RenamePrefix(Initial(), items, n - 1) == (Initial(), items[..n - 1])
    ensures RenamePrefix(Initial(), items, n) == (Initial(), items[..n])
  {
    var it := items[n - 1];
    PlainNameUnchanged(Initial(), it.name);
    RenameOneMore(Initial(), items, n - 1, Initial(), items[..n - 1], Initial(), it.name);
    assert it.(name := it.name) == it;
    SliceSnoc(items, n);
  }

  /**
    A non-empty form whose names hold no brackets and do not start with `.` comes
    back exactly as it went in: same order, same names, same values.
   */
  lemma PlainFormUnchanged(items: seq<Item>)
    requires items != []
    requires forall k :: 0 <= k < |items| ==>
      '[' !in items[k].name && ']' !in items[k].name && (items[k].name == "" || items[k].name[0] != '.')
    ensures RebasedItems(items) == Some(items)
  {
    forall k | 0 <= k < |items| ensures SortKey(items[k]) == SortKey(items[0]) {
      assert SortKey(items[k]) == -1 && SortKey(items[0]) == -1;
    }
    EqualKeysUnsorted(items);
    var segs := Split(items[0].name, '.');
    SplitKeepsAbsent(items[0].name, '.', '[');
    assert BracketPositions(segs) == {};
    assert SeedFlags(map[], segs) == map[];
    PlainItemsUnchanged(items, |items|);
    assert items[..|items|] == items;
  }

  // ---------------------------------------------------------------------------
  // A flat list of one property
  // ---------------------------------------------------------------------------

  /** The items are `pName[idxs[0]]`, `pName[idxs[1]]`, ..., each index differing from the one before. */
  predicate FlatList(items: seq<Item>, pName: string, idxs: seq<string>) {
    && |items| == |idxs|
    && (forall k :: 0 <= k < |idxs| ==> AllDigits(idxs[k]) && items[k].name == Indexed(pName, idxs[k]))
    && (forall k :: 0 < k < |idxs| ==> idxs[k] != idxs[k - 1])
  }

  /** With only position 0 seeded, the cascade from position 1 has nothing to raise. */
  lemma NothingBelowOne()
    ensures CascadeFrom(map[0 := false], 1) == map[0 := false]
  {
    var f: map<nat, bool> := map[0 := false];
    assert f.Keys == {0};
  }

  /** The first `n` items with item `k` renamed to `pName[k]`. */
  function Renumbered(items: seq<Item>, pName: string, n: nat): (r: seq<Item>)
    requires n <= |items|
    ensures |r| == n
    ensures forall k :: 0 <= k < n ==> r[k].value == items[k].value
  {
    if n == 0 then [] else Renumbered(items, pName, n - 1) + [items[n - 1].(name := Indexed(pName, NatToString(n - 1)))]
  }

  /** The seeded state of a flat list, after its first `n` items. */
  function FlatState(pName: string, idxs: seq<string>, n: nat): State
    requires n <= |idxs|
  {
    if n == 0 then State(map[], map[0 := false])
    else State(map[pName := PrefixState(Some(idxs[n - 1]), Some(n - 1))], map[0 := false])
  }

  /** The counter of a flat list's property after `n` items is `n - 1`, and its flags stay as seeded. */
  lemma FlatStateStep(pName: string, idxs: seq<string>, n: nat)
    requires 0 < n <= |idxs|
    ensures var st := FlatState(pName, idxs, n - 1);
      var c: nat := if Lookup(st, pName).newIndex.None? then 0 else Lookup(st, pName).newIndex.value + 1;
      && c == n - 1
      && Lookup(st, pName).oldIndex == (if n == 1 then None else Some(idxs[n - 2]))
      && st.states[pName := PrefixState(Some(idxs[n - 1]), Some(c))] == FlatState(pName, idxs, n).states
      && st.flags == FlatState(pName, idxs, n).flags == map[0 := false]
  {
    var st := FlatState(pName, idxs, n - 1);
    if n == 1 {
      assert st.states[pName := PrefixState(Some(idxs[0]), Some(0))] == map[pName := PrefixState(Some(idxs[0]), Some(0))];
    } else {
      assert Lookup(st, pName).newIndex == Some(n - 2);
      assert st.states[pName := PrefixState(Some(idxs[n - 1]), Some(n - 1))]
        == map[pName := PrefixState(Some(idxs[n - 1]), Some(n - 1))];
    }
  }

  /** A name `pName[idx]` whose index text is new, under the single lowered flag of a flat list. */
  lemma FlatNameStep(st: State, pName: string, idx: string, c: nat, next: State)
    requires Wf(st) && PlainName(pName) && AllDigits(idx)
    requires st.flags == map[0 := false] && Lookup(st, pName).oldIndex != Some(idx)
    requires c == if Lookup(st, pName).newIndex.None? then 0 else Lookup(st, pName).newIndex.value + 1
    requires next == State(st.states[pName := PrefixState(Some(idx), Some(c))], map[0 := false])
    ensures RebaseName(st, Indexed(pName, idx)) == (next, Indexed(pName, NatToString(c)))
  {
    IndexedHasNoDot(pName, idx);
    OneSegmentName(st, Indexed(pName, idx));
    NothingBelowOne();
    ChangedStep(st, 0, pName, idx, c, next.states, next.flags);
    BracketedIsIndexed(pName, c);
  }

  /** One more item of a flat list: it takes the next counter. */
  lemma FlatListStep(items: seq<Item>, pName: string, idxs: seq<string>, n: nat)
    requires PlainName(pName) && FlatList(items, pName, idxs) && 0 < n <= |items|
    ensures RebaseName(FlatState(pName, idxs, n - 1), items[n - 1].name)
      == (FlatState(pName, idxs, n), Indexed(pName, NatToString(n - 1)))
  {
    var st := FlatState(pName, idxs, n - 1);
    var idx := idxs[n - 1];
    assert items[n - 1].name == Indexed(pName, idx) && AllDigits(idx);
    FlatStateStep(pName, idxs, n);
    assert n > 1 ==> idx != idxs[n - 2];
    FlatNameStep(st, pName, idx, n - 1, FlatState(pName, idxs, n));
  }

  /**
    Renaming the first `n` items of a flat list, from the seeded state: item `k`
    becomes `pName[k]`, whatever its original index, and the table remembers the
    last index text and counter.
   */
  lemma {:induction false} FlatListRenumbered(items: seq<Item>, pName: string, idxs: seq<string>, n: nat)
    requires PlainName(pName) && FlatList(items, pName, idxs) && n <= |items|
    ensures RenamePrefix(State(map[], map[0 := false]), items, n) == (FlatState(pName, idxs, n), Renumbered(items, pName, n))
  {
    if n > 0 {
      FlatListRenumbered(items, pName, idxs, n - 1);
      FlatListStep(items, pName, idxs, n);
    }
  }

  /**
    The documented behaviour on a whole flat form whose index texts have one
    length: the indices are renumbered 0, 1, 2, ... in order and values are kept.
   */
  lemma FlatFormRenumbered(items: seq<Item>, pName: string, idxs: seq<string>)
    requires PlainName(pName) && FlatList(items, pName, idxs) && |items| > 0
    requires forall k :: 0 <= k < |idxs| ==> |idxs[k]| == |idxs[0]|
    ensures RebasedItems(items) == Some(Renumbered(items, pName, |items|))
  {
    FlatUnsorted(items, pName, idxs);
    FlatSeed(pName, idxs[0]);
    RebasedFromSeed(items, map[0 := false]);
    FlatListRenumbered(items, pName, idxs, |items|);
  }

  /** Index texts of one length give every item of a flat list the same sort key. */
  lemma FlatUnsorted(items: seq<Item>, pName: string, idxs: seq<string>)
    requires FlatList(items, pName, idxs) && |items| > 0
    requires forall k :: 0 <= k < |idxs| ==> |idxs[k]| == |idxs[0]|
    ensures SortByLastBracket(items) == items
  {
    forall k | 0 <= k < |items| ensures SortKey(items[k]) == |pName| + |idxs[0]| + 1 {
      KeyOfClosedName(items[k]);
    }
    EqualKeysUnsorted(items);
  }

  /** A name `pName[idx]` seeds a single lowered flag at position 0. */
  lemma FlatSeed(pName: string, idx: string)
    requires PlainName(pName) && AllDigits(idx)
    ensures SeedFlags(map[], Split(Indexed(pName, idx), '.')) == map[0 := false]
  {
    var seg := Indexed(pName, idx);
    IndexedHasNoDot(pName, idx);
    SplitWithoutSeparator(seg, '.');
    assert BracketPositions([seg]) == {0};
  }

  // ---------------------------------------------------------------------------
  // A list nested one level: `a[x].b[y]`
  // ---------------------------------------------------------------------------

  /** The name `a[x].b[y]`. */
  function Nested(a: string, x: string, b: string, y: string): string {
    Indexed(a, x) + "." + Indexed(b, y)
  }

  /** The name `a[n].b[m]` written with counters. */
  function NestedOut(a: string, n: nat, b: string, m: nat): string {
    Nested(a, NatToString(n), b, NatToString(m))
  }

  /** The flags seeded from a two-level name, before and after the outer index changes. */
  const Lowered: map<nat, bool> := map[0 := false, 1 := false]
  const InnerRaised: map<nat, bool> := map[0 := false, 1 := true]

  /** With two positions seeded, a change at position 0 raises position 1, and a change at 1 raises nothing. */
  lemma TwoLevelCascade()
    ensures CascadeFrom(Lowered, 1) == InnerRaised
    ensures CascadeFrom(InnerRaised, 2) == InnerRaised
    ensures CascadeFrom(Lowered, 2) == Lowered
  {
    CascadeDense(Lowered, 2, 1);
    CascadeDense(InnerRaised, 2, 2);
    CascadeDense(Lowered, 2, 2);
  }

  /** The two property names of a nested list: plain and distinct. */
  predicate NestedPair(a: string, b: string) {
    PlainName(a) && PlainName(b) && a != b
  }

  /** Rebasing `a[x].b[y]` is the step on `a[x]` at position 0, then the step on `b[y]` at position 1. */
  lemma NestedName(st: State, a: string, x: string, b: string, y: string, mid: State, fin: State, n: nat, m: nat)
    requires Wf(st) && PlainName(a) && PlainName(b) && AllDigits(x) && AllDigits(y)
    requires SegmentStep(st, 0, Indexed(a, x)) == (mid, a + Bracketed(n))
    requires SegmentStep(mid, 1, Indexed(b, y)) == (fin, b + Bracketed(m))
    ensures Split(Nested(a, x, b, y), '.') == [Indexed(a, x), Indexed(b, y)]
    ensures RebaseName(st, Nested(a, x, b, y)) == (fin, NestedOut(a, n, b, m))
  {
    IndexedHasNoDot(a, x);
    IndexedHasNoDot(b, y);
    TwoSegmentName(st, Indexed(a, x), Indexed(b, y));
    BracketedIsIndexed(a, n);
    BracketedIsIndexed(b, m);
  }

  /** The table after the first item, before and after the inner segment. */
  function AfterOuter(a: string, x: string, n: nat): map<string, PrefixState> {
    map[a := PrefixState(Some(x), Some(n))]
  }

  function Both(a: string, x: string, n: nat, b: string, y: string, m: nat): map<string, PrefixState> {
    map[a := PrefixState(Some(x), Some(n)), b := PrefixState(Some(y), Some(m))]
  }

  /** First item, outer segment: a new name starts at 0 and raises the inner flag. */
  lemma FirstOuterStep(a: string, x0: string)
    requires PlainName(a) && AllDigits(x0)
    ensures SegmentStep(State(map[], Lowered), 0, Indexed(a, x0)) == (State(AfterOuter(a, x0, 0), InnerRaised), a + Bracketed(0))
  {
    TwoLevelCascade();
    ChangedStep(State(map[], Lowered), 0, a, x0, 0, AfterOuter(a, x0, 0), InnerRaised);
  }

  /** First item, inner segment: a new name under a raised flag starts at 0 and lowers the flag. */
  lemma FirstInnerStep(a: string, x0: string, b: string, y0: string)
    requires NestedPair(a, b) && AllDigits(y0)
    ensures SegmentStep(State(AfterOuter(a, x0, 0), InnerRaised), 1, Indexed(b, y0))
      == (State(Both(a, x0, 0, b, y0, 0), Lowered), b + Bracketed(0))
  {
    var st := State(AfterOuter(a, x0, 0), InnerRaised);
    AfterOuterUpdate(a, x0, b, y0);
    TwoLevelCascade();
    assert InnerRaised[1 := false] == Lowered;
    ResetStep(st, 1, b, y0, Both(a, x0, 0, b, y0, 0), Lowered);
  }

  lemma AfterOuterUpdate(a: string, x0: string, b: string, y0: string)
    requires a != b
    ensures Lookup(State(AfterOuter(a, x0, 0), InnerRaised), b) == PrefixState(None, None)
    ensures AfterOuter(a, x0, 0)[b := PrefixState(Some(y0), Some(0))] == Both(a, x0, 0, b, y0, 0)
  {
  }

  /** A new outer index moves the outer counter from 0 to 1 and raises the inner flag; the inner entry is kept. */
  lemma OuterChangeStep(a: string, x0: string, x1: string, b: string, y: string, m: nat)
    requires NestedPair(a, b) && AllDigits(x1) && x0 != x1
    ensures SegmentStep(State(Both(a, x0, 0, b, y, m), Lowered), 0, Indexed(a, x1))
      == (State(Both(a, x1, 1, b, y, m), InnerRaised), a + Bracketed(1))
  {
    var st := State(Both(a, x0, 0, b, y, m), Lowered);
    BothOuterUpdate(a, x0, x1, b, y, m);
    TwoLevelCascade();
    ChangedStep(st, 0, a, x1, 1, Both(a, x1, 1, b, y, m), InnerRaised);
  }

  lemma BothOuterUpdate(a: string, x0: string, x1: string, b: string, y: string, m: nat)
    requires a != b
    ensures Lookup(State(Both(a, x0, 0, b, y, m), Lowered), a) == PrefixState(Some(x0), Some(0))
    ensures Both(a, x0, 0, b, y, m)[a := PrefixState(Some(x1), Some(1))] == Both(a, x1, 1, b, y, m)
  {
  }

  lemma BothInnerUpdate(a: string, x: string, b: string, y0: string, y1: string)
    requires a != b
    ensures Lookup(State(Both(a, x, 0, b, y0, 0), Lowered), b) == PrefixState(Some(y0), Some(0))
    ensures Both(a, x, 0, b, y0, 0)[b := PrefixState(Some(y1), Some(1))] == Both(a, x, 0, b, y1, 1)
  {
  }

  /** A new inner index under lowered flags moves the inner counter from 0 to 1. */
  lemma InnerChangeStep(a: string, x: string, b: string, y0: string, y1: string)
    requires NestedPair(a, b) && AllDigits(y1) && y0 != y1
    ensures SegmentStep(State(Both(a, x, 0, b, y0, 0), Lowered), 1, Indexed(b, y1))
      == (State(Both(a, x, 0, b, y1, 1), Lowered), b + Bracketed(1))
  {
    var st := State(Both(a, x, 0, b, y0, 0), Lowered);
    BothInnerUpdate(a, x, b, y0, y1);
    TwoLevelCascade();
    ChangedStep(st, 1, b, y1, 1, Both(a, x, 0, b, y1, 1), Lowered);
  }

  /** Third item, inner segment: a new inner index meets the flag still raised and restarts at 0. */
  lemma ThirdInnerStep(a: string, x1: string, b: string, y0: string, y1: string)
    requires NestedPair(a, b) && AllDigits(y1) && y0 != y1
    ensures SegmentStep(State(Both(a, x1, 1, b, y0, 0), InnerRaised), 1, Indexed(b, y1))
      == (State(Both(a, x1, 1, b, y1, 0), Lowered), b + Bracketed(0))
  {
    var st := State(Both(a, x1, 1, b, y0, 0), InnerRaised);
    BothInnerRestart(a, x1, b, y0, y1);
    TwoLevelCascade();
    assert InnerRaised[1 := false] == Lowered;
    ResetStep(st, 1, b, y1, Both(a, x1, 1, b, y1, 0), Lowered);
  }

  lemma BothInnerLookup(a: string, x: string, n: nat, b: string, y: string, m: nat, flags: map<nat, bool>)
    requires a != b
    ensures Wf(State(Both(a, x, n, b, y, m), flags))
    ensures Lookup(State(Both(a, x, n, b, y, m), flags), b) == PrefixState(Some(y), Some(m))
  {
  }

  lemma BothInnerRestart(a: string, x1: string, b: string, y0: string, y1: string)
    requires a != b
    ensures Lookup(State(Both(a, x1, 1, b, y0, 0), InnerRaised), b) == PrefixState(Some(y0), Some(0))
    ensures Both(a, x1, 1, b, y0, 0)[b := PrefixState(Some(y1), Some(0))] == Both(a, x1, 1, b, y1, 0)
  {
  }

  /** The first item `a[x0].b[y0]` becomes `a[0].b[0]`. */
  lemma NestedFirst(a: string, x0: string, b: string, y0: string)
    requires NestedPair(a, b) && AllDigits(x0) && AllDigits(y0)
    ensures RebaseName(State(map[], Lowered), Nested(a, x0, b, y0))
      == (State(Both(a, x0, 0, b, y0, 0), Lowered), NestedOut(a, 0, b, 0))
  {
    FirstOuterStep(a, x0);
    FirstInnerStep(a, x0, b, y0);
    NestedName(State(map[], Lowered), a, x0, b, y0,
      State(AfterOuter(a, x0, 0), InnerRaised), State(Both(a, x0, 0, b, y0, 0), Lowered), 0, 0);
  }

  /**
    A new outer index `x1` with the inner index `y` unchanged becomes `a[1].b[m]`:
    the inner counter `m` is reused, not restarted, and the inner flag raised by the
    outer change stays raised.
   */
  lemma NestedOuterChange(a: string, x0: string, x1: string, b: string, y: string, m: nat)
    requires NestedPair(a, b) && AllDigits(x0) && AllDigits(x1) && AllDigits(y) && x0 != x1
    ensures RebaseName(State(Both(a, x0, 0, b, y, m), Lowered), Nested(a, x1, b, y))
      == (State(Both(a, x1, 1, b, y, m), InnerRaised), NestedOut(a, 1, b, m))
  {
    var st := State(Both(a, x0, 0, b, y, m), Lowered);
    var mid := State(Both(a, x1, 1, b, y, m), InnerRaised);
    BothInnerLookup(a, x0, 0, b, y, m, Lowered);
    BothInnerLookup(a, x1, 1, b, y, m, InnerRaised);
    OuterChangeStep(a, x0, x1, b, y, m);
    RepeatedStep(mid, 1, b, y, m);
    NestedName(st, a, x1, b, y, mid, mid, 1, m);
  }

  /** A new inner index `y1` under the same outer index `x` becomes `a[0].b[1]`. */
  lemma NestedInnerOnly(a: string, x: string, b: string, y0: string, y1: string)
    requires NestedPair(a, b) && AllDigits(x) && AllDigits(y0) && AllDigits(y1) && y0 != y1
    ensures RebaseName(State(Both(a, x, 0, b, y0, 0), Lowered), Nested(a, x, b, y1))
      == (State(Both(a, x, 0, b, y1, 1), Lowered), NestedOut(a, 0, b, 1))
  {
    var st := State(Both(a, x, 0, b, y0, 0), Lowered);
    assert Lookup(st, a) == PrefixState(Some(x), Some(0));
    RepeatedStep(st, 0, a, x, 0);
    InnerChangeStep(a, x, b, y0, y1);
    NestedName(st, a, x, b, y1, st, State(Both(a, x, 0, b, y1, 1), Lowered), 0, 1);
  }

  /**
    Then a new inner index `y1` under the same outer index `x1` also becomes
    `a[1].b[0]`: the stale flag restarts the inner counter at 0.
   */
  lemma NestedInnerChange(a: string, x1: string, b: string, y0: string, y1: string)
    requires NestedPair(a, b) && AllDigits(x1) && AllDigits(y0) && AllDigits(y1) && y0 != y1
    ensures RebaseName(State(Both(a, x1, 1, b, y0, 0), InnerRaised), Nested(a, x1, b, y1))
      == (State(Both(a, x1, 1, b, y1, 0), Lowered), NestedOut(a, 1, b, 0))
  {
    var st := State(Both(a, x1, 1, b, y0, 0), InnerRaised);
    assert Lookup(st, a) == PrefixState(Some(x1), Some(1));
    RepeatedStep(st, 0, a, x1, 1);
    ThirdInnerStep(a, x1, b, y0, y1);
    NestedName(st, a, x1, b, y1, st, State(Both(a, x1, 1, b, y1, 0), Lowered), 1, 0);
  }

  /** A nested name ends in `]`, so it sorts by its length. */
  lemma NestedKey(a: string, x: string, b: string, y: string, v: string)
    ensures SortKey(Item(Nested(a, x, b, y), v)) == |a| + |x| + |b| + |y| + 4
  {
    var name := Nested(a, x, b, y);
    assert name[|name| - 1] == Indexed(b, y)[|Indexed(b, y)| - 1] == ']';
    KeyOfClosedName(Item(name, v));
  }

  /** Both segments of a nested name are bracketed, so the first item seeds positions 0 and 1. */
  lemma NestedSeed(a: string, x: string, b: string, y: string)
    requires PlainName(a) && PlainName(b) && AllDigits(x) && AllDigits(y)
    ensures SeedFlags(map[], Split(Nested(a, x, b, y), '.')) == Lowered
  {
    IndexedHasNoDot(a, x);
    IndexedHasNoDot(b, y);
    SplitTwo(Indexed(a, x), Indexed(b, y));
    SeedTwo([Indexed(a, x), Indexed(b, y)]);
  }

  /** Two dot-free pieces joined by a dot split back into them. */
  lemma SplitTwo(a: string, b: string)
    requires '.' !in a && '.' !in b
    ensures Split(a + "." + b, '.') == [a, b]
  {
    assert Join([a, b], '.') == a + "." + b;
    SplitJoin([a, b], '.');
  }

  /** Two bracketed segments seed positions 0 and 1, lowered. */
  lemma SeedTwo(segs: seq<string>)
    requires |segs| == 2 && '[' in segs[0] && '[' in segs[1]
    ensures SeedFlags(map[], segs) == Lowered
  {
    assert HasIndexer(segs[0]) && HasIndexer(segs[1]);
    assert BracketPositions(segs) == {0, 1};
    var seeded := SeedFlags(map[], segs);
    assert seeded.Keys == Lowered.Keys;
  }

  /** A form that the sort leaves in place is renamed from the state its first item seeds. */
  lemma RebasedFromSeed(items: seq<Item>, flags: map<nat, bool>)
    requires items != [] && SortByLastBracket(items) == items
    requires SeedFlags(map[], Split(items[0].name, '.')) == flags
    ensures RebasedItems(items) == Some(RenamePrefix(State(map[], flags), items, |items|).1)
  {
  }

  /** The first item of a nested form, renamed from the seeded flags. */
  lemma NestedRenamedOne(items: seq<Item>, a: string, b: string, x0: string, y0: string)
    requires NestedPair(a, b) && AllDigits(x0) && AllDigits(y0)
    requires |items| >= 1 && items[0].name == Nested(a, x0, b, y0)
    ensures RenamePrefix(State(map[], Lowered), items, 1)
      == (State(Both(a, x0, 0, b, y0, 0), Lowered), [items[0].(name := NestedOut(a, 0, b, 0))])
  {
    var st0 := State(map[], Lowered);
    var out0 := items[0].(name := NestedOut(a, 0, b, 0));
    NestedFirst(a, x0, b, y0);
    RenameOneMore(st0, items, 0, st0, [], State(Both(a, x0, 0, b, y0, 0), Lowered), out0.name);
    assert [] + [out0] == [out0];
  }

  /** The first two items of a nested form, renamed from the seeded flags. */
  lemma NestedRenamedTwo(items: seq<Item>, a: string, b: string, x0: string, x1: string, y0: string)
    requires NestedPair(a, b) && AllDigits(x0) && AllDigits(x1) && AllDigits(y0) && x0 != x1
    requires |items| >= 2 && items[0].name == Nested(a, x0, b, y0) && items[1].name == Nested(a, x1, b, y0)
    ensures RenamePrefix(State(map[], Lowered), items, 2)
      == (State(Both(a, x1, 1, b, y0, 0), InnerRaised),
          [items[0].(name := NestedOut(a, 0, b, 0)), items[1].(name := NestedOut(a, 1, b, 0))])
  {
    var out0 := items[0].(name := NestedOut(a, 0, b, 0));
    var out1 := items[1].(name := NestedOut(a, 1, b, 0));
    NestedRenamedOne(items, a, b, x0, y0);
    NestedOuterChange(a, x0, x1, b, y0, 0);
    RenameOneMore(State(map[], Lowered), items, 1, State(Both(a, x0, 0, b, y0, 0), Lowered), [out0],
      State(Both(a, x1, 1, b, y0, 0), InnerRaised), out1.name);
    assert [out0] + [out1] == [out0, out1];
  }

  /**
    A form `a[x0].b[y0]`, `a[x1].b[y0]` (outer index changed, inner kept, index
    texts of one length) becomes `a[0].b[0]`, `a[1].b[0]`, values kept.
   */
  lemma NestedFormRebased(a: string, b: string, x0: string, x1: string, y0: string, v0: string, v1: string)
    requires NestedPair(a, b) && AllDigits(x0) && AllDigits(x1) && AllDigits(y0)
    requires x0 != x1 && |x0| == |x1|
    ensures RebasedItems([Item(Nested(a, x0, b, y0), v0), Item(Nested(a, x1, b, y0), v1)])
      == Some([Item(NestedOut(a, 0, b, 0), v0), Item(NestedOut(a, 1, b, 0), v1)])
  {
    var items := [Item(Nested(a, x0, b, y0), v0), Item(Nested(a, x1, b, y0), v1)];
    NestedKey(a, x0, b, y0, v0);
    NestedKey(a, x1, b, y0, v1);
    EqualKeysUnsorted(items);
    NestedSeed(a, x0, b, y0);
    RebasedFromSeed(items, Lowered);
    NestedRenamedTwo(items, a, b, x0, x1, y0);
  }

  /** The third item `a[x1].b[y1]` of the stale-flag form, renamed after the first two. */
  lemma NestedRenamedThree(items: seq<Item>, a: string, b: string, x0: string, x1: string, y0: string, y1: string)
    requires NestedPair(a, b) && AllDigits(x0) && AllDigits(x1) && AllDigits(y0) && AllDigits(y1)
    requires x0 != x1 && y0 != y1
    requires |items| >= 3 && items[0].name == Nested(a, x0, b, y0) && items[1].name == Nested(a, x1, b, y0)
    requires items[2].name == Nested(a, x1, b, y1)
    ensures RenamePrefix(State(map[], Lowered), items, 3).1
      == [items[0].(name := NestedOut(a, 0, b, 0)), items[1].(name := NestedOut(a, 1, b, 0)),
          items[2].(name := NestedOut(a, 1, b, 0))]
  {
    var out0 := items[0].(name := NestedOut(a, 0, b, 0));
    var out1 := items[1].(name := NestedOut(a, 1, b, 0));
    var out2 := items[2].(name := NestedOut(a, 1, b, 0));
    NestedRenamedTwo(items, a, b, x0, x1, y0);
    NestedInnerChange(a, x1, b, y0, y1);
    RenameOneMore(State(map[], Lowered), items, 2, State(Both(a, x1, 1, b, y0, 0), InnerRaised), [out0, out1],
      State(Both(a, x1, 1, b, y1, 0), Lowered), out2.name);
    assert [out0, out1] + [out2] == [out0, out1, out2];
  }

  /** Nested names with different inner index texts of one length are different names. */
  lemma NestedDistinct(a: string, x: string, b: string, y0: string, y1: string)
    requires y0 != y1 && |y0| == |y1|
    ensures Nested(a, x, b, y0) != Nested(a, x, b, y1)
  {
    var n0, n1 := Nested(a, x, b, y0), Nested(a, x, b, y1);
    assert n0[|a| + |x| + |b| + 4..|n0| - 1] == y0;
    assert n1[|a| + |x| + |b| + 4..|n1| - 1] == y1;
  }

  /**
    The reset flag raised for `b` by the change of outer index is lowered only when
    `b`'s own index text changes. In `a[x0].b[y0]`, `a[x1].b[y0]`, `a[x1].b[y1]` the
    flag is still raised at the third item, so its inner counter restarts at 0 and
    the second and third items, distinct in the form, get the same rebased name.
   */
  lemma StaleResetFlagCollides(a: string, b: string, x0: string, x1: string, y0: string, y1: string,
                               v0: string, v1: string, v2: string)
    requires NestedPair(a, b) && AllDigits(x0) && AllDigits(x1) && AllDigits(y0) && AllDigits(y1)
    requires x0 != x1 && |x0| == |x1| && y0 != y1 && |y0| == |y1|
    ensures Nested(a, x1, b, y0) != Nested(a, x1, b, y1)
    ensures RebasedItems([Item(Nested(a, x0, b, y0), v0), Item(Nested(a, x1, b, y0), v1), Item(Nested(a, x1, b, y1), v2)])
      == Some([Item(NestedOut(a, 0, b, 0), v0), Item(NestedOut(a, 1, b, 0), v1), Item(NestedOut(a, 1, b, 0), v2)])
  {
    var items := [Item(Nested(a, x0, b, y0), v0), Item(Nested(a, x1, b, y0), v1), Item(Nested(a, x1, b, y1), v2)];
    ThreeNestedFromSeed(a, b, x0, y0, x1, y0, x1, y1, v0, v1, v2);
    NestedRenamedThree(items, a, b, x0, x1, y0, y1);
    NestedDistinct(a, x1, b, y0, y1);
  }

  /** Three nested names with index texts of equal lengths: unsorted, and renamed from the flags their first name seeds. */
  lemma ThreeNestedFromSeed(a: string, b: string, x0: string, y0: string, x1: string, y1: string, x2: string, y2: string,
                            v0: string, v1: string, v2: string)
    requires NestedPair(a, b) && AllDigits(x0) && AllDigits(y0)
    requires |x0| == |x1| == |x2| && |y0| == |y1| == |y2|
    ensures var items := [Item(Nested(a, x0, b, y0), v0), Item(Nested(a, x1, b, y1), v1), Item(Nested(a, x2, b, y2), v2)];
      RebasedItems(items) == Some(RenamePrefix(State(map[], Lowered), items, 3).1)
  {
    var items := [Item(Nested(a, x0, b, y0), v0), Item(Nested(a, x1, b, y1), v1), Item(Nested(a, x2, b, y2), v2)];
    ThreeNestedUnsorted(items, a, b, x0, y0, x1, y1, x2, y2);
    NestedSeed(a, x0, b, y0);
    RebasedFromSeed(items, Lowered);
  }

  lemma ThreeNestedUnsorted(items: seq<Item>, a: string, b: string, x0: string, y0: string, x1: string, y1: string,
                            x2: string, y2: string)
    requires |x0| == |x1| == |x2| && |y0| == |y1| == |y2| && |items| == 3
    requires items[0].name == Nested(a, x0, b, y0) && items[1].name == Nested(a, x1, b, y1)
    requires items[2].name == Nested(a, x2, b, y2)
    ensures SortByLastBracket(items) == items
  {
    NestedKey(a, x0, b, y0, items[0].value);
    NestedKey(a, x1, b, y1, items[1].value);
    NestedKey(a, x2, b, y2, items[2].value);
    assert items[0] == Item(Nested(a, x0, b, y0), items[0].value);
    assert items[1] == Item(Nested(a, x1, b, y1), items[1].value);
    assert items[2] == Item(Nested(a, x2, b, y2), items[2].value);
    EqualKeysUnsorted(items);
  }

  /** The second item `a[x0].b[y1]` of the kept-counter form: only the inner counter moves. */
  lemma InnerRenamedTwo(items: seq<Item>, a: string, b: string, x0: string, y0: string, y1: string)
    requires NestedPair(a, b) && AllDigits(x0) && AllDigits(y0) && AllDigits(y1) && y0 != y1
    requires |items| >= 2 && items[0].name == Nested(a, x0, b, y0) && items[1].name == Nested(a, x0, b, y1)
    ensures RenamePrefix(State(map[], Lowered), items, 2)
      == (State(Both(a, x0, 0, b, y1, 1), Lowered),
          [items[0].(name := NestedOut(a, 0, b, 0)), items[1].(name := NestedOut(a, 0, b, 1))])
  {
    var out0 := items[0].(name := NestedOut(a, 0, b, 0));
    var out1 := items[1].(name := NestedOut(a, 0, b, 1));
    NestedRenamedOne(items, a, b, x0, y0);
    NestedInnerOnly(a, x0, b, y0, y1);
    RenameOneMore(State(map[], Lowered), items, 1, State(Both(a, x0, 0, b, y0, 0), Lowered), [out0],
      State(Both(a, x0, 0, b, y1, 1), Lowered), out1.name);
    assert [out0] + [out1] == [out0, out1];
  }

  /** The third item `a[x1].b[y1]` of the kept-counter form: the outer counter moves, the inner one is kept. */
  lemma InnerRenamedThree(items: seq<Item>, a: string, b: string, x0: string, x1: string, y0: string, y1: string)
    requires NestedPair(a, b) && AllDigits(x0) && AllDigits(x1) && AllDigits(y0) && AllDigits(y1)
    requires x0 != x1 && y0 != y1
    requires |items| >= 3 && items[0].name == Nested(a, x0, b, y0) && items[1].name == Nested(a, x0, b, y1)
    requires items[2].name == Nested(a, x1, b, y1)
    ensures RenamePrefix(State(map[], Lowered), items, 3).1
      == [items[0].(name := NestedOut(a, 0, b, 0)), items[1].(name := NestedOut(a, 0, b, 1)),
          items[2].(name := NestedOut(a, 1, b, 1))]
  {
    var out0 := items[0].(name := NestedOut(a, 0, b, 0));
    var out1 := items[1].(name := NestedOut(a, 0, b, 1));
    var out2 := items[2].(name := NestedOut(a, 1, b, 1));
    InnerRenamedTwo(items, a, b, x0, y0, y1);
    NestedOuterChange(a, x0, x1, b, y1, 1);
    RenameOneMore(State(map[], Lowered), items, 2, State(Both(a, x0, 0, b, y1, 1), Lowered), [out0, out1],
      State(Both(a, x1, 1, b, y1, 1), InnerRaised), out2.name);
    assert [out0, out1] + [out2] == [out0, out1, out2];
  }

  /**
    A change of outer index does not restart an inner counter whose index text is
    unchanged: in `a[x0].b[y0]`, `a[x0].b[y1]`, `a[x1].b[y1]` the third item keeps
    inner counter 1 and becomes `a[1].b[1]`, where a restart would give `a[1].b[0]`.
   */
  lemma InnerCounterNotRestarted(a: string, b: string, x0: string, x1: string, y0: string, y1: string,
                                 v0: string, v1: string, v2: string)
    requires NestedPair(a, b) && AllDigits(x0) && AllDigits(x1) && AllDigits(y0) && AllDigits(y1)
    requires x0 != x1 && |x0| == |x1| && y0 != y1 && |y0| == |y1|
    ensures RebasedItems([Item(Nested(a, x0, b, y0), v0), Item(Nested(a, x0, b, y1), v1), Item(Nested(a, x1, b, y1), v2)])
      == Some([Item(NestedOut(a, 0, b, 0), v0), Item(NestedOut(a, 0, b, 1), v1), Item(NestedOut(a, 1, b, 1), v2)])
  {
    var items := [Item(Nested(a, x0, b, y0), v0), Item(Nested(a, x0, b, y1), v1), Item(Nested(a, x1, b, y1), v2)];
    ThreeNestedFromSeed(a, b, x0, y0, x0, y1, x1, y1, v0, v1, v2);
    InnerRenamedThree(items, a, b, x0, x1, y0, y1);
  }

  /** Raising the flags fills the gap between occupied levels: from level 1, levels 2 and 3 are raised although only 3 was seeded. */
  lemma CascadeFillsGap()
    ensures CascadeFrom(map[0 := false, 1 := false, 3 := false], 1) == map[0 := false, 1 := true, 2 := true, 3 := true]
  {
    var f0: map<nat, bool> := map[0 := false, 1 := false, 3 := false];
    assert f0.Keys == {0, 1, 3};
    var f1 := f0[1 := true];
    assert f1.Keys == {0, 1, 3};
    assert CascadeFrom(f0, 1) == CascadeFrom(f1, 2);
    var f2 := f1[2 := true];
    assert f2.Keys == {0, 1, 2, 3};
    assert CascadeFrom(f1, 2) == CascadeFrom(f2, 3);
    var f3 := f2[3 := true];
    assert f3.Keys == {0, 1, 2, 3};
    assert CascadeFrom(f2, 3) == CascadeFrom(f3, 4) == f3;
  }

  /** A property name that ends in digits loses them, since the pattern's run of digits starts before the bracket: `Line1[5]` becomes `Line[0]`. */
  lemma TrailingDigitsAbsorbed()
    ensures SegmentStep(Initial(), 0, "Line1[5]").1 == "Line[0]"
  {
    assert AllDigits("1") && AllDigits("5") && !IsDigit('e');
    FirstSightDropsDigits("Line", "1", "5");
    LineText();
  }

  /** The texts of the trailing-digit case, spelled out. */
  lemma LineText()
    ensures "Line" + "1" + "[" + "5" + "]" + "" == "Line1[5]"
    ensures "Line" + Bracketed(0) == "Line[0]"
  {
    assert NatToString(0) == "0";
  }

  /** A name first seen, ending in digits: the digits go with the index and the counter is 0. */
  lemma FirstSightDropsDigits(stem: string, digits: string, idx: string)
    requires '[' !in stem && ']' !in stem && AllDigits(digits) && AllDigits(idx)
    requires stem == [] || !IsDigit(stem[|stem| - 1])
    ensures SegmentStep(Initial(), 0, stem + digits + "[" + idx + "]" + "").1 == stem + Bracketed(0)
  {
    var seg := stem + digits + "[" + idx + "]" + "";
    RewrittenSegment(Initial(), 0, stem, digits, idx, "");
    ChangedIndexCounter(Initial(), 0, seg);
    assert stem + Bracketed(0) + "" == stem + Bracketed(0);
  }
}
