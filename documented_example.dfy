/**
  The example of the plugin's documentation, in full: a list property below two
  indexed parents and a plain property, `c[0].e[0].p.l[idx]`. The seeding leaves a
  gap at the plain segment's position, the cascade fills it, and the parents'
  counters are read again unchanged on every item, while the list's counter runs
  0, 1, 2, ... Proved for every name of that shape, then for the documented names.
 */
module DocumentedExample {
  import opened JsText
  import opened RebaseSpec
  import opened RebaseScenarios

  /** The name `c[0].e[0].p.l[idx]`. */
  function Deep(c: string, e: string, p: string, l: string, idx: string): string {
    Indexed(c, "0") + "." + Indexed(e, "0") + "." + p + "." + Indexed(l, idx)
  }

  /** Three distinct indexed property names and a plain one between them and the list. */
  predicate DeepNames(c: string, e: string, p: string, l: string) {
    && PlainName(c) && PlainName(e) && PlainName(l)
    && c != e && c != l && e != l
    && p != "" && '[' !in p && '.' !in p
  }

  /** The flags seeded from `c[0].e[0].p.l[idx]`: positions 0, 1 and 3, lowered. */
  const DeepSeed: map<nat, bool> := map[0 := false, 1 := false, 3 := false]
  /** After the change at position 0: the gap at 2 is filled, 1 to 3 raised. */
  const DeepFilled: map<nat, bool> := map[0 := false, 1 := true, 2 := true, 3 := true]
  /** After the change at position 1 lowers its own flag. */
  const DeepParentsDone: map<nat, bool> := map[0 := false, 1 := false, 2 := true, 3 := true]
  /** After the change at position 3 lowers its own flag; position 2 is never lowered. */
  const DeepSettled: map<nat, bool> := map[0 := false, 1 := false, 2 := true, 3 := false]

  /** A name seen with index text `0` and counter 0. */
  const Zero := PrefixState(Some("0"), Some(0))

  function Parents(c: string, e: string): map<string, PrefixState> {
    map[c := Zero, e := Zero]
  }

  function DeepTable(c: string, e: string, l: string, idx: string, n: nat): map<string, PrefixState> {
    map[c := Zero, e := Zero, l := PrefixState(Some(idx), Some(n))]
  }

  /** The change at position 0 of the first item fills the gap and raises positions 1 to 3. */
  lemma SeedCascade()
    ensures CascadeFrom(DeepSeed, 1) == DeepFilled
  {
    CascadeFillsGap();
  }

  /** The change at position 1 of the first item raises nothing new; its own flag is lowered. */
  lemma ParentCascade()
    ensures CascadeFrom(DeepFilled, 2)[1 := false] == DeepParentsDone
  {
    var f := DeepFilled;
    assert f.Keys == {0, 1, 2, 3};
    assert f[2 := true] == f;
    assert CascadeFrom(f, 2) == CascadeFrom(f, 3);
    assert f[3 := true] == f;
    assert CascadeFrom(f, 3) == CascadeFrom(f, 4) == f;
  }

  /** From position 4 nothing is raised: there are only four flags. */
  lemma LastCascade(f: map<nat, bool>)
    requires f.Keys == {0, 1, 2, 3}
    ensures CascadeFrom(f, 4) == f
  {
    assert |f.Keys| == 4;
  }

  /** The cascades the list segment meets: from the parents' flags, and from the settled flags. */
  lemma ListCascades()
    ensures CascadeFrom(DeepParentsDone, 4)[3 := false] == DeepSettled
    ensures CascadeFrom(DeepSettled, 4) == DeepSettled
  {
    assert DeepParentsDone.Keys == {0, 1, 2, 3};
    LastCascade(DeepParentsDone);
    assert DeepSettled.Keys == {0, 1, 2, 3};
    LastCascade(DeepSettled);
  }

  /** Four pieces joined with dots. */
  lemma JoinFour(a: string, b: string, c: string, d: string)
    ensures Join([a, b, c, d], '.') == a + "." + b + "." + c + "." + d
  {
    var parts := [a, b, c, d];
    assert parts[1..] == [b, c, d] && parts[2..] == [c, d] && parts[3..] == [d];
    assert Join([c, d], '.') == c + "." + d;
    assert Join([b, c, d], '.') == b + "." + (c + "." + d);
    assert Join(parts, '.') == a + "." + (b + "." + (c + "." + d));
  }

  /** A name of four dot-free segments splits into them. */
  lemma SplitFour(s0: string, s1: string, s2: string, s3: string)
    requires '.' !in s0 && '.' !in s1 && '.' !in s2 && '.' !in s3
    ensures Split(s0 + "." + s1 + "." + s2 + "." + s3, '.') == [s0, s1, s2, s3]
  {
    JoinFour(s0, s1, s2, s3);
    SplitJoin([s0, s1, s2, s3], '.');
  }

  /** A name of four dot-free segments is the four segment steps in order, joined with dots. */
  lemma FourSegmentName(st: State, s0: string, s1: string, s2: string, s3: string,
                        t1: State, t2: State, t3: State, t4: State, o0: string, o1: string, o2: string, o3: string)
    requires Wf(st) && '.' !in s0 && '.' !in s1 && '.' !in s2 && '.' !in s3 && o0 != ""
    requires SegmentStep(st, 0, s0) == (t1, o0)
    requires SegmentStep(t1, 1, s1) == (t2, o1)
    requires SegmentStep(t2, 2, s2) == (t3, o2)
    requires SegmentStep(t3, 3, s3) == (t4, o3)
    ensures RebaseName(st, s0 + "." + s1 + "." + s2 + "." + s3) == (t4, o0 + "." + o1 + "." + o2 + "." + o3)
  {
    SplitFour(s0, s1, s2, s3);
    RewriteFour(st, [s0, s1, s2, s3], t1, t2, t3, t4, o0, o1, o2, o3);
    JoinRebasedFour(o0, o1, o2, o3);
  }

  /** Four rewritten segments, the first non-empty, are joined with three dots. */
  lemma JoinRebasedFour(o0: string, o1: string, o2: string, o3: string)
    requires o0 != ""
    ensures JoinRebased([o0, o1, o2, o3]) == o0 + "." + o1 + "." + o2 + "." + o3
  {
    JoinRebasedIsJoin([o0, o1, o2, o3]);
    JoinFour(o0, o1, o2, o3);
  }

  /** Four segments rewritten in order. */
  lemma RewriteFour(st: State, segs: seq<string>, t1: State, t2: State, t3: State, t4: State,
                    o0: string, o1: string, o2: string, o3: string)
    requires Wf(st) && |segs| == 4
    requires SegmentStep(st, 0, segs[0]) == (t1, o0)
    requires SegmentStep(t1, 1, segs[1]) == (t2, o1)
    requires SegmentStep(t2, 2, segs[2]) == (t3, o2)
    requires SegmentStep(t3, 3, segs[3]) == (t4, o3)
    ensures RewritePrefix(st, segs, 4) == (t4, [o0, o1, o2, o3])
  {
    RewriteOneMore(st, segs, 0, st, [], t1, o0);
    assert [] + [o0] == [o0];
    RewriteOneMore(st, segs, 1, t1, [o0], t2, o1);
    assert [o0] + [o1] == [o0, o1];
    RewriteOneMore(st, segs, 2, t2, [o0, o1], t3, o2);
    assert [o0, o1] + [o2] == [o0, o1, o2];
    RewriteOneMore(st, segs, 3, t3, [o0, o1, o2], t4, o3);
    assert [o0, o1, o2] + [o3] == [o0, o1, o2, o3];
  }

  /** The first segment of the first item: a new name, not flagged, starts at 0 and raises 1 to 3. */
  lemma FirstParentStep(c: string)
    requires PlainName(c)
    ensures SegmentStep(State(map[], DeepSeed), 0, Indexed(c, "0")) == (State(map[c := Zero], DeepFilled), c + Bracketed(0))
  {
    SeedCascade();
    ChangedStep(State(map[], DeepSeed), 0, c, "0", 0, map[c := Zero], DeepFilled);
  }

  /** The second segment of the first item: flagged, so it restarts at 0 and lowers its flag. */
  lemma SecondParentStep(c: string, e: string)
    requires PlainName(e) && c != e
    ensures SegmentStep(State(map[c := Zero], DeepFilled), 1, Indexed(e, "0"))
      == (State(Parents(c, e), DeepParentsDone), e + Bracketed(0))
  {
    ParentCascade();
    ResetStep(State(map[c := Zero], DeepFilled), 1, e, "0", Parents(c, e), DeepParentsDone);
  }

  /** The list segment of the first item: flagged, so it starts at 0 and lowers its flag. */
  lemma FirstListStep(c: string, e: string, l: string, x: string)
    requires PlainName(l) && c != l && e != l && AllDigits(x)
    ensures SegmentStep(State(Parents(c, e), DeepParentsDone), 3, Indexed(l, x))
      == (State(DeepTable(c, e, l, x, 0), DeepSettled), l + Bracketed(0))
  {
    ListCascades();
    assert Parents(c, e)[l := PrefixState(Some(x), Some(0))] == DeepTable(c, e, l, x, 0);
    ResetStep(State(Parents(c, e), DeepParentsDone), 3, l, x, DeepTable(c, e, l, x, 0), DeepSettled);
  }

  /** The list segment of a later item with a new index text: not flagged, so its counter moves on by one. */
  lemma NextListStep(c: string, e: string, l: string, x: string, y: string, n: nat)
    requires PlainName(l) && c != l && e != l && AllDigits(y) && x != y
    ensures SegmentStep(State(DeepTable(c, e, l, x, n), DeepSettled), 3, Indexed(l, y))
      == (State(DeepTable(c, e, l, y, n + 1), DeepSettled), l + Bracketed(n + 1))
  {
    var st := State(DeepTable(c, e, l, x, n), DeepSettled);
    DeepTableUpdate(c, e, l, x, y, n);
    ListCascades();
    ChangedStep(st, 3, l, y, n + 1, DeepTable(c, e, l, y, n + 1), DeepSettled);
  }

  /** The list entry of the table, read and moved on to a new index text. */
  lemma DeepTableUpdate(c: string, e: string, l: string, x: string, y: string, n: nat)
    requires c != l && e != l
    ensures Lookup(State(DeepTable(c, e, l, x, n), DeepSettled), l) == PrefixState(Some(x), Some(n))
    ensures DeepTable(c, e, l, x, n)[l := PrefixState(Some(y), Some(n + 1))] == DeepTable(c, e, l, y, n + 1)
  {
  }

  /** The parents of a later item have the index text already seen: nothing changes. */
  lemma ParentsAgain(c: string, e: string, l: string, x: string, n: nat)
    requires PlainName(c) && PlainName(e) && c != e && c != l && e != l
    ensures var st := State(DeepTable(c, e, l, x, n), DeepSettled);
      SegmentStep(st, 0, Indexed(c, "0")) == (st, c + Bracketed(0))
      && SegmentStep(st, 1, Indexed(e, "0")) == (st, e + Bracketed(0))
  {
    var st := State(DeepTable(c, e, l, x, n), DeepSettled);
    assert Lookup(st, c) == Zero && Lookup(st, e) == Zero;
    RepeatedStep(st, 0, c, "0", 0);
    RepeatedStep(st, 1, e, "0", 0);
  }

  /** The segments of `c[0].e[0].p.l[idx]` hold no dot. */
  lemma DeepNoDots(c: string, e: string, p: string, l: string, x: string)
    requires DeepNames(c, e, p, l) && AllDigits(x)
    ensures '.' !in Indexed(c, "0") && '.' !in Indexed(e, "0") && '.' !in p && '.' !in Indexed(l, x)
  {
    IndexedHasNoDot(c, "0");
    IndexedHasNoDot(e, "0");
    IndexedHasNoDot(l, x);
  }

  /** The rewritten name with the parents at 0 and the list at counter `n`. */
  lemma DeepOutput(c: string, e: string, p: string, l: string, n: nat)
    ensures c + Bracketed(0) + "." + (e + Bracketed(0)) + "." + p + "." + (l + Bracketed(n))
      == Deep(c, e, p, l, NatToString(n))
  {
    assert NatToString(0) == "0";
    BracketedIsIndexed(c, 0);
    BracketedIsIndexed(e, 0);
    BracketedIsIndexed(l, n);
  }

  /** The first item, from the seeded flags: every counter starts at 0. */
  lemma DeepFirst(c: string, e: string, p: string, l: string, x: string)
    requires DeepNames(c, e, p, l) && AllDigits(x)
    ensures RebaseName(State(map[], DeepSeed), Deep(c, e, p, l, x))
      == (State(DeepTable(c, e, l, x, 0), DeepSettled), Deep(c, e, p, l, NatToString(0)))
  {
    var t2 := State(Parents(c, e), DeepParentsDone);
    FirstParentStep(c);
    SecondParentStep(c, e);
    FirstListStep(c, e, l, x);
    DeepNoDots(c, e, p, l, x);
    FourSegmentName(State(map[], DeepSeed), Indexed(c, "0"), Indexed(e, "0"), p, Indexed(l, x),
      State(map[c := Zero], DeepFilled), t2, t2, State(DeepTable(c, e, l, x, 0), DeepSettled),
      c + Bracketed(0), e + Bracketed(0), p, l + Bracketed(0));
    DeepOutput(c, e, p, l, 0);
  }

  /** A later item with a new list index: the parents stay at 0 and the list counter moves on by one. */
  lemma DeepNext(c: string, e: string, p: string, l: string, x: string, y: string, n: nat)
    requires DeepNames(c, e, p, l) && AllDigits(y) && x != y
    ensures RebaseName(State(DeepTable(c, e, l, x, n), DeepSettled), Deep(c, e, p, l, y))
      == (State(DeepTable(c, e, l, y, n + 1), DeepSettled), Deep(c, e, p, l, NatToString(n + 1)))
  {
    var st := State(DeepTable(c, e, l, x, n), DeepSettled);
    ParentsAgain(c, e, l, x, n);
    NextListStep(c, e, l, x, y, n);
    DeepNoDots(c, e, p, l, y);
    FourSegmentName(st, Indexed(c, "0"), Indexed(e, "0"), p, Indexed(l, y),
      st, st, st, State(DeepTable(c, e, l, y, n + 1), DeepSettled),
      c + Bracketed(0), e + Bracketed(0), p, l + Bracketed(n + 1));
    DeepOutput(c, e, p, l, n + 1);
  }

  /** Four segments of which all but the third are bracketed seed positions 0, 1 and 3. */
  lemma SeedFour(s0: string, s1: string, s2: string, s3: string)
    requires '[' in s0 && '[' in s1 && '[' !in s2 && '[' in s3
    ensures SeedFlags(map[], [s0, s1, s2, s3]) == DeepSeed
  {
    var segs := [s0, s1, s2, s3];
    assert BracketPositions(segs) == {0, 1, 3} by {
      forall k: nat ensures k in BracketPositions(segs) <==> k in {0, 1, 3} {
        if k < 4 {
          assert k in BracketPositions(segs) <==> HasIndexer(segs[k]);
        }
      }
    }
    var seeded := SeedFlags(map[], segs);
    assert seeded.Keys == DeepSeed.Keys;
  }

  /** The first item seeds positions 0, 1 and 3, skipping the plain segment at 2. */
  lemma DeepSeeded(c: string, e: string, p: string, l: string, x: string)
    requires DeepNames(c, e, p, l) && AllDigits(x)
    ensures SeedFlags(map[], Split(Deep(c, e, p, l, x), '.')) == DeepSeed
  {
    DeepNoDots(c, e, p, l, x);
    SplitFour(Indexed(c, "0"), Indexed(e, "0"), p, Indexed(l, x));
    SeedFour(Indexed(c, "0"), Indexed(e, "0"), p, Indexed(l, x));
  }

  // ---------------------------------------------------------------------------
  // A whole list of such names
  // ---------------------------------------------------------------------------

  /** The items are `c[0].e[0].p.l[idxs[k]]`, each list index differing from the one before. */
  predicate DeepList(items: seq<Item>, c: string, e: string, p: string, l: string, idxs: seq<string>) {
    && |items| == |idxs|
    && (forall k :: 0 <= k < |idxs| ==> AllDigits(idxs[k]) && items[k].name == Deep(c, e, p, l, idxs[k]))
    && (forall k :: 0 < k < |idxs| ==> idxs[k] != idxs[k - 1])
  }

  /** The state after the first `n` items of such a list. */
  function DeepListState(c: string, e: string, l: string, idxs: seq<string>, n: nat): State
    requires n <= |idxs|
  {
    if n == 0 then State(map[], DeepSeed) else State(DeepTable(c, e, l, idxs[n - 1], n - 1), DeepSettled)
  }

  /** The first `n` items with item `k` renamed to `c[0].e[0].p.l[k]`. */
  function DeepRenumbered(items: seq<Item>, c: string, e: string, p: string, l: string, n: nat): (r: seq<Item>)
    requires n <= |items|
    ensures |r| == n
    ensures forall k :: 0 <= k < n ==> r[k].value == items[k].value
  {
    if n == 0 then [] else DeepRenumbered(items, c, e, p, l, n - 1) + [items[n - 1].(name := Deep(c, e, p, l, NatToString(n - 1)))]
  }

  /** One more item of the list: its list index takes the next counter. */
  lemma DeepListStep(items: seq<Item>, c: string, e: string, p: string, l: string, idxs: seq<string>, n: nat)
    requires DeepNames(c, e, p, l) && DeepList(items, c, e, p, l, idxs) && 0 < n <= |items|
    ensures RebaseName(DeepListState(c, e, l, idxs, n - 1), items[n - 1].name)
      == (DeepListState(c, e, l, idxs, n), Deep(c, e, p, l, NatToString(n - 1)))
  {
    var name := items[n - 1].name;
    assert name == Deep(c, e, p, l, idxs[n - 1]) && AllDigits(idxs[n - 1]);
    if n == 1 {
      assert DeepListState(c, e, l, idxs, 0) == State(map[], DeepSeed);
      assert DeepListState(c, e, l, idxs, 1) == State(DeepTable(c, e, l, idxs[0], 0), DeepSettled);
      DeepFirst(c, e, p, l, idxs[0]);
    } else {
      var m: nat := n - 2;
      assert idxs[n - 1] != idxs[m];
      assert DeepListState(c, e, l, idxs, n - 1) == State(DeepTable(c, e, l, idxs[m], m), DeepSettled);
      assert DeepListState(c, e, l, idxs, n) == State(DeepTable(c, e, l, idxs[n - 1], m + 1), DeepSettled);
      DeepNext(c, e, p, l, idxs[m], idxs[n - 1], m);
    }
  }

  /** Renaming the first `n` items from the seeded flags: item `k` becomes `c[0].e[0].p.l[k]`. */
  lemma {:induction false} DeepListRenumbered(items: seq<Item>, c: string, e: string, p: string, l: string, idxs: seq<string>, n: nat)
    requires DeepNames(c, e, p, l) && DeepList(items, c, e, p, l, idxs) && n <= |items|
    ensures RenamePrefix(State(map[], DeepSeed), items, n)
      == (DeepListState(c, e, l, idxs, n), DeepRenumbered(items, c, e, p, l, n))
  {
    if n > 0 {
      DeepListRenumbered(items, c, e, p, l, idxs, n - 1);
      DeepListStep(items, c, e, p, l, idxs, n);
    }
  }

  /** Such a name ends in `]`, so it sorts by its length. */
  lemma DeepKey(c: string, e: string, p: string, l: string, x: string, it: Item)
    requires it.name == Deep(c, e, p, l, x)
    ensures SortKey(it) == |c| + |e| + |p| + |l| + |x| + 10
  {
    var last := Indexed(l, x);
    assert it.name[|it.name| - 1] == last[|last| - 1] == ']';
    KeyOfClosedName(it);
  }

  /**
    A whole form of such names whose list index texts have one length: the list
    indices are renumbered 0, 1, 2, ... in order, the parents' indices and the
    plain segment are kept, and so are the values.
   */
  lemma DeepFormRenumbered(items: seq<Item>, c: string, e: string, p: string, l: string, idxs: seq<string>)
    requires DeepNames(c, e, p, l) && DeepList(items, c, e, p, l, idxs) && |items| > 0
    requires forall k :: 0 <= k < |idxs| ==> |idxs[k]| == |idxs[0]|
    ensures RebasedItems(items) == Some(DeepRenumbered(items, c, e, p, l, |items|))
  {
    forall k | 0 <= k < |items| ensures SortKey(items[k]) == SortKey(items[0]) {
      DeepKey(c, e, p, l, idxs[k], items[k]);
      DeepKey(c, e, p, l, idxs[0], items[0]);
    }
    EqualKeysUnsorted(items);
    DeepSeeded(c, e, p, l, idxs[0]);
    DeepListRenumbered(items, c, e, p, l, idxs, |items|);
  }

  // ---------------------------------------------------------------------------
  // The documented names
  // ---------------------------------------------------------------------------

  // The literal texts of the documented example are compared in small pieces below:
  // one equality of long string literals is far more costly for the verifier than
  // several short ones.

  /** The documented property names are of the shape. */
  lemma DocumentedShape()
    ensures DeepNames("Company", "Entity", "Property", "ListOfEmails")
  {
  }

  /** A documented name with a one-digit list index `d`. */
  lemma DocumentedName(d: char)
    ensures Deep("Company", "Entity", "Property", "ListOfEmails", [d]) == "Company[0].Entity[0].Property.ListOfEmails[" + [d] + "]"
  {
    DeepSpelled("Company", "Entity", "Property", "ListOfEmails", [d]);
    DocumentedPrefix();
  }

  /** `c[0].e[0].p.l[idx]` is a fixed prefix, then the index text, then `]`. */
  lemma DeepSpelled(c: string, e: string, p: string, l: string, idx: string)
    ensures Deep(c, e, p, l, idx) == DeepPrefix(c, e, p, l) + idx + "]"
  {
  }

  /** The text of `c[0].e[0].p.l[idx]` before the index text. */
  function DeepPrefix(c: string, e: string, p: string, l: string): string {
    Indexed(c, "0") + "." + Indexed(e, "0") + "." + p + "." + l + "["
  }

  /** The documented prefix, as written. */
  lemma DocumentedPrefix()
    ensures DeepPrefix("Company", "Entity", "Property", "ListOfEmails") == "Company[0].Entity[0].Property.ListOfEmails["
  {
    PrefixHalves("Company", "Entity", "Property", "ListOfEmails");
    ParentsText();
    ListText();
    JoinedText();
  }

  /** The prefix is the parents' part, then the plain segment and the list name. */
  lemma PrefixHalves(c: string, e: string, p: string, l: string)
    ensures DeepPrefix(c, e, p, l) == (Indexed(c, "0") + "." + Indexed(e, "0") + ".") + (p + "." + l + "[")
  {
  }

  lemma ParentsText()
    ensures Indexed("Company", "0") + "." + Indexed("Entity", "0") + "." == "Company[0].Entity[0]."
  {
    assert Indexed("Company", "0") + "." == "Company[0].";
    assert Indexed("Entity", "0") + "." == "Entity[0].";
  }

  lemma ListText()
    ensures "Property" + "." + "ListOfEmails" + "[" == "Property.ListOfEmails["
  {
  }

  lemma JoinedText()
    ensures "Company[0].Entity[0]." + "Property.ListOfEmails[" == "Company[0].Entity[0].Property.ListOfEmails["
  {
  }

  /** The documented names, before and after, as written. */
  lemma DocumentedNames()
    ensures Deep("Company", "Entity", "Property", "ListOfEmails", "2") == "Company[0].Entity[0].Property.ListOfEmails[2]"
    ensures Deep("Company", "Entity", "Property", "ListOfEmails", "4") == "Company[0].Entity[0].Property.ListOfEmails[4]"
    ensures Deep("Company", "Entity", "Property", "ListOfEmails", "8") == "Company[0].Entity[0].Property.ListOfEmails[8]"
    ensures Deep("Company", "Entity", "Property", "ListOfEmails", NatToString(0)) == "Company[0].Entity[0].Property.ListOfEmails[0]"
    ensures Deep("Company", "Entity", "Property", "ListOfEmails", NatToString(1)) == "Company[0].Entity[0].Property.ListOfEmails[1]"
    ensures Deep("Company", "Entity", "Property", "ListOfEmails", NatToString(2)) == "Company[0].Entity[0].Property.ListOfEmails[2]"
  {
    assert NatToString(0) == "0" && NatToString(1) == "1" && NatToString(2) == "2";
    DocumentedName('2');
    DocumentedName('4');
    DocumentedName('8');
    DocumentedName('0');
    DocumentedName('1');
  }

  /** The documented form is a list of that shape with list index texts `2`, `4`, `8`. */
  lemma DocumentedIsDeepList(items: seq<Item>, a: string, b: string, v: string)
    requires items == [Item("Company[0].Entity[0].Property.ListOfEmails[2]", a),
                       Item("Company[0].Entity[0].Property.ListOfEmails[4]", b),
                       Item("Company[0].Entity[0].Property.ListOfEmails[8]", v)]
    ensures DeepList(items, "Company", "Entity", "Property", "ListOfEmails", ["2", "4", "8"])
  {
    DocumentedNames();
  }

  /** The documented form renumbered. */
  lemma DocumentedRenumbered(items: seq<Item>, a: string, b: string, v: string)
    requires items == [Item("Company[0].Entity[0].Property.ListOfEmails[2]", a),
                       Item("Company[0].Entity[0].Property.ListOfEmails[4]", b),
                       Item("Company[0].Entity[0].Property.ListOfEmails[8]", v)]
    ensures DeepRenumbered(items, "Company", "Entity", "Property", "ListOfEmails", 3)
      == [Item("Company[0].Entity[0].Property.ListOfEmails[0]", a),
          Item("Company[0].Entity[0].Property.ListOfEmails[1]", b),
          Item("Company[0].Entity[0].Property.ListOfEmails[2]", v)]
  {
    DocumentedNames();
    var r1 := DeepRenumbered(items, "Company", "Entity", "Property", "ListOfEmails", 1);
    var r2 := DeepRenumbered(items, "Company", "Entity", "Property", "ListOfEmails", 2);
    assert r1 == [Item("Company[0].Entity[0].Property.ListOfEmails[0]", a)];
    assert r2 == r1 + [Item("Company[0].Entity[0].Property.ListOfEmails[1]", b)];
  }

  /**
    The documented example: `Company[0].Entity[0].Property.ListOfEmails[2]`, `[4]`
    and `[8]` become `...ListOfEmails[0]`, `[1]` and `[2]`, with `Company[0]` and
    `Entity[0]` kept and every value in place.
   */
  lemma DocumentedExample(a: string, b: string, v: string)
    ensures RebasedItems([Item("Company[0].Entity[0].Property.ListOfEmails[2]", a),
                          Item("Company[0].Entity[0].Property.ListOfEmails[4]", b),
                          Item("Company[0].Entity[0].Property.ListOfEmails[8]", v)])
      == Some([Item("Company[0].Entity[0].Property.ListOfEmails[0]", a),
               Item("Company[0].Entity[0].Property.ListOfEmails[1]", b),
               Item("Company[0].Entity[0].Property.ListOfEmails[2]", v)])
  {
    var items := [Item("Company[0].Entity[0].Property.ListOfEmails[2]", a),
                  Item("Company[0].Entity[0].Property.ListOfEmails[4]", b),
                  Item("Company[0].Entity[0].Property.ListOfEmails[8]", v)];
    DocumentedShape();
    DocumentedIsDeepList(items, a, b, v);
    DeepFormRenumbered(items, "Company", "Entity", "Property", "ListOfEmails", ["2", "4", "8"]);
    DocumentedRenumbered(items, a, b, v);
  }
}
