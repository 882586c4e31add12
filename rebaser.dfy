/**
  The rebaser as the source runs it: the `temp` object becomes a single-use
  `Rebaser` whose two fields the helpers update in place, the segments of a name
  are rewritten in place in an array, and the form is an array of items that is
  sorted and then renamed item by item. Every method is tied to the functions of
  `RebaseSpec`, where the properties of the algorithm are proved.
 */
module Rebaser {
  import opened JsText
  import opened RebaseSpec

  /** `temp`: one entry per bare property name, and `temp.resetObjectIndex`. */
  class Rebaser {
    var states: map<string, PrefixState>
    var flags: map<nat, bool>

    /** The fields as a value of the specification. */
    function Snapshot(): State
      reads this
    {
      State(states, flags)
    }

    ghost predicate Valid()
      reads this
    {
      Wf(Snapshot())
    }

    /** `var temp = { resetObjectIndex: {} }`. */
    constructor ()
      ensures Snapshot() == Initial() && Valid()
    {
      states := map[];
      flags := map[];
    }

    /** `setChildIndexesToBeReset`: raises the flags from `currentIndex + 1` on, with a bound re-read every round. */
    method SetChildIndexesToBeReset(currentIndex: nat)
      modifies this
      ensures flags == CascadeFrom(old(flags), currentIndex + 1)
      ensures states == old(states)
    {
      var i := currentIndex + 1;
      ghost var bound := KeyBound(flags.Keys);
      while i < |flags.Keys|
        invariant CascadeFrom(flags, i) == CascadeFrom(old(flags), currentIndex + 1)
        invariant forall k :: k in flags ==> k < bound
        invariant states == old(states)
        decreases bound - i
      {
        CardBelow(flags.Keys, bound);
        ghost var before := flags;
        flags := flags[i := true];
        assert CascadeFrom(before, i) == CascadeFrom(flags, i + 1);
        i := i + 1;
      }
      assert CascadeFrom(flags, i) == flags;
    }

    /** `resetChildIndex`: a raised flag at `currentIndex` is lowered and the name's index forgotten. */
    method ResetChildIndex(currentIndex: nat, pName: string)
      requires pName in states
      modifies this
      ensures var raised := currentIndex in old(flags) && old(flags)[currentIndex];
        && flags == (if raised then old(flags)[currentIndex := false] else old(flags))
        && states == (if raised then old(states)[pName := old(states)[pName].(newIndex := None)] else old(states))
    {
      if currentIndex in flags && flags[currentIndex] {
        flags := flags[currentIndex := false];
        states := states[pName := states[pName].(newIndex := None)];
      }
    }

    /** `incrementObjectIndex`: records the index text and starts the counter at 0 or moves it on by one. */
    method IncrementObjectIndex(pIndex: string, pName: string)
      requires pName in states
      modifies this
      ensures flags == old(flags)
      ensures states == old(states)[pName := PrefixState(Some(pIndex),
        Some(if old(states)[pName].newIndex.None? then 0 else old(states)[pName].newIndex.value + 1))]
    {
      var n := if states[pName].newIndex.None? then 0 else states[pName].newIndex.value + 1;
      states := states[pName := PrefixState(Some(pIndex), Some(n))];
    }

    /** The body of the loop of `rebaseProperties` for segment `seg` at position `i`. */
    method RebaseSegment(i: nat, seg: string) returns (out: string)
      requires Valid()
      modifies this
      ensures Valid()
      ensures (Snapshot(), out) == SegmentStep(old(Snapshot()), i, seg)
    {
      out := seg;
      if HasIndexer(seg) {
        var pIndex := IndexText(seg);
        var pName := PropertyName(seg);
        ghost var prev := Lookup(Snapshot(), pName);
        if pName !in states {
          states := states[pName := PrefixState(None, None)];
        }
        assert states[pName] == prev;
        if states[pName].oldIndex != Some(pIndex) {
          ghost var cascaded := CascadeFrom(flags, i + 1);
          ghost var reset := i in cascaded && cascaded[i];
          ghost var n: nat := if reset || prev.newIndex.None? then 0 else prev.newIndex.value + 1;
          SetChildIndexesToBeReset(i);
          ResetChildIndex(i, pName);
          IncrementObjectIndex(pIndex, pName);
          assert flags == if reset then cascaded[i := false] else cascaded;
          assert states == old(states)[pName := PrefixState(Some(pIndex), Some(n))];
        } else {
          assert states == old(states);
        }
        out := ReplaceIndexer(seg, Bracketed(states[pName].newIndex.value));
      }
    }

    /** `rebaseProperties`: rewrites every segment in place, in order, and joins them. */
    method RebaseProperties(properties: array<string>) returns (rebasedProp: string)
      requires Valid()
      modifies this, properties
      ensures Valid()
      ensures (Snapshot(), properties[..]) == RewritePrefix(old(Snapshot()), old(properties[..]), properties.Length)
      ensures rebasedProp == JoinRebased(properties[..])
    {
      ghost var segs := properties[..];
      ghost var st0 := Snapshot();
      rebasedProp := "";
      var i := 0;
      while i < properties.Length
        invariant 0 <= i <= properties.Length
        invariant Valid()
        invariant forall j :: i <= j < properties.Length ==> properties[j] == segs[j]
        invariant (Snapshot(), properties[..i]) == RewritePrefix(st0, segs, i)
        invariant rebasedProp == JoinRebased(properties[..i])
      {
        ghost var before := RewritePrefix(st0, segs, i);
        ghost var done := properties[..i];
        var out := RebaseSegment(i, properties[i]);
        properties[i] := out;
        assert properties[..i] == done;
        SliceSnoc(properties[..], i + 1);
        RewriteOneMore(st0, segs, i, before.0, done, Snapshot(), out);
        JoinRebasedSnoc(done, out);
        rebasedProp := rebasedProp + (if rebasedProp == "" then out else "." + out);
        i := i + 1;
      }
      assert properties[..i] == properties[..];
    }

    /** `rebaseFormProperty`: splits the name on `.` and rebases its segments. */
    method RebaseFormProperty(name: string) returns (rebased: string)
      requires Valid()
      modifies this
      ensures Valid()
      ensures (Snapshot(), rebased) == RebaseName(old(Snapshot()), name)
    {
      var parts := Split(name, '.');
      var properties := new string[|parts|](k => if 0 <= k < |parts| then parts[k] else "");
      assert properties[..] == parts;
      // `properties.length` is never 0, since a split gives at least one piece
      rebased := RebaseProperties(properties);
    }

    /**
      `getPropertyLevels`: sorts the form in place, descending by the position of the
      last `]`, then seeds a lowered flag for every bracketed segment position of the
      first item. An empty form has no first item: the source throws, reported here
      as `ok == false`.
     */
    method GetPropertyLevels(form: array<Item>) returns (ok: bool)
      modifies this, form
      ensures ok <==> form.Length > 0
      ensures form[..] == SortByLastBracket(old(form[..]))
      ensures states == old(states)
      ensures ok ==> flags == SeedFlags(old(flags), Split(form[0].name, '.'))
      ensures !ok ==> flags == old(flags)
    {
      SortForm(form);
      if form.Length == 0 {
        return false;
      }
      var longest := form[0];
      SeedLevels(Split(longest.name, '.'));
      ok := true;
    }

    /** The seeding loop of `getPropertyLevels` over the segments of the first item. */
    method SeedLevels(parts: seq<string>)
      modifies this
      ensures flags == SeedFlags(old(flags), parts)
      ensures states == old(states)
    {
      var key := 0;
      assert parts[..key] == [];
      SeedNothing(flags);
      while key < |parts|
        invariant 0 <= key <= |parts|
        invariant flags == SeedFlags(old(flags), parts[..key])
        invariant states == old(states)
      {
        SeedOneMore(old(flags), parts, key);
        if HasIndexer(parts[key]) && key !in flags {
          flags := flags[key := false];
        }
        key := key + 1;
      }
      assert parts[..key] == parts;
    }
  }

  /** `form.sort(...)` in `getPropertyLevels`: the items are put in place in sorted order. */
  method SortForm(form: array<Item>)
    modifies form
    ensures form[..] == SortByLastBracket(old(form[..]))
  {
    var sorted := SortByLastBracket(form[..]);
    var k := 0;
    while k < form.Length
      invariant 0 <= k <= form.Length
      invariant forall j :: 0 <= j < k ==> form[j] == sorted[j]
    {
      form[k] := sorted[k];
      k := k + 1;
    }
    assert form[..] == sorted;
  }

  /** The loop over the sorted form: every item's name is rebased in turn, its value kept. */
  method RenameItems(rebaser: Rebaser, form: array<Item>)
    requires rebaser.Valid()
    modifies rebaser, form
    ensures rebaser.Valid()
    ensures (rebaser.Snapshot(), form[..]) == RenamePrefix(old(rebaser.Snapshot()), old(form[..]), form.Length)
  {
    ghost var sorted := form[..];
    ghost var st0 := rebaser.Snapshot();
    var k := 0;
    while k < form.Length
      invariant 0 <= k <= form.Length
      invariant rebaser.Valid()
      invariant forall j :: k <= j < form.Length ==> form[j] == sorted[j]
      invariant (rebaser.Snapshot(), form[..k]) == RenamePrefix(st0, sorted, k)
    {
      ghost var before := RenamePrefix(st0, sorted, k);
      ghost var done := form[..k];
      var item := form[k];
      assert item == sorted[k];
      var name := rebaser.RebaseFormProperty(item.name);
      form[k] := item.(name := name);
      assert form[..k] == done;
      SliceSnoc(form[..], k + 1);
      assert form[..k + 1] == done + [sorted[k].(name := name)];
      RenameOneMore(st0, sorted, k, before.0, done, rebaser.Snapshot(), name);
      k := k + 1;
    }
    assert form[..] == form[..k];
  }

  /**
    `serializeArrayWithRebaseing` once the form has been serialized: a fresh rebaser
    sorts the form and seeds its flags, then every item's name is rebased in the
    sorted order, values untouched. Returns false where the source throws (an empty
    form), leaving the form as it was.
   */
  method RebaseForm(form: array<Item>) returns (ok: bool)
    modifies form
    ensures ok <==> form.Length > 0
    ensures ok ==> form[..] == RebasedItems(old(form[..])).value
    ensures !ok ==> form[..] == old(form[..])
  {
    var rebaser := new Rebaser();
    ok := rebaser.GetPropertyLevels(form);
    if !ok {
      return;
    }
    ghost var sorted := form[..];
    assert sorted == SortByLastBracket(old(form[..]));
    assert rebaser.Snapshot() == State(map[], SeedFlags(map[], Split(sorted[0].name, '.')));
    RenameItems(rebaser, form);
  }
}
