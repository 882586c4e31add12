/**
  The index-rebasing algorithm of `serializeArrayWithRebaseing`, stated as functions
  on values. A form is a sequence of `{name, value}` items whose names are dotted
  paths such as `Company[0].Entity[0].Property.ListOfEmails[2]`; the algorithm
  renumbers the bracketed indices so that each property name counts 0, 1, 2, ...

  The state the source keeps in its `temp` object is a `State`: one `PrefixState`
  per bare property name (`temp[pName]`) and the reset-flag table indexed by
  segment position (`temp.resetObjectIndex`).
 */
module RebaseSpec {
  import opened JsText

  datatype Option<T> = None | Some(value: T)

  /** One serialized form entry. */
  datatype Item = Item(name: string, value: string)

  /** `temp[pName]`: the index text last seen for the name and the index last assigned to it. */
  datatype PrefixState = PrefixState(oldIndex: Option<string>, newIndex: Option<nat>)

  /** The whole `temp` object: the per-name table and the per-position reset flags. */
  datatype State = State(states: map<string, PrefixState>, flags: map<nat, bool>)

  /** Between two segments, every name that has been seen has both an index text and an assigned index. */
  predicate Wf(st: State) {
    forall p :: p in st.states ==> st.states[p].oldIndex.Some? && st.states[p].newIndex.Some?
  }

  /** `temp[pName]`, with an absent name read as the empty object `{}`. */
  function Lookup(st: State, pName: string): PrefixState {
    if pName in st.states then st.states[pName] else PrefixState(None, None)
  }

  /** The empty state the source starts from: `{ resetObjectIndex: {} }`. */
  function Initial(): (st: State)
    ensures Wf(st)
  {
    State(map[], map[])
  }

  // ---------------------------------------------------------------------------
  // Reading a segment
  // ---------------------------------------------------------------------------

  /** `hasIndexer`: the segment contains a `[`. */
  function HasIndexer(seg: string): (b: bool)
    ensures b <==> '[' in seg
  {
    IndexOf(seg, '[') != -1
  }

  /** `pName`: the text before the first `[`. */
  function PropertyName(seg: string): string
    requires HasIndexer(seg)
  {
    seg[..IndexOf(seg, '[')]
  }

  /** `pIndex`: `substring` from just after the first `[` to the first `]`. */
  function IndexText(seg: string): string
    requires HasIndexer(seg)
  {
    Substring(seg, IndexOf(seg, '[') + 1, IndexOf(seg, ']'))
  }

  /** A segment `pName[idx]rest` is read back as its property name and its index text. */
  lemma ParseIndexedSegment(pName: string, idx: string, rest: string)
    requires '[' !in pName && ']' !in pName && ']' !in idx
    ensures HasIndexer(pName + "[" + idx + "]" + rest)
    ensures PropertyName(pName + "[" + idx + "]" + rest) == pName
    ensures IndexText(pName + "[" + idx + "]" + rest) == idx
  {
    var seg := pName + "[" + idx + "]" + rest;
    OpenBracketAt(pName, idx, rest);
    CloseBracketAt(pName, idx, rest);
    SliceOfFour(pName, "[", idx, "]" + rest);
  }

  /** The first and third parts of a four-part string, cut back out of it. */
  lemma SliceOfFour(a: string, b: string, c: string, d: string)
    ensures (a + b + c + d)[..|a|] == a
    ensures (a + b + c + d)[|a| + |b|..|a| + |b| + |c|] == c
  {
    var s := a + b + c + d;
    assert s == a + (b + c + d);
    assert s[|a| + |b|..] == c + d;
  }

  lemma OpenBracketAt(pName: string, idx: string, rest: string)
    requires '[' !in pName
    ensures IndexOf(pName + "[" + idx + "]" + rest, '[') == |pName|
  {
    var tail := "[" + idx + "]" + rest;
    assert pName + "[" + idx + "]" + rest == pName + tail;
    IndexOfAppend(pName, tail, '[');
  }

  lemma CloseBracketAt(pName: string, idx: string, rest: string)
    requires ']' !in pName && ']' !in idx
    ensures IndexOf(pName + "[" + idx + "]" + rest, ']') == |pName| + 1 + |idx|
  {
    var open := "[" + idx;
    var close := "]" + rest;
    assert ']' !in open;
    IndexOfAppend(open, close, ']');
    assert IndexOf(close, ']') == 0;
    assert pName + "[" + idx + "]" + rest == pName + (open + close);
    IndexOfAppend(pName, open + close, ']');
  }

  // ---------------------------------------------------------------------------
  // The reset-flag cascade (`setChildIndexesToBeReset`)
  // ---------------------------------------------------------------------------

  /** One more than the largest key, or 0 for no keys. */
  ghost function KeyBound(keys: set<nat>): (b: nat)
    ensures forall k :: k in keys ==> k < b
    ensures keys == {} <==> b == 0
    ensures keys != {} ==> b - 1 in keys
  {
    if keys == {} then 0
    else
      var x :| x in keys;
      var rest := keys - {x};
      var b := KeyBound(rest);
      assert forall k :: k in keys ==> k == x || k in rest;
      assert rest != {} ==> b - 1 in keys;
      if x + 1 > b then x + 1 else b
  }

  /** A set of naturals below `n` has at most `n` elements. */
  lemma {:induction false} CardBelow(keys: set<nat>, n: nat)
    requires forall k :: k in keys ==> k < n
    ensures |keys| <= n
  {
    if n > 0 {
      CardBelow(keys - {n - 1}, n - 1);
    } else {
      assert keys == {};
    }
  }

  /** A subset has at most as many elements. */
  lemma SubsetCard(a: set<nat>, b: set<nat>)
    requires a <= b
    ensures |a| <= |b|
  {
    assert b == a + (b - a);
  }

  /**
    The loop `for (i = j; i < Object.keys(flags).length; i++) flags[i] = true`. Its
    bound is re-read on every round, so a position that had no entry gets one and
    lengthens the loop: the loop fills gaps until the positions from `j` up to the
    number of entries are all present.
   */
  function CascadeFrom(flags: map<nat, bool>, j: nat): map<nat, bool>
    decreases KeyBound(flags.Keys) - j
  {
    if j < |flags.Keys| then
      CardBelow(flags.Keys, KeyBound(flags.Keys));
      var next := flags[j := true];
      assert KeyBound(next.Keys) - 1 in next.Keys;
      CascadeFrom(next, j + 1)
    else
      flags
  }

  /** The cascade meets `CascadeSpec`. */
  lemma {:induction false} CascadeFromSpec(flags: map<nat, bool>, j: nat)
    ensures CascadeSpec(flags, j, CascadeFrom(flags, j))
    decreases KeyBound(flags.Keys) - j
  {
    if j < |flags.Keys| {
      CardBelow(flags.Keys, KeyBound(flags.Keys));
      var next := flags[j := true];
      assert KeyBound(next.Keys) - 1 in next.Keys;
      CascadeFromSpec(next, j + 1);
      CascadeStep(flags, j, CascadeFrom(next, j + 1));
    }
  }

  /**
    What the cascade from position `j` guarantees: old entries are kept; every
    position from `j` up to the final number of entries is present and raised;
    entries below `j` or beyond that number keep their flag; new entries lie only in
    that range; and the loop went on past each position `n` of that range only
    because `n` was below the number of entries it had then (`CascadeSpecUnique`:
    these facts fix the result).
   */
  predicate CascadeSpec(flags: map<nat, bool>, j: nat, r: map<nat, bool>) {
    && flags.Keys <= r.Keys
    && (forall k :: j <= k < |r.Keys| ==> k in r && r[k])
    && (forall k :: k in flags && (k < j || k >= |r.Keys|) ==> r[k] == flags[k])
    && (forall k :: k in r && k !in flags ==> j <= k < |r.Keys|)
    && (forall n :: j <= n < |r.Keys| ==> n < |Filled(flags.Keys, j, n)|)
  }

  /** The positions present when the cascade from `j` tests its bound at `n`. */
  function Filled(keys: set<nat>, j: nat, n: nat): set<nat>
    decreases n
  {
    if n <= j then keys else Filled(keys, j, n - 1) + {n - 1}
  }

  /** The positions present at `n` are the old ones and those from `j` up to `n`. */
  lemma {:induction false} InFilled(keys: set<nat>, j: nat, n: nat)
    ensures forall k :: k in Filled(keys, j, n) <==> k in keys || j <= k < n
    decreases n
  {
    if n > j {
      InFilled(keys, j, n - 1);
    }
  }

  /** At most one table meets `CascadeSpec`: it states the loop's result exactly. */
  lemma CascadeSpecUnique(flags: map<nat, bool>, j: nat, r1: map<nat, bool>, r2: map<nat, bool>)
    requires CascadeSpec(flags, j, r1) && CascadeSpec(flags, j, r2)
    ensures r1 == r2
  {
    CascadeSpecKeys(flags, j, r1, r2);
    CascadeSpecKeys(flags, j, r2, r1);
    assert r1.Keys == r2.Keys;
  }

  /** The table a `CascadeSpec` result has fewer entries than cannot be another one. */
  lemma CascadeSpecKeys(flags: map<nat, bool>, j: nat, r1: map<nat, bool>, r2: map<nat, bool>)
    requires CascadeSpec(flags, j, r1) && CascadeSpec(flags, j, r2)
    ensures |r1.Keys| >= |r2.Keys|
  {
    var m1, m2 := |r1.Keys|, |r2.Keys|;
    InFilled(flags.Keys, j, m1);
    if j <= m1 {
      assert r1.Keys == Filled(flags.Keys, j, m1);
    } else {
      assert r1.Keys == flags.Keys == Filled(flags.Keys, j, j);
      if m2 <= j {
        assert r2.Keys == flags.Keys;
      }
    }
  }

  /** The cascade from `i + 1` leaves the flag at `i` as it was, and adds none there. */
  lemma CascadeKeepsOwnFlag(flags: map<nat, bool>, i: nat)
    ensures var r := CascadeFrom(flags, i + 1); (i in r <==> i in flags) && (i in r ==> r[i] == flags[i])
  {
    CascadeFromSpec(flags, i + 1);
  }

  lemma CascadeStep(flags: map<nat, bool>, j: nat, r: map<nat, bool>)
    requires j < |flags.Keys|
    requires CascadeSpec(flags[j := true], j + 1, r)
    ensures CascadeSpec(flags, j, r)
  {
    var next := flags[j := true];
    SubsetCard(flags.Keys, r.Keys);
    assert j in next && next[j];
    assert r[j] == next[j];
    CascadeStepStops(flags, next, j, j + 1, |r.Keys|);
  }

  /** The loop passed `j` because `j` was below the count; later positions were passed with `j` already present. */
  lemma CascadeStepStops(flags: map<nat, bool>, next: map<nat, bool>, j: nat, after: nat, m: nat)
    requires j < |flags.Keys| && next == flags[j := true] && after == j + 1
    requires forall n :: after <= n < m ==> n < |Filled(next.Keys, after, n)|
    ensures forall n :: j <= n < m ==> n < |Filled(flags.Keys, j, n)|
  {
    forall n | j <= n < m
      ensures n < |Filled(flags.Keys, j, n)|
    {
      if n > j {
        FilledStep(flags.Keys, next.Keys, j, n);
      }
    }
  }

  /** Raising `j` first and filling from `j + 1` fills the same positions as filling from `j`. */
  lemma FilledStep(keys: set<nat>, next: set<nat>, j: nat, n: nat)
    requires next == keys + {j} && j < n
    ensures Filled(next, j + 1, n) == Filled(keys, j, n)
  {
    InFilled(next, j + 1, n);
    InFilled(keys, j, n);
  }

  /** With positions 0 .. n-1 present and no others, the cascade raises exactly positions j .. n-1. */
  lemma {:induction false} CascadeDense(flags: map<nat, bool>, n: nat, j: nat)
    requires forall k: nat :: k in flags <==> k < n
    ensures CascadeFrom(flags, j).Keys == flags.Keys
    ensures forall k :: k in flags ==> CascadeFrom(flags, j)[k] == (k >= j || flags[k])
    decreases n - j
  {
    CardExact(flags.Keys, n);
    CascadeUnfold(flags, j);
    if j < n {
      var next := flags[j := true];
      assert next.Keys == flags.Keys;
      CascadeDense(next, n, j + 1);
      var r := CascadeFrom(next, j + 1);
      forall k | k in flags ensures r[k] == (k >= j || flags[k]) {
        if k != j {
          assert next[k] == flags[k];
        }
      }
    }
  }

  /** One round of the cascade loop: below the entry count it raises `j` and goes on, otherwise it stops. */
  lemma CascadeUnfold(flags: map<nat, bool>, j: nat)
    ensures CascadeFrom(flags, j) == if j < |flags.Keys| then CascadeFrom(flags[j := true], j + 1) else flags
  {
  }

  /** The naturals below n, as a set, have n elements. */
  lemma {:induction false} CardExact(keys: set<nat>, n: nat)
    requires forall k: nat :: k in keys <==> k < n
    ensures |keys| == n
  {
    if n > 0 {
      CardExact(keys - {n - 1}, n - 1);
      assert keys == (keys - {n - 1}) + {n - 1};
    } else {
      assert keys == {};
    }
  }

  // ---------------------------------------------------------------------------
  // One segment (`rebaseProperties`, loop body)
  // ---------------------------------------------------------------------------

  /** The text `'[' + n + ']'` that replaces an index. */
  function Bracketed(n: nat): string {
    "[" + NatToString(n) + "]"
  }

  /**
    Processes segment `seg` at position `i` of its name: a segment without `[` is
    kept; otherwise, when its index text differs (as a string) from the one last
    seen for its property name, the deeper flags are raised, a raised flag at `i`
    restarts the name's counter, and the counter moves on; the first match of the
    index pattern is then replaced by the name's counter.
   */
  function SegmentStep(st: State, i: nat, seg: string): (r: (State, string))
    requires Wf(st)
    ensures Wf(r.0)
    ensures !HasIndexer(seg) ==> r == (st, seg)
    ensures HasIndexer(seg) ==> Lookup(r.0, PropertyName(seg)).oldIndex == Some(IndexText(seg))
    ensures HasIndexer(seg) ==>
      r.1 == ReplaceIndexer(seg, Bracketed(Lookup(r.0, PropertyName(seg)).newIndex.value))
    ensures HasIndexer(seg) ==> forall q :: q != PropertyName(seg) ==> Lookup(r.0, q) == Lookup(st, q)
  {
    if !HasIndexer(seg) then (st, seg)
    else
      var pIndex, pName := IndexText(seg), PropertyName(seg);
      var prev := Lookup(st, pName);
      if prev.oldIndex == Some(pIndex) then
        (st, ReplaceIndexer(seg, Bracketed(prev.newIndex.value)))
      else
        var cascaded := CascadeFrom(st.flags, i + 1);
        var reset := i in cascaded && cascaded[i];
        var flags := if reset then cascaded[i := false] else cascaded;
        var n := if reset || prev.newIndex.None? then 0 else prev.newIndex.value + 1;
        (State(st.states[pName := PrefixState(Some(pIndex), Some(n))], flags),
         ReplaceIndexer(seg, Bracketed(n)))
  }

  /** The index text did not change: neither the table nor the flags change. */
  lemma SameIndexKeepsState(st: State, i: nat, seg: string)
    requires Wf(st) && HasIndexer(seg)
    requires Lookup(st, PropertyName(seg)).oldIndex == Some(IndexText(seg))
    ensures SegmentStep(st, i, seg) ==
      (st, ReplaceIndexer(seg, Bracketed(Lookup(st, PropertyName(seg)).newIndex.value)))
  {
  }

  /**
    The index text changed: the name's counter restarts at 0 when position `i` is
    flagged (and the flag is lowered), starts at 0 on a first sight, and otherwise
    rises by exactly one; every deeper position up to the number of flag entries is
    flagged and shallower positions keep their flags; with the own flag put back,
    the flags are exactly the cascade from the next position.
   */
  lemma ChangedIndexCounter(st: State, i: nat, seg: string)
    requires Wf(st) && HasIndexer(seg)
    requires Lookup(st, PropertyName(seg)).oldIndex != Some(IndexText(seg))
    ensures var r := SegmentStep(st, i, seg).0;
      var old_ := Lookup(st, PropertyName(seg)).newIndex;
      && Lookup(r, PropertyName(seg)).newIndex ==
           (if (i in st.flags && st.flags[i]) || old_.None? then Some(0) else Some(old_.value + 1))
      && (i in st.flags ==> i in r.flags && !r.flags[i])
      && (i in r.flags ==> i in st.flags)
      && (forall k :: k in st.flags && k < i ==> k in r.flags && r.flags[k] == st.flags[k])
      && (forall k :: i < k < |r.flags| ==> k in r.flags && r.flags[k])
      && CascadeSpec(st.flags, i + 1, if i in st.flags then r.flags[i := st.flags[i]] else r.flags)
  {
    var c := CascadeFrom(st.flags, i + 1);
    var r := SegmentStep(st, i, seg).0;
    assert r.flags == if i in c && c[i] then c[i := false] else c;
    CascadeKeepsOwnFlag(st.flags, i);
    ResetFlags(st.flags, i, r.flags);
  }

  /** The flags after a changed index at `i`: the cascade from `i + 1`, with the own flag lowered if it was raised. */
  lemma ResetFlags(flags: map<nat, bool>, i: nat, rf: map<nat, bool>)
    requires var c := CascadeFrom(flags, i + 1); rf == if i in c && c[i] then c[i := false] else c
    ensures && (i in flags ==> i in rf && !rf[i])
      && (i in rf ==> i in flags)
      && (forall k :: k in flags && k < i ==> k in rf && rf[k] == flags[k])
      && (forall k :: i < k < |rf| ==> k in rf && rf[k])
      && CascadeSpec(flags, i + 1, if i in flags then rf[i := flags[i]] else rf)
  {
    var c := CascadeFrom(flags, i + 1);
    CascadeKeepsOwnFlag(flags, i);
    CascadeFromSpec(flags, i + 1);
    if i in flags {
      assert c[i := flags[i]] == c;
      if flags[i] {
        var lowered: map<nat, bool> := c[i := false];
        assert lowered.Keys == c.Keys;
        assert lowered[i := flags[i]] == c;
      }
    }
  }

  /** A raised flag stays raised until a change of index at its own position. */
  lemma FlagPersists(st: State, i: nat, seg: string, j: nat)
    requires Wf(st) && j != i && j in st.flags && st.flags[j]
    ensures var r := SegmentStep(st, i, seg).0; j in r.flags && r.flags[j]
  {
    if HasIndexer(seg) && Lookup(st, PropertyName(seg)).oldIndex != Some(IndexText(seg)) {
      var cascaded := CascadeFrom(st.flags, i + 1);
      CascadeFromSpec(st.flags, i + 1);
      assert j in cascaded && cascaded[j];
    }
  }

  /**
    Every counter moves only by the rules: it stays, starts (or restarts) at 0, or
    rises by exactly one; and only the counter of the segment's own property name moves.
   */
  lemma CounterStep(st: State, i: nat, seg: string, q: string)
    requires Wf(st)
    ensures var before, after := Lookup(st, q).newIndex, Lookup(SegmentStep(st, i, seg).0, q).newIndex;
      || after == before
      || (HasIndexer(seg) && q == PropertyName(seg) &&
          (after == Some(0) || (before.Some? && after == Some(before.value + 1))))
  {
    if HasIndexer(seg) && q == PropertyName(seg) && Lookup(st, q).oldIndex != Some(IndexText(seg)) {
      ChangedIndexCounter(st, i, seg);
    }
  }

  /**
    The rewritten form of a segment `stem + digits + "[" + idx + "]" + rest`: the
    bracketed index becomes the name's counter. Digits that end the property name
    belong to the pattern's match too, so they are dropped: `Line1[5]` becomes
    `Line[0]`, while a name not ending in a digit (`digits` empty) is kept.
   */
  lemma RewrittenSegment(st: State, i: nat, stem: string, digits: string, idx: string, rest: string)
    requires Wf(st)
    requires '[' !in stem && ']' !in stem && AllDigits(digits) && AllDigits(idx)
    requires stem == [] || !IsDigit(stem[|stem| - 1])
    ensures var seg := stem + digits + "[" + idx + "]" + rest;
      var r := SegmentStep(st, i, seg);
      && HasIndexer(seg) && PropertyName(seg) == stem + digits && IndexText(seg) == idx
      && r.1 == stem + Bracketed(Lookup(r.0, stem + digits).newIndex.value) + rest
  {
    var seg := stem + digits + "[" + idx + "]" + rest;
    assert forall k :: 0 <= k < |digits| ==> digits[k] != '[' && digits[k] != ']';
    assert '[' !in digits && ']' !in digits;
    assert forall k :: 0 <= k < |idx| ==> idx[k] != ']';
    assert ']' !in idx;
    assert '[' !in stem + digits && ']' !in stem + digits;
    ParseIndexedSegment(stem + digits, idx, rest);
    var r := SegmentStep(st, i, seg);
    ReplaceIndexerSegment(stem, digits, idx, rest, Bracketed(Lookup(r.0, stem + digits).newIndex.value));
  }

  // ---------------------------------------------------------------------------
  // One name (`rebaseProperties`, `rebaseFormProperty`)
  // ---------------------------------------------------------------------------

  /** The first `n` segments processed in order: the state after them and their rewritten forms. */
  function RewritePrefix(st: State, segs: seq<string>, n: nat): (r: (State, seq<string>))
    requires Wf(st) && n <= |segs|
    ensures Wf(r.0) && |r.1| == n
    ensures forall k :: 0 <= k < n && !HasIndexer(segs[k]) ==> r.1[k] == segs[k]
  {
    if n == 0 then (st, [])
    else
      var (st1, done) := RewritePrefix(st, segs, n - 1);
      var (st2, out) := SegmentStep(st1, n - 1, segs[n - 1]);
      (st2, done + [out])
  }

  /** One more segment rewritten. */
  lemma RewriteOneMore(st: State, segs: seq<string>, n: nat, mid: State, done: seq<string>, fin: State, out: string)
    requires Wf(st) && n < |segs|
    requires RewritePrefix(st, segs, n) == (mid, done)
    requires SegmentStep(mid, n, segs[n]) == (fin, out)
    ensures RewritePrefix(st, segs, n + 1) == (fin, done + [out])
  {
  }

  /** The loop's join, one segment further. */
  lemma JoinRebasedSnoc(done: seq<string>, out: string)
    ensures JoinRebased(done + [out]) == AppendSegment(JoinRebased(done), out)
  {
    assert (done + [out])[..|done|] == done;
  }

  /** `rebasedProp += rebasedProp === '' ? p : '.' + p`: no dot is written while the result is empty. */
  function AppendSegment(acc: string, p: string): string {
    if acc == "" then p else acc + "." + p
  }

  /** The rewritten segments joined as the source's loop joins them. */
  function JoinRebased(parts: seq<string>): string {
    if parts == [] then "" else AppendSegment(JoinRebased(parts[..|parts| - 1]), parts[|parts| - 1])
  }

  /** `rebaseFormProperty`: split on `.`, rewrite every segment in order, join again. */
  function RebaseName(st: State, name: string): (r: (State, string))
    requires Wf(st)
    ensures Wf(r.0)
  {
    var segs := Split(name, '.');
    var (st1, out) := RewritePrefix(st, segs, |segs|);
    (st1, JoinRebased(out))
  }

  /** Joining with a leading non-empty segment is the ordinary `join('.')`. */
  lemma {:induction false} JoinRebasedIsJoin(parts: seq<string>)
    requires parts != [] && parts[0] != ""
    ensures JoinRebased(parts) == Join(parts, '.')
    decreases |parts|
  {
    if |parts| > 1 {
      var init := parts[..|parts| - 1];
      JoinRebasedIsJoin(init);
      JoinNonEmpty(init);
      JoinSnoc(init, parts[|parts| - 1]);
      assert init + [parts[|parts| - 1]] == parts;
    }
  }

  /** Leading empty segments vanish from the joined result, together with their dots. */
  lemma {:induction false} JoinRebasedSkipsEmpty(parts: seq<string>)
    ensures JoinRebased([""] + parts) == JoinRebased(parts)
    decreases |parts|
  {
    if parts != [] {
      var init := parts[..|parts| - 1];
      JoinRebasedSkipsEmpty(init);
      assert ([""] + parts)[..|parts|] == [""] + init;
    }
  }

  lemma {:induction false} JoinNonEmpty(parts: seq<string>)
    requires parts != [] && parts[0] != ""
    ensures Join(parts, '.') != ""
    decreases |parts|
  {
    if |parts| > 1 {
      assert |Join(parts, '.')| >= |parts[0]|;
    }
  }

  lemma {:induction false} JoinSnoc(parts: seq<string>, p: string)
    requires parts != []
    ensures Join(parts + [p], '.') == Join(parts, '.') + "." + p
    decreases |parts|
  {
    if |parts| > 1 {
      JoinSnoc(parts[1..], p);
      assert (parts + [p])[1..] == parts[1..] + [p];
    }
  }

  /** Segments without `[` leave the state alone and come out as they went in. */
  lemma {:induction false} RewritePlain(st: State, segs: seq<string>, n: nat)
    requires Wf(st) && n <= |segs|
    requires forall k :: 0 <= k < |segs| ==> '[' !in segs[k]
    ensures RewritePrefix(st, segs, n) == (st, segs[..n])
  {
    if n > 0 {
      RewritePlain(st, segs, n - 1);
      assert segs[..n - 1] + [segs[n - 1]] == segs[..n];
    }
  }

  /** A name with no `[` that does not start with `.` is returned unchanged, and the state too. */
  lemma PlainNameUnchanged(st: State, name: string)
    requires Wf(st)
    requires '[' !in name
    requires name == "" || name[0] != '.'
    ensures RebaseName(st, name) == (st, name)
  {
    var segs := Split(name, '.');
    SplitKeepsAbsent(name, '.', '[');
    RewritePlain(st, segs, |segs|);
    assert segs[..|segs|] == segs;
    SplitFirstPiece(name, '.');
    if name == "" {
      assert segs == [""];
      assert JoinRebased([""]) == AppendSegment(JoinRebased([]), "");
    } else {
      JoinRebasedIsJoin(segs);
      JoinSplit(name, '.');
    }
  }

  /** The property name's entry after `n` segments, when no later segment up to `m` names it, is still there after `m`. */
  lemma {:induction false} EntryUntouched(st: State, segs: seq<string>, n: nat, m: nat, p: string)
    requires Wf(st) && n <= m <= |segs|
    requires forall k :: n <= k < m && HasIndexer(segs[k]) ==> PropertyName(segs[k]) != p
    ensures Lookup(RewritePrefix(st, segs, m).0, p) == Lookup(RewritePrefix(st, segs, n).0, p)
    decreases m - n
  {
    if n < m {
      EntryUntouched(st, segs, n, m - 1, p);
      var prev := RewritePrefix(st, segs, m - 1);
      assert RewritePrefix(st, segs, m).0 == SegmentStep(prev.0, m - 1, segs[m - 1]).0;
    }
  }

  /** Names of the bracketed segments of a name are pairwise different. */
  predicate DistinctPropertyNames(segs: seq<string>) {
    forall a, b :: 0 <= a < b < |segs| && HasIndexer(segs[a]) && HasIndexer(segs[b]) ==>
      PropertyName(segs[a]) != PropertyName(segs[b])
  }

  /**
    Rebasing the same name a second time, straight after the first, changes no state
    and gives the same result, provided no property name occurs twice in it: every
    index text is then the one last seen for its name.
   */
  lemma RepeatedNameStable(st: State, name: string)
    requires Wf(st)
    requires DistinctPropertyNames(Split(name, '.'))
    ensures var (st1, out) := RebaseName(st, name); RebaseName(st1, name) == (st1, out)
  {
    var segs := Split(name, '.');
    var first := RewritePrefix(st, segs, |segs|);
    RepeatedSegmentsStable(st, segs, |segs|);
    assert first.1[..|segs|] == first.1;
  }

  lemma {:induction false} RepeatedSegmentsStable(st: State, segs: seq<string>, n: nat)
    requires Wf(st) && n <= |segs|
    requires DistinctPropertyNames(segs)
    ensures var first := RewritePrefix(st, segs, |segs|);
      RewritePrefix(first.0, segs, n) == (first.0, first.1[..n])
  {
    var first := RewritePrefix(st, segs, |segs|);
    if n > 0 {
      RepeatedSegmentsStable(st, segs, n - 1);
      RepeatedSegmentAgain(st, segs, n);
      SliceSnoc(first.1, n);
    }
  }

  /** A prefix one longer is the shorter prefix and one more element. */
  lemma SliceSnoc<T>(s: seq<T>, n: nat)
    requires 0 < n <= |s|
    ensures s[..n - 1] + [s[n - 1]] == s[..n]
  {
  }

  /** Segment `n - 1`, met again in the state left by the whole name, is rewritten as the first time and changes nothing. */
  lemma RepeatedSegmentAgain(st: State, segs: seq<string>, n: nat)
    requires Wf(st) && 0 < n <= |segs|
    requires DistinctPropertyNames(segs)
    ensures var first := RewritePrefix(st, segs, |segs|);
      SegmentStep(first.0, n - 1, segs[n - 1]) == (first.0, first.1[n - 1])
  {
    var first := RewritePrefix(st, segs, |segs|);
    var seg := segs[n - 1];
    var upto := RewritePrefix(st, segs, n);
    var before := RewritePrefix(st, segs, n - 1);
    var after := SegmentStep(before.0, n - 1, seg);
    assert upto == (after.0, before.1 + [after.1]);
    RewriteOutputs(st, segs, n, |segs|);
    assert first.1[n - 1] == after.1;
    if HasIndexer(seg) {
      var p := PropertyName(seg);
      EntryUntouched(st, segs, n, |segs|, p);
      assert Lookup(first.0, p) == Lookup(after.0, p);
      SameIndexKeepsState(first.0, n - 1, seg);
    }
  }

  /** The output of segment `n - 1` is not altered by processing later segments. */
  lemma {:induction false} RewriteOutputs(st: State, segs: seq<string>, n: nat, m: nat)
    requires Wf(st) && 0 < n <= m <= |segs|
    ensures RewritePrefix(st, segs, m).1[n - 1] == RewritePrefix(st, segs, n).1[n - 1]
    decreases m - n
  {
    if n < m {
      RewriteOutputs(st, segs, n, m - 1);
    }
  }

  // ---------------------------------------------------------------------------
  // The whole form (`getPropertyLevels` and the driver loop)
  // ---------------------------------------------------------------------------

  /** The sort key `name.lastIndexOf(']')`. */
  function SortKey(it: Item): int {
    LastIndexOf(it.name, ']')
  }

  predicate SortedDesc(s: seq<Item>) {
    forall a, b :: 0 <= a < b < |s| ==> SortKey(s[a]) >= SortKey(s[b])
  }

  /** Puts `x` before the first element whose key is not larger than its own. */
  function InsertByKey(x: Item, s: seq<Item>): (r: seq<Item>)
    ensures |r| == |s| + 1
    ensures multiset(r) == multiset(s) + multiset{x}
  {
    if s == [] || SortKey(x) >= SortKey(s[0]) then [x] + s
    else
      HeadTail(s, InsertByKey(x, s[1..]), x);
      [s[0]] + InsertByKey(x, s[1..])
  }

  /** Putting the head back in front of a sequence that holds the tail and `x`. */
  lemma HeadTail(s: seq<Item>, t: seq<Item>, x: Item)
    requires s != [] && multiset(t) == multiset(s[1..]) + multiset{x}
    ensures multiset([s[0]] + t) == multiset(s) + multiset{x}
  {
    assert s == [s[0]] + s[1..];
  }

  lemma {:induction false} InsertKeepsSorted(x: Item, s: seq<Item>)
    requires SortedDesc(s)
    ensures SortedDesc(InsertByKey(x, s))
  {
    if s == [] || SortKey(x) >= SortKey(s[0]) {
      SortedBelowHead(s, SortKey(x));
      ConsSorted(x, s);
    } else {
      var tail := s[1..];
      assert SortedDesc(tail) by {
        forall a, b | 0 <= a < b < |tail| ensures SortKey(tail[a]) >= SortKey(tail[b]) {
          assert tail[a] == s[a + 1] && tail[b] == s[b + 1];
        }
      }
      InsertKeepsSorted(x, tail);
      SortedBelowHead(tail, SortKey(s[0])) by {
        if tail != [] {
          assert tail[0] == s[1];
        }
      }
      InsertKeysAtMost(x, tail, SortKey(s[0]));
      ConsSorted(s[0], InsertByKey(x, tail));
    }
  }

  /** Every key of `s` is at most `b`. */
  predicate KeysAtMost(s: seq<Item>, b: int) {
    forall k :: 0 <= k < |s| ==> SortKey(s[k]) <= b
  }

  /** In a sorted sequence every key is at most the first one. */
  lemma SortedBelowHead(s: seq<Item>, b: int)
    requires SortedDesc(s) && (s != [] ==> SortKey(s[0]) <= b)
    ensures KeysAtMost(s, b)
  {
    forall k | 0 < k < |s| ensures SortKey(s[k]) <= b {
      assert SortKey(s[0]) >= SortKey(s[k]);
    }
  }

  /** Inserting an item whose key is at most `b` keeps every key at most `b`. */
  lemma {:induction false} InsertKeysAtMost(x: Item, s: seq<Item>, b: int)
    requires KeysAtMost(s, b) && SortKey(x) <= b
    ensures KeysAtMost(InsertByKey(x, s), b)
  {
    if s == [] || SortKey(x) >= SortKey(s[0]) {
      ConsKeysAtMost(x, s, b);
    } else {
      var tail := s[1..];
      assert KeysAtMost(tail, b) by {
        forall k | 0 <= k < |tail| ensures SortKey(tail[k]) <= b {
          assert tail[k] == s[k + 1];
        }
      }
      InsertKeysAtMost(x, tail, b);
      ConsKeysAtMost(s[0], InsertByKey(x, tail), b);
    }
  }

  lemma ConsKeysAtMost(h: Item, t: seq<Item>, b: int)
    requires KeysAtMost(t, b) && SortKey(h) <= b
    ensures KeysAtMost([h] + t, b)
  {
    forall k | 0 < k < |t| + 1 ensures SortKey(([h] + t)[k]) <= b {
      assert ([h] + t)[k] == t[k - 1];
    }
  }

  /** A head whose key is at least every key of a sorted tail gives a sorted sequence. */
  lemma ConsSorted(h: Item, t: seq<Item>)
    requires SortedDesc(t) && KeysAtMost(t, SortKey(h))
    ensures SortedDesc([h] + t)
  {
    var r := [h] + t;
    forall a, b | 0 <= a < b < |r| ensures SortKey(r[a]) >= SortKey(r[b]) {
      assert r[b] == t[b - 1];
      if a > 0 {
        assert r[a] == t[a - 1];
      }
    }
  }

  /**
    `form.sort((a, b) => b.name.lastIndexOf(']') - a.name.lastIndexOf(']'))`, as a
    stable sort: descending by the position of the last `]`, a permutation of the form.
   */
  function SortByLastBracket(items: seq<Item>): (r: seq<Item>)
    ensures |r| == |items|
    ensures multiset(r) == multiset(items)
    ensures SortedDesc(r)
  {
    if items == [] then []
    else
      assert items == [items[0]] + items[1..];
      InsertKeepsSorted(items[0], SortByLastBracket(items[1..]));
      InsertByKey(items[0], SortByLastBracket(items[1..]))
  }

  /** The items with sort key `key`, in their order. */
  function WithKey(s: seq<Item>, key: int): seq<Item> {
    if s == [] then [] else (if SortKey(s[0]) == key then [s[0]] else []) + WithKey(s[1..], key)
  }

  lemma {:induction false} InsertStable(x: Item, s: seq<Item>, key: int)
    ensures WithKey(InsertByKey(x, s), key) == (if SortKey(x) == key then [x] else []) + WithKey(s, key)
  {
    if s != [] && SortKey(x) < SortKey(s[0]) {
      var t := InsertByKey(x, s[1..]);
      var mine := if SortKey(x) == key then [x] else [];
      var head := if SortKey(s[0]) == key then [s[0]] else [];
      InsertStable(x, s[1..], key);
      WithKeyCons(s[0], t, key);
      assert head == [] || mine == [];
      SwapAroundEmpty(head, mine, WithKey(s[1..], key));
    } else {
      WithKeyCons(x, s, key);
    }
  }

  /** Two prefixes of which one is empty can be put in either order. */
  lemma SwapAroundEmpty(a: seq<Item>, b: seq<Item>, rest: seq<Item>)
    requires a == [] || b == []
    ensures a + (b + rest) == b + (a + rest)
  {
    if a == [] {
      assert a + (b + rest) == b + rest == b + (a + rest);
    } else {
      assert a + (b + rest) == a + rest == b + (a + rest);
    }
  }

  lemma WithKeyCons(h: Item, t: seq<Item>, key: int)
    ensures WithKey([h] + t, key) == (if SortKey(h) == key then [h] else []) + WithKey(t, key)
  {
    assert ([h] + t)[1..] == t;
  }

  /** The sort is stable: items with equal keys keep their relative order. */
  lemma {:induction false} SortIsStable(items: seq<Item>, key: int)
    ensures WithKey(SortByLastBracket(items), key) == WithKey(items, key)
  {
    if items != [] {
      SortIsStable(items[1..], key);
      InsertStable(items[0], SortByLastBracket(items[1..]), key);
    }
  }

  /** Positions of the segments that contain a `[`. */
  function BracketPositions(segs: seq<string>): set<nat> {
    set k: nat | k < |segs| && HasIndexer(segs[k])
  }

  /** `if (resetObjectIndex[k] === undefined) resetObjectIndex[k] = false` for every bracketed position `k`. */
  function SeedFlags(flags: map<nat, bool>, segs: seq<string>): map<nat, bool> {
    map k | k in flags.Keys + BracketPositions(segs) :: if k in flags then flags[k] else false
  }

  /** Seeding from no segments changes nothing. */
  lemma SeedNothing(flags: map<nat, bool>)
    ensures SeedFlags(flags, []) == flags
  {
  }

  /** Seeding one more segment position adds a lowered flag there when it is bracketed and not yet present. */
  lemma SeedOneMore(flags: map<nat, bool>, segs: seq<string>, k: nat)
    requires k < |segs|
    ensures var before := SeedFlags(flags, segs[..k]);
      SeedFlags(flags, segs[..k + 1]) == if HasIndexer(segs[k]) && k !in before then before[k := false] else before
  {
    assert BracketPositions(segs[..k + 1]) == BracketPositions(segs[..k]) + (if HasIndexer(segs[k]) then {k} else {});
  }

  /** The first `n` items renamed in order: the state after them and the renamed items. */
  function RenamePrefix(st: State, items: seq<Item>, n: nat): (r: (State, seq<Item>))
    requires Wf(st) && n <= |items|
    ensures Wf(r.0) && |r.1| == n
    ensures forall k :: 0 <= k < n ==> r.1[k].value == items[k].value
  {
    if n == 0 then (st, [])
    else
      var (st1, done) := RenamePrefix(st, items, n - 1);
      var (st2, name) := RebaseName(st1, items[n - 1].name);
      (st2, done + [items[n - 1].(name := name)])
  }

  /** One more item renamed. */
  lemma RenameOneMore(st: State, items: seq<Item>, n: nat, mid: State, done: seq<Item>, fin: State, name: string)
    requires Wf(st) && n < |items|
    requires RenamePrefix(st, items, n) == (mid, done)
    requires RebaseName(mid, items[n].name) == (fin, name)
    ensures RenamePrefix(st, items, n + 1) == (fin, done + [items[n].(name := name)])
  {
  }

  /**
    The whole rebasing of a form: sort it, seed the flags from the bracketed
    positions of its first item, and rename every item in the sorted order. An empty
    form has no first item; the source fails there (`longest` is undefined), modelled
    as `None`.
   */
  function RebasedItems(items: seq<Item>): (r: Option<seq<Item>>)
    ensures r.None? <==> items == []
    ensures r.Some? ==> |r.value| == |items|
    ensures r.Some? ==> forall k :: 0 <= k < |items| ==> r.value[k].value == SortByLastBracket(items)[k].value
  {
    if items == [] then None
    else
      var sorted := SortByLastBracket(items);
      var flags := SeedFlags(map[], Split(sorted[0].name, '.'));
      Some(RenamePrefix(State(map[], flags), sorted, |sorted|).1)
  }

  /** The values of a sequence of items, in order. */
  function Values(s: seq<Item>): (r: seq<string>)
    ensures |r| == |s|
  {
    if s == [] then [] else [s[0].value] + Values(s[1..])
  }

  lemma {:induction false} ValuesAppend(a: seq<Item>, b: seq<Item>)
    ensures Values(a + b) == Values(a) + Values(b)
    decreases |a|
  {
    if a != [] {
      ValuesAppend(a[1..], b);
      assert (a + b)[1..] == a[1..] + b;
    } else {
      assert a + b == b;
    }
  }

  lemma {:induction false} ValuesOfPermutation(s: seq<Item>, t: seq<Item>)
    requires multiset(s) == multiset(t)
    ensures multiset(Values(s)) == multiset(Values(t))
    decreases |s|
  {
    if s != [] {
      var x := s[0];
      assert x in multiset(t);
      var j :| 0 <= j < |t| && t[j] == x;
      var t' := t[..j] + t[j + 1..];
      assert t == t[..j] + [x] + t[j + 1..];
      assert s == [x] + s[1..];
      assert multiset(t) == multiset(t[..j]) + multiset{x} + multiset(t[j + 1..]);
      assert multiset(t') == multiset(t[..j]) + multiset(t[j + 1..]);
      assert multiset(s) == multiset{x} + multiset(s[1..]);
      assert multiset(s[1..]) == multiset(s) - multiset{x};
      assert multiset(t') == multiset(t) - multiset{x};
      ValuesOfPermutation(s[1..], t');
      ValuesAppend(t[..j] + [x], t[j + 1..]);
      ValuesAppend(t[..j], [x]);
      ValuesAppend(t[..j], t[j + 1..]);
    } else {
      assert t == [];
    }
  }

  /** Values of the items at the same positions are the same values. */
  lemma {:induction false} ValuesPointwise(s: seq<Item>, t: seq<Item>)
    requires |s| == |t|
    requires forall k :: 0 <= k < |s| ==> s[k].value == t[k].value
    ensures Values(s) == Values(t)
    decreases |s|
  {
    if s != [] {
      ValuesPointwise(s[1..], t[1..]);
    }
  }

  /** The rebased form carries the same values as the input form, each exactly as often. */
  lemma RebasedValuesPermutation(items: seq<Item>)
    requires items != []
    ensures multiset(Values(RebasedItems(items).value)) == multiset(Values(items))
  {
    var sorted := SortByLastBracket(items);
    ValuesPointwise(RebasedItems(items).value, sorted);
    ValuesOfPermutation(sorted, items);
  }
}
