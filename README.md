# Rebasing the indices of a serialized form

`serializeArrayWithRebaseing` is a jQuery plugin (`trust.RebaseSerializeForm.js`). It takes the `{name, value}` pairs of a
serialized form and renumbers the list indices in their names, so that the model binder on the server sees
consecutive indices. For example, `Company[0].Entity[0].Property.ListOfEmails[2]`, `[4]` and `[8]` become
`ListOfEmails[0]`, `[1]` and `[2]`.

The plugin works in two phases:

- **`getPropertyLevels`.** It sorts the form in place, by the position of the last `]` in each name, descending. Then it
  seeds a table of reset flags, one per bracketed segment position of the first item.
- **Renaming.** Every name is split on `.`. Each bracketed segment is compared, as text, with the index last seen for its
  bare property name. On a change:
  - the flags of deeper positions are raised;
  - a raised flag at the segment's own position restarts the name's counter;
  - the counter starts at 0 or moves on by one.

  The first match of `[[0-9]*]` is then replaced by the counter, and the segments are joined again.

The project has five modules:

- **`JsText`** (`js_text.dfy`): the JavaScript string operations used by the plugin, with positions counted in
  characters (see "Left out" for UTF-16):
  - `indexOf` and `lastIndexOf` return -1 when there is no match;
  - `substring` clamps and swaps its ends;
  - `split` always yields at least one piece;
  - number-to-text conversion;
  - the leftmost-match replacement of `[[0-9]*]`, which ends at the first `]` and starts where the run of `[`/digit
    characters before it starts.
- **`RebaseSpec`** (`rebase_spec.dfy`): the algorithm as functions on values, with the properties proved about them:
  - `SegmentStep` processes one segment;
  - `RewritePrefix` and `RebaseName` process one name;
  - `SortByLastBracket`, `SeedFlags` and `RenamePrefix` handle the form;
  - `RebasedItems` is the whole run.
- **`Rebaser`** (`rebaser.dfy`): the plugin as it runs. The `temp` object is a single-use class `Rebaser`:
  - its fields `states` (the per-name `{oldIndex, newIndex}` table) and `flags` (`temp.resetObjectIndex`) are updated
    in place by the helper methods;
  - a name's segments are rewritten in place in an array;
  - the form is an array of items, sorted and then renamed in place.

  Each method's postcondition ties its new state and result to the functions of `RebaseSpec`.
- **`RebaseScenarios`** (`scenarios.dfy`): the plugin's behaviour on whole forms of given shapes:
  - forms without brackets;
  - flat lists;
  - lists nested one level;
  - corner cases of the reset flags and of the index pattern.

  Each shape is proved for every property name and index text that fits it.
- **`DocumentedExample`** (`documented_example.dfy`): lists of the shape `c[0].e[0].p.l[idx]`, including the plugin's own
  documented example.

Some behaviours of the code are worth knowing before reading the model:

- **Empty form.** The code throws on an empty form, because `longest` is undefined at line 126. `RebasedItems` returns
  `None` for an empty form, and `Rebaser.RebaseForm` returns `false` and leaves the form as it was.
- **Cascade.** The comment at lines 41–48 says that children get their new index reset when a parent is incremented. The
  code lowers a raised flag only in the branch taken when the child's own index text changes (lines 87–90). A child whose
  index text is unchanged keeps its old counter and leaves the flag raised. As a result:
  - `a[x0].b[y0], a[x0].b[y1], a[x1].b[y1]` becomes `a[0].b[0], a[0].b[1], a[1].b[1]`
    (`RebaseScenarios.InnerCounterNotRestarted`);
  - `a[x0].b[y0], a[x1].b[y0], a[x1].b[y1]` gives the second and third items the same name `a[1].b[0]`
    (`RebaseScenarios.StaleResetFlagCollides`).
- **Property names ending in digits.** The match of `[[0-9]*]` also takes the digits that end a property name, so
  `Line1[5]` becomes `Line[0]` (`RebaseScenarios.TrailingDigitsAbsorbed`).
- **Gaps in the flag table.** The cascade loop re-reads its bound (line 52), so it fills gaps in the flag table
  (`RebaseScenarios.CascadeFillsGap`).

## Model

| member | source | states |
|---|---|---|
| JsText.IndexOf | trust.RebaseSerializeForm.js:39 | `indexOf`: the result is -1 exactly when the character is absent; otherwise it is a position holding the character, with no occurrence before it |
| JsText.LastIndexOf | trust.RebaseSerializeForm.js:123 | `lastIndexOf`: the result is -1 exactly when the character is absent; otherwise it is a position holding the character, with no occurrence after it |
| JsText.IndexOfAppend | trust.RebaseSerializeForm.js:80-81 | the first occurrence in a concatenation lies in the first part if that part has one; otherwise it lies in the second part, shifted by the first part's length |
| JsText.Substring | trust.RebaseSerializeForm.js:80 | `substring` never returns more than the string; with ordered ends inside the string it is exactly that slice |
| JsText.SubstringSymmetric | trust.RebaseSerializeForm.js:80 | `substring(a, b)` and `substring(b, a)` are equal, as JavaScript swaps the ends |
| JsText.Split | trust.RebaseSerializeForm.js:104 | `split('.')` yields at least one piece and no piece contains the separator |
| JsText.JoinSplit | trust.RebaseSerializeForm.js:104 | joining the pieces of a split with the separator gives back the original name |
| JsText.SplitJoin | trust.RebaseSerializeForm.js:104 | splitting a join of separator-free pieces gives back exactly those pieces |
| JsText.SplitKeepsAbsent | trust.RebaseSerializeForm.js:104 | a character absent from the name is absent from every piece |
| JsText.SplitFirstPiece | trust.RebaseSerializeForm.js:104 | the first piece is empty exactly when the name is empty or starts with the separator |
| JsText.NatToString | trust.RebaseSerializeForm.js:93 | the text of a counter in `'[' + newIndex + ']'` is a non-empty string of digits that starts with `0` only for zero |
| JsText.NatToStringRoundTrip | trust.RebaseSerializeForm.js:93 | reading the counter's text back as a decimal gives the counter |
| JsText.NatToStringInjective | trust.RebaseSerializeForm.js:93 | different counters are written as different texts |
| JsText.RunStart | trust.RebaseSerializeForm.js:93 | the start of the maximal run of `[`/digit characters that ends at a position |
| JsText.NoMatchUnchanged | trust.RebaseSerializeForm.js:93 | when `[[0-9]*]` matches nowhere, `replace` returns the segment unchanged |
| JsText.LeftmostMatchReplaced | trust.RebaseSerializeForm.js:93 | `ReplaceIndexer` models `replace` with `new RegExp('[[0-9]*]')`; `replace` with `[[0-9]*]` rewrites exactly the leftmost match and keeps everything before and after it |
| JsText.ReplaceIndexerSegment | trust.RebaseSerializeForm.js:93 | on `stem + tail + "[" + digits + "]" + rest`, where the name ends in a run of `[`/digits, the replacement swallows that run as well: the result is `stem + repl + rest` |
| RebaseSpec.Initial | trust.RebaseSerializeForm.js:33-35 | the empty `temp` object is a well-formed state |
| RebaseSpec.HasIndexer | trust.RebaseSerializeForm.js:38-40 | `hasIndexer` holds exactly when the segment contains `[` |
| RebaseSpec.ParseIndexedSegment | trust.RebaseSerializeForm.js:80-81 | `PropertyName` and `IndexText` model `pName` and `pIndex`: from `pName[idx]rest`, `pIndex` is read back as `idx` and `pName` as `pName` |
| RebaseSpec.KeyBound | trust.RebaseSerializeForm.js:52 | a bound above every flag position; it is zero only for an empty table, and otherwise one past a present position |
| RebaseSpec.CardBelow | trust.RebaseSerializeForm.js:52 | a flag table whose positions are below `n` has at most `n` entries, so the cascade loop terminates |
| RebaseSpec.CascadeFromSpec | trust.RebaseSerializeForm.js:50-55 | `CascadeFrom` models `setChildIndexesToBeReset` with its bound re-read every round; this lemma states its guarantee: every old entry is kept; every position from `j` up to the final number of entries is present and raised; entries below `j` keep their flag; new entries appear only in that range; the loop passed each position of that range only while it was below the number of entries it had then |
| RebaseSpec.CascadeSpecUnique | trust.RebaseSerializeForm.js:50-55 | at most one table meets the cascade's guarantee, so `CascadeFromSpec` fixes the loop's result exactly |
| RebaseSpec.InFilled | trust.RebaseSerializeForm.js:52 | the positions present when the loop tests its bound at `n` are the old ones and those it has visited |
| RebaseSpec.CascadeKeepsOwnFlag | trust.RebaseSerializeForm.js:50-55 | the cascade from `currentIndex + 1` neither adds, removes nor changes the flag at `currentIndex` |
| RebaseSpec.CascadeStep | trust.RebaseSerializeForm.js:52-53 | one round of the cascade loop preserves the cascade's guarantee |
| RebaseSpec.CascadeDense | trust.RebaseSerializeForm.js:50-55 | with flags at positions `0..n-1` exactly, the cascade from `j` adds no entry and raises exactly the positions from `j` on |
| RebaseSpec.SegmentStep | trust.RebaseSerializeForm.js:76-94 | one segment (`Lookup` reads `temp[pName]`, an unseen name reading as `{}`, line 84): without `[` the state and segment are unchanged; otherwise the name's `oldIndex` becomes the segment's index text, the segment becomes `replace` with the name's `newIndex`, and no other name's entry changes |
| RebaseSpec.SameIndexKeepsState | trust.RebaseSerializeForm.js:87-93 | an index text equal (as a string) to the name's `oldIndex` leaves table and flags unchanged and writes the existing `newIndex` |
| RebaseSpec.ChangedIndexCounter | trust.RebaseSerializeForm.js:87-91 | on a changed index, the counter is 0 when the position's flag is raised or the name is new, and the old counter plus one otherwise; the own flag ends lowered, shallower flags are kept, deeper flags are raised; apart from the own flag, the table is exactly the cascade from the next position |
| RebaseSpec.FlagPersists | trust.RebaseSerializeForm.js:58-63 | a raised flag at another position stays raised through any segment step |
| RebaseSpec.CounterStep | trust.RebaseSerializeForm.js:68-71 | after any segment step, every counter either stays, is 0, or is its old value plus one; only the segment's own name can move |
| RebaseSpec.RewrittenSegment | trust.RebaseSerializeForm.js:93 | a segment `stem + digits + [idx] + rest` is rewritten to `stem + [n] + rest`: digits that end the name are dropped, while a name that does not end in digits is kept |
| RebaseSpec.RewritePrefix | trust.RebaseSerializeForm.js:76-94 | processing the first `n` segments yields `n` rewritten segments, with every segment without `[` unchanged, and a well-formed state |
| RebaseSpec.RewritePlain | trust.RebaseSerializeForm.js:78 | segments without `[` pass through the loop unchanged and leave the state as it was |
| RebaseSpec.RebaseName | trust.RebaseSerializeForm.js:103-109 | rebasing a name keeps the table well-formed |
| RebaseSpec.JoinRebasedIsJoin | trust.RebaseSerializeForm.js:97 | `JoinRebased`, built by `AppendSegment`, models `rebasedProp`; the join in the loop equals `join('.')` when the first segment is non-empty |
| RebaseSpec.JoinRebasedSkipsEmpty | trust.RebaseSerializeForm.js:97 | a leading empty segment disappears from the joined result, together with its dot |
| RebaseSpec.PlainNameUnchanged | trust.RebaseSerializeForm.js:103-109 | a name without `[` that does not start with `.` comes back identical, and the state is unchanged |
| RebaseSpec.EntryUntouched | trust.RebaseSerializeForm.js:84-91 | a name's entry is unchanged by later segments that are not its own |
| RebaseSpec.RepeatedNameStable | trust.RebaseSerializeForm.js:87-93 | rebasing a name again right after itself changes no state and gives the same result, when no property name repeats inside it |
| RebaseSpec.RepeatedSegmentsStable | trust.RebaseSerializeForm.js:87-93 | when no property name repeats among the segments, processing them again from the state they left gives the same segments and the same state, prefix by prefix |
| RebaseSpec.RewriteOutputs | trust.RebaseSerializeForm.js:93 | a rewritten segment is not altered by processing later segments |
| RebaseSpec.InsertByKey | trust.RebaseSerializeForm.js:123 | inserting adds exactly the one item |
| RebaseSpec.InsertKeepsSorted | trust.RebaseSerializeForm.js:123 | inserting into a list sorted by descending key keeps it sorted |
| RebaseSpec.SortByLastBracket | trust.RebaseSerializeForm.js:123 | `SortKey` is the comparator's `lastIndexOf(']')`; the sort is a permutation of the form, sorted descending by `lastIndexOf(']')`, with the same length |
| RebaseSpec.SortIsStable | trust.RebaseSerializeForm.js:123 | items with equal keys keep their relative order |
| RebaseSpec.InsertStable | trust.RebaseSerializeForm.js:123 | inserting an item puts it before all items of its key that are already there, and keeps their order |
| RebaseSpec.SeedNothing | trust.RebaseSerializeForm.js:126-133 | seeding from no segments leaves the flags unchanged |
| RebaseSpec.SeedOneMore | trust.RebaseSerializeForm.js:127-131 | `SeedFlags` models the seeding loop; one more segment of the first item adds a lowered flag at its position exactly when it is bracketed and has no entry yet |
| RebaseSpec.RenamePrefix | trust.RebaseSerializeForm.js:138-140 | renaming the first `n` items yields `n` items, each with its value unchanged |
| RebaseSpec.RebasedItems | trust.RebaseSerializeForm.js:122-141 | the whole run fails exactly on the empty form; otherwise it yields as many items as went in, carrying the values of the sorted form in order |
| RebaseSpec.ValuesAppend | trust.RebaseSerializeForm.js:138-140 | the values of two joined item lists are the two value lists joined |
| RebaseSpec.ValuesOfPermutation | trust.RebaseSerializeForm.js:123 | a permutation of items permutes their values |
| RebaseSpec.ValuesPointwise | trust.RebaseSerializeForm.js:139 | items with equal values position by position have equal value lists |
| RebaseSpec.RebasedValuesPermutation | trust.RebaseSerializeForm.js:122-141 | the rebased form carries exactly the input's values, each as often |
| Rebaser.Rebaser.constructor | trust.RebaseSerializeForm.js:33-35 | a fresh `temp` is the empty, well-formed state |
| Rebaser.Rebaser.SetChildIndexesToBeReset | trust.RebaseSerializeForm.js:50-55 | the loop leaves the flags equal to the cascade from `currentIndex + 1` and the table untouched |
| Rebaser.Rebaser.ResetChildIndex | trust.RebaseSerializeForm.js:58-63 | a raised flag at the position is lowered and the name's `newIndex` forgotten; otherwise nothing changes |
| Rebaser.Rebaser.IncrementObjectIndex | trust.RebaseSerializeForm.js:68-71 | `oldIndex` becomes the index text; `newIndex` becomes 0 if undefined, otherwise the old value plus one; flags unchanged |
| Rebaser.Rebaser.RebaseSegment | trust.RebaseSerializeForm.js:78-94 | the loop body's new state and rewritten segment are exactly `SegmentStep` of the old state |
| Rebaser.Rebaser.RebaseProperties | trust.RebaseSerializeForm.js:74-100 | the segments array is rewritten in place to the outputs of `RewritePrefix`, the state advances accordingly, and the result is their dotted join |
| Rebaser.Rebaser.RebaseFormProperty | trust.RebaseSerializeForm.js:103-109 | the new state and returned name are exactly `RebaseName` of the old state |
| Rebaser.Rebaser.GetPropertyLevels | trust.RebaseSerializeForm.js:122-134 | the form is sorted in place. It fails exactly on an empty form, leaving the flags alone. Otherwise the flags are seeded from the first sorted item's segments. The table is untouched |
| Rebaser.Rebaser.SeedLevels | trust.RebaseSerializeForm.js:126-133 | the seeding loop leaves the flags equal to `SeedFlags` of the segments |
| Rebaser.SortForm | trust.RebaseSerializeForm.js:123 | the array ends as the stable descending sort of its old contents |
| Rebaser.RenameItems | trust.RebaseSerializeForm.js:138-140 | the array and the rebaser end as `RenamePrefix` of the old contents and state |
| Rebaser.RebaseForm | trust.RebaseSerializeForm.js:137-141 | succeeds exactly on a non-empty form, which it leaves as `RebasedItems` of the input; an empty form is left as it was |
| RebaseScenarios.ParseIndexed | trust.RebaseSerializeForm.js:80-81 | `pName[idx]` has an indexer, property name `pName` and index text `idx` |
| RebaseScenarios.ReplaceIndexed | trust.RebaseSerializeForm.js:93 | for a name not ending in a digit, `pName[idx]` is rewritten to `pName` followed by the replacement |
| RebaseScenarios.ChangedStep | trust.RebaseSerializeForm.js:87-93 | a changed index at an unflagged position takes the next counter and raises the deeper flags |
| RebaseScenarios.ResetStep | trust.RebaseSerializeForm.js:58-63 | a changed index at a flagged position restarts at 0 and lowers its own flag |
| RebaseScenarios.RepeatedStep | trust.RebaseSerializeForm.js:87-93 | an index seen last for its name keeps the state and writes the existing counter |
| RebaseScenarios.OneSegmentName | trust.RebaseSerializeForm.js:103-109 | a name without a dot is one segment step at position 0 |
| RebaseScenarios.TwoSegmentName | trust.RebaseSerializeForm.js:103-109 | a name `a.b` is the step on `a` at 0, then the step on `b` at 1, joined with a dot |
| RebaseScenarios.EqualKeysUnsorted | trust.RebaseSerializeForm.js:123 | a form whose items all have the same key is left in its order by the sort |
| RebaseScenarios.PlainFormUnchanged | trust.RebaseSerializeForm.js:122-141 | a form with no brackets, and no name starting with `.`, comes back identical |
| RebaseScenarios.FlatListRenumbered | trust.RebaseSerializeForm.js:138-140 | in a flat list `pName[i0], pName[i1], ...` whose consecutive index texts differ, item `k` becomes `pName[k]` |
| RebaseScenarios.FlatFormRenumbered | trust.RebaseSerializeForm.js:122-141 | a whole flat form with index texts of one length, consecutive ones differing, is renumbered 0, 1, 2, ... in order, values kept |
| RebaseScenarios.TwoLevelCascade | trust.RebaseSerializeForm.js:50-55 | with two positions seeded, a change at 0 raises 1 and a change at 1 raises nothing |
| RebaseScenarios.NestedFirst | trust.RebaseSerializeForm.js:87-93 | the first item `a[x].b[y]` of a nested form becomes `a[0].b[0]` |
| RebaseScenarios.NestedOuterChange | trust.RebaseSerializeForm.js:87-91 | a change of outer index takes the next outer counter and raises the inner flag, without touching the inner counter |
| RebaseScenarios.NestedInnerOnly | trust.RebaseSerializeForm.js:87-91 | a change of inner index alone moves only the inner counter |
| RebaseScenarios.NestedInnerChange | trust.RebaseSerializeForm.js:58-63 | a changed inner index under a raised flag restarts at 0 |
| RebaseScenarios.NestedFormRebased | trust.RebaseSerializeForm.js:122-141 | `a[x0].b[y], a[x1].b[y]` becomes `a[0].b[0], a[1].b[0]` |
| RebaseScenarios.StaleResetFlagCollides | trust.RebaseSerializeForm.js:87-90 | two different names can be rebased to the same `a[1].b[0]`, since the inner flag is lowered only on a changed inner index |
| RebaseScenarios.InnerCounterNotRestarted | trust.RebaseSerializeForm.js:87-90 | an outer change does not restart an inner counter whose index text stays the same |
| RebaseScenarios.CascadeFillsGap | trust.RebaseSerializeForm.js:52 | with the bound re-read, the cascade from 1 over flags at 0, 1, 3 also creates and raises 2 |
| RebaseScenarios.TrailingDigitsAbsorbed | trust.RebaseSerializeForm.js:93 | `Line1[5]` is rewritten to `Line[0]` |
| RebaseScenarios.FirstSightDropsDigits | trust.RebaseSerializeForm.js:93 | for any name first seen that ends in digits, those digits are lost and the segment becomes the name's stem with `[0]` |
| DocumentedExample.SeedCascade | trust.RebaseSerializeForm.js:50-55 | the first change at position 0 fills the gap left by the plain segment |
| DocumentedExample.FourSegmentName | trust.RebaseSerializeForm.js:103-109 | a four-segment name is its four segment steps, joined with dots |
| DocumentedExample.DeepSeeded | trust.RebaseSerializeForm.js:126-133 | the name `c[0].e[0].p.l[idx]` seeds positions 0, 1 and 3 only |
| DocumentedExample.DeepFirst | trust.RebaseSerializeForm.js:87-93 | the first such name has every counter start at 0 |
| DocumentedExample.DeepNext | trust.RebaseSerializeForm.js:87-93 | a later name with a new list index keeps the parents at 0 and moves the list counter on by one |
| DocumentedExample.DeepListRenumbered | trust.RebaseSerializeForm.js:138-140 | item `k` of such a list, whose consecutive list index texts differ, becomes `c[0].e[0].p.l[k]` |
| DocumentedExample.DeepFormRenumbered | trust.RebaseSerializeForm.js:122-141 | a whole form of such names is renumbered in order, with parents, plain segment and values kept |
| DocumentedExample.DocumentedExample | trust.RebaseSerializeForm.js:8-22 | the documented `...ListOfEmails[2]`, `[4]`, `[8]` become `[0]`, `[1]`, `[2]`, with `Company[0]` and `Entity[0]` unchanged |

## Left out

- Plugin registration and DOM collection (lines 25–26). `$.fn.serializeArrayWithRebaseing` and `this.serializeArray()`
  read the page's form fields. The form is taken as a given array of items instead.
- `$.each` (lines 126 and 138) is modelled as an ordinary indexed loop.
- The sort algorithm of the JavaScript engine (line 123) is not modelled. The sort is modelled as a stable sort by the
  comparator's key, as `Array.prototype.sort` is required to be stable. The insertion procedure is not the engine's.
- The shared `temp` object. Property names share one object with the flag table and with `Object.prototype`, so a
  property named `resetObjectIndex`, `constructor` or `__proto__` would read or overwrite something else. The model keeps
  the name table and the flag table as two separate maps, keyed by the name text alone.
- Large counters. JavaScript numbers are doubles: from 2^53 on, `newIndex + 1` (line 70) no longer increases, and from
  10^21 on the number is written in exponent notation. `IncrementObjectIndex` always adds one, and `NatToString` always
  writes plain decimal digits.
- JsText.LastIndexOf: positions count characters (Unicode code points), while JavaScript's `lastIndexOf` and
  `indexOf` count UTF-16 code units. A name holding a character outside the Basic Multilingual Plane has a larger key in
  JavaScript than in the model, so `SortByLastBracket` can order such names differently from line 123, and a different
  first item then seeds the flags (lines 126–133). `JsText.IndexOf` and `JsText.Substring` use the same counting, which
  does not change what the segment parsing returns, as those positions only cut the same segment.
- The thrown `TypeError` on an empty form (line 126) is modelled as a failure result (`None`, or `false`), not as an
  exception.
