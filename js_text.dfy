/**
  The JavaScript string operations the form rebaser relies on, over strings as
  sequences of characters: `indexOf`, `lastIndexOf`, `substring`, `split`,
  number-to-string conversion of a counter, and the first-match replacement done
  by `replace(new RegExp('[[0-9]*]'), ...)`.
 */
module JsText {

  /** `s.indexOf(c)`: the position of the first `c` in `s`, or -1 when there is none. */
  function IndexOf(s: string, c: char): (r: int)
    ensures -1 <= r < |s|
    ensures r == -1 <==> c !in s
    ensures r >= 0 ==> s[r] == c && c !in s[..r]
  {
    if |s| == 0 then -1
    else if s[0] == c then 0
    else
      var t := IndexOf(s[1..], c);
      assert s[1..][..if t < 0 then 0 else t] == s[1..if t < 0 then 1 else t + 1];
      if t == -1 then -1 else t + 1
  }

  /** `s.lastIndexOf(c)`: the position of the last `c` in `s`, or -1 when there is none. */
  function LastIndexOf(s: string, c: char): (r: int)
    ensures -1 <= r < |s|
    ensures r == -1 <==> c !in s
    ensures r >= 0 ==> s[r] == c && c !in s[r + 1..]
  {
    if |s| == 0 then -1
    else if s[|s| - 1] == c then |s| - 1
    else
      assert s == s[..|s| - 1] + [s[|s| - 1]];
      LastIndexOf(s[..|s| - 1], c)
  }

  /** Searching a concatenation: the first `c` is in `a` if `a` has one, otherwise in `b`. */
  lemma {:induction false} IndexOfAppend(a: string, b: string, c: char)
    ensures c in a ==> IndexOf(a + b, c) == IndexOf(a, c)
    ensures c !in a ==> IndexOf(a + b, c) == if c in b then |a| + IndexOf(b, c) else -1
  {
    if |a| > 0 {
      assert (a + b)[1..] == a[1..] + b;
      IndexOfAppend(a[1..], b, c);
    } else {
      assert a + b == b;
    }
  }

  /** JavaScript clamps each end of `substring` into [0, |s|]. */
  function Clamp(x: int, n: nat): (r: nat)
    ensures r <= n
    ensures 0 <= x <= n ==> r == x
  {
    if x < 0 then 0 else if x > n then n else x
  }

  /**
    `s.substring(a, b)`: both ends are clamped into [0, |s|] and swapped when the
    first is larger, so that the result is always a slice of `s`.
   */
  function Substring(s: string, a: int, b: int): (r: string)
    ensures |r| <= |s|
    ensures 0 <= a <= b <= |s| ==> r == s[a..b]
  {
    var lo, hi := Clamp(a, |s|), Clamp(b, |s|);
    if lo <= hi then s[lo..hi] else s[hi..lo]
  }

  /** The order of the two ends of `substring` does not matter. */
  lemma SubstringSymmetric(s: string, a: int, b: int)
    ensures Substring(s, a, b) == Substring(s, b, a)
  {
  }

  /**
    `s.split(sep)` with a one-character separator: the pieces between separators,
    in order, always at least one (`"".split(".")` is `[""]`).
   */
  function Split(s: string, sep: char): (parts: seq<string>)
    ensures |parts| >= 1
    ensures forall k :: 0 <= k < |parts| ==> sep !in parts[k]
    decreases |s|
  {
    var k := IndexOf(s, sep);
    if k == -1 then [s] else [s[..k]] + Split(s[k + 1..], sep)
  }

  /** `parts.join(sep)`. */
  function Join(parts: seq<string>, sep: char): (s: string)
    decreases |parts|
  {
    if |parts| == 0 then ""
    else if |parts| == 1 then parts[0]
    else parts[0] + [sep] + Join(parts[1..], sep)
  }

  /** Joining the pieces of a split gives back the original string. */
  lemma {:induction false} JoinSplit(s: string, sep: char)
    ensures Join(Split(s, sep), sep) == s
    decreases |s|
  {
    var k := IndexOf(s, sep);
    if k != -1 {
      var head, tail := s[..k], s[k + 1..];
      JoinSplit(tail, sep);
      JoinCons(head, Split(tail, sep), sep);
      AroundSeparator(s, k, sep);
    }
  }

  /** A string is the text before position `k`, the character at `k`, and the text after it. */
  lemma AroundSeparator(s: string, k: nat, sep: char)
    requires k < |s| && s[k] == sep
    ensures s == s[..k] + [sep] + s[k + 1..]
  {
  }

  /** Joining a piece in front of at least one more. */
  lemma JoinCons(head: string, rest: seq<string>, sep: char)
    requires |rest| >= 1
    ensures Join([head] + rest, sep) == head + [sep] + Join(rest, sep)
  {
    assert ([head] + rest)[1..] == rest;
  }

  /** Splitting a join of separator-free pieces gives back the pieces. */
  lemma {:induction false} SplitJoin(parts: seq<string>, sep: char)
    requires |parts| >= 1
    requires forall k :: 0 <= k < |parts| ==> sep !in parts[k]
    ensures Split(Join(parts, sep), sep) == parts
    decreases |parts|
  {
    if |parts| > 1 {
      var head, tail := parts[0], Join(parts[1..], sep);
      var s := head + ([sep] + tail);
      assert Join(parts, sep) == s;
      IndexOfAppend(head, [sep] + tail, sep);
      assert IndexOf(s, sep) == |head|;
      assert s[..|head|] == head && s[|head| + 1..] == tail;
      SplitJoin(parts[1..], sep);
      assert Split(s, sep) == [head] + parts[1..];
    }
  }

  /** A string without the separator splits into itself alone. */
  lemma SplitWithoutSeparator(s: string, sep: char)
    requires sep !in s
    ensures Split(s, sep) == [s]
  {
  }

  /** A character absent from `s` is absent from every piece of its split. */
  lemma {:induction false} SplitKeepsAbsent(s: string, sep: char, c: char)
    requires c !in s
    ensures forall k :: 0 <= k < |Split(s, sep)| ==> c !in Split(s, sep)[k]
    decreases |s|
  {
    var k := IndexOf(s, sep);
    if k != -1 {
      assert s == s[..k] + [sep] + s[k + 1..];
      SplitKeepsAbsent(s[k + 1..], sep, c);
    }
  }

  /** The first piece of a split is empty exactly when the string starts with the separator. */
  lemma SplitFirstPiece(s: string, sep: char)
    ensures Split(s, sep)[0] == [] <==> s == [] || s[0] == sep
  {
    var k := IndexOf(s, sep);
    if k == -1 {
      assert s != [] ==> s[0] != sep by { if s != [] { assert s[0] in s; } }
    }
  }

  // ---------------------------------------------------------------------------
  // Decimal text of a counter: what `'[' + n + ']'` puts between the brackets.
  // ---------------------------------------------------------------------------

  predicate IsDigit(c: char) {
    '0' <= c <= '9'
  }

  function DigitChar(d: nat): (c: char)
    requires d < 10
    ensures IsDigit(c)
    ensures (c == '0') == (d == 0)
  {
    (('0' as int) + d) as char
  }

  function DigitValue(c: char): (d: nat)
    requires IsDigit(c)
    ensures d < 10
  {
    (c as int) - ('0' as int)
  }

  predicate AllDigits(s: string) {
    forall k :: 0 <= k < |s| ==> IsDigit(s[k])
  }

  /** The decimal value of a digit string. */
  function DigitsValue(s: string): nat
    requires AllDigits(s)
  {
    if |s| == 0 then 0 else DigitsValue(s[..|s| - 1]) * 10 + DigitValue(s[|s| - 1])
  }

  /**
    JavaScript's conversion of a non-negative integer counter to text: its decimal
    digits, with a leading `0` only for zero itself.
   */
  function NatToString(n: nat): (r: string)
    ensures |r| >= 1 && AllDigits(r)
    ensures (r[0] == '0') == (n == 0)
  {
    if n < 10 then [DigitChar(n)] else NatToString(n / 10) + [DigitChar(n % 10)]
  }

  /** Reading the decimal text back gives the counter: the conversion loses nothing. */
  lemma {:induction false} NatToStringRoundTrip(n: nat)
    ensures DigitsValue(NatToString(n)) == n
  {
    var r := NatToString(n);
    if n >= 10 {
      NatToStringRoundTrip(n / 10);
      assert r[..|r| - 1] == NatToString(n / 10);
    }
  }

  /** Distinct counters are written as distinct texts. */
  lemma NatToStringInjective(m: nat, n: nat)
    requires NatToString(m) == NatToString(n)
    ensures m == n
  {
    NatToStringRoundTrip(m);
    NatToStringRoundTrip(n);
  }

  // ---------------------------------------------------------------------------
  // The regular expression `[[0-9]*]`: a run of `[` or digit characters followed
  // by a literal `]`. `String.replace` with it rewrites only the leftmost match.
  // ---------------------------------------------------------------------------

  /** The characters of the class `[[0-9]`. */
  predicate IsIndexerChar(c: char) {
    c == '[' || IsDigit(c)
  }

  /** `s[p..e]` is a match of `[[0-9]*]`. */
  predicate MatchesAt(s: string, p: nat, e: nat) {
    p < e <= |s| && s[e - 1] == ']' && forall k :: p <= k < e - 1 ==> IsIndexerChar(s[k])
  }

  /** The start of the longest run of class characters that ends just before position `q`. */
  function RunStart(s: string, q: nat): (p: nat)
    requires q <= |s|
    ensures p <= q
    ensures forall k :: p <= k < q ==> IsIndexerChar(s[k])
    ensures p == 0 || !IsIndexerChar(s[p - 1])
  {
    if q == 0 || !IsIndexerChar(s[q - 1]) then q else RunStart(s, q - 1)
  }

  /**
    `s.replace(new RegExp('[[0-9]*]'), repl)`. Since `]` is not in the class, the
    leftmost match ends at the first `]` of `s` and starts where the run of class
    characters before that `]` starts; without a `]` nothing matches.
   */
  function ReplaceIndexer(s: string, repl: string): string
  {
    var q := IndexOf(s, ']');
    if q == -1 then s else s[..RunStart(s, q)] + repl + s[q + 1..]
  }

  /** When the pattern matches nowhere, the replacement leaves the string alone. */
  lemma NoMatchUnchanged(s: string, repl: string)
    requires forall p: nat, e: nat :: !MatchesAt(s, p, e)
    ensures ReplaceIndexer(s, repl) == s
  {
    var q := IndexOf(s, ']');
    if q != -1 {
      assert MatchesAt(s, RunStart(s, q), q + 1);
    }
  }

  /** Only the leftmost match `s[p..e]` is rewritten; everything around it is kept. */
  lemma LeftmostMatchReplaced(s: string, repl: string, p: nat, e: nat)
    requires MatchesAt(s, p, e)
    requires forall p': nat, e': nat :: MatchesAt(s, p', e') ==> p <= p'
    ensures ReplaceIndexer(s, repl) == s[..p] + repl + s[e..]
  {
    var q := IndexOf(s, ']');
    assert s[e - 1] in s;
    var p0 := RunStart(s, q);
    assert MatchesAt(s, p0, q + 1);
    assert q == e - 1;
    assert p == p0;
  }

  /**
    The replacement on a segment `stem + tail + "[" + idx + "]" + rest`, where
    `tail` is the (possibly empty) run of `[`/digit characters at the end of the
    property name: the match swallows `tail` as well as the bracketed index.
   */
  lemma ReplaceIndexerSegment(stem: string, tail: string, idx: string, rest: string, repl: string)
    requires ']' !in stem && ']' !in tail
    requires stem == [] || !IsIndexerChar(stem[|stem| - 1])
    requires forall k :: 0 <= k < |tail| ==> IsIndexerChar(tail[k])
    requires AllDigits(idx)
    ensures ReplaceIndexer(stem + tail + "[" + idx + "]" + rest, repl) == stem + repl + rest
  {
    var s := stem + tail + "[" + idx + "]" + rest;
    var e := |stem| + |tail| + |idx| + 2;
    IndexedRunMatches(stem, tail, idx, rest);
    NoMatchInStem(stem, tail + "[" + idx + "]" + rest);
    assert s == stem + (tail + "[" + idx + "]" + rest);
    LeftmostMatchReplaced(s, repl, |stem|, e);
    assert s[..|stem|] == stem;
    assert s[e..] == rest;
  }

  /** The run `tail + "[" + idx + "]"` after the stem is a match of `[[0-9]*]`. */
  lemma IndexedRunMatches(stem: string, tail: string, idx: string, rest: string)
    requires forall k :: 0 <= k < |tail| ==> IsIndexerChar(tail[k])
    requires AllDigits(idx)
    ensures MatchesAt(stem + tail + "[" + idx + "]" + rest, |stem|, |stem| + |tail| + |idx| + 2)
  {
    var s := stem + tail + "[" + idx + "]" + rest;
    var e := |stem| + |tail| + |idx| + 2;
    assert s[e - 1] == ']';
    forall k | |stem| <= k < e - 1 ensures IsIndexerChar(s[k]) {
      if k < |stem| + |tail| {
        assert s[k] == tail[k - |stem|];
      } else if k == |stem| + |tail| {
        assert s[k] == '[';
      } else {
        assert s[k] == idx[k - |stem| - |tail| - 1];
      }
    }
  }

  /**
    No match starts inside a stem without `]` whose last character is outside the
    class: its `]` would lie in the stem, or its run would cross that last character.
   */
  lemma NoMatchInStem(stem: string, after: string)
    requires ']' !in stem
    requires stem == [] || !IsIndexerChar(stem[|stem| - 1])
    ensures forall p': nat, e': nat :: MatchesAt(stem + after, p', e') ==> |stem| <= p'
  {
    var s := stem + after;
    forall p': nat, e': nat | MatchesAt(s, p', e') ensures |stem| <= p' {
      assert s[..|stem|] == stem;
    }
  }
}
