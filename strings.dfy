/** The handful of Python `str` operations the linter is built from, with the
    facts about them that the rest of the model needs: `partition`, `split(c)`,
    `split()`, `strip()`, `join`, `lstrip(c)`, `replace`, the code-point ordering
    of strings and `sorted`. */
module Strings {
  import opened Results

  /** Python's `str.isspace` for one character: the characters that `split()`
      and `strip()` treat as whitespace. */
  predicate IsSpace(c: char) {
    var n := c as int;
    (9 <= n <= 13) || (28 <= n <= 32) || n == 0x85 || n == 0xA0 || n == 0x1680
    || (0x2000 <= n <= 0x200A) || n == 0x2028 || n == 0x2029 || n == 0x202F
    || n == 0x205F || n == 0x3000
  }

  /** No whitespace at either end. */
  predicate Trimmed(s: string) {
    s == [] || (!IsSpace(s[0]) && !IsSpace(s[|s| - 1]))
  }

  predicate NoSpace(s: string) {
    forall i :: 0 <= i < |s| ==> !IsSpace(s[i])
  }

  // ---------------------------------------------------------------------------
  // Searching and `partition`
  // ---------------------------------------------------------------------------

  /** `pat` occurs in `s` starting at position `j`. */
  predicate OccursAt(s: string, pat: string, j: nat) {
    j + |pat| <= |s| && s[j..j + |pat|] == pat
  }

  /** Python's `pat in s`. */
  predicate Contains(s: string, pat: string) {
    exists j: nat :: j <= |s| && OccursAt(s, pat, j)
  }

  /** The first position at or after `from` where `pat` occurs in `s`. */
  function IndexOf(s: string, pat: string, from: nat): (r: Option<nat>)
    requires from <= |s|
    ensures r.Some? ==> from <= r.value && OccursAt(s, pat, r.value)
    ensures r.Some? ==> forall j: nat :: from <= j < r.value ==> !OccursAt(s, pat, j)
    ensures r.None? ==> forall j: nat :: from <= j ==> !OccursAt(s, pat, j)
    decreases |s| - from
  {
    if OccursAt(s, pat, from) then Some(from)
    else if from == |s| then None
    else IndexOf(s, pat, from + 1)
  }

  datatype Partitioned = Partitioned(before: string, found: bool, after: string)

  /** Python's `s.partition(sep)`: split at the first occurrence of `sep`. */
  function Partition(s: string, sep: string): (p: Partitioned)
    requires sep != ""
    ensures p.found ==> s == p.before + sep + p.after && OccursAt(s, sep, |p.before|)
    ensures p.found ==> forall j: nat :: j < |p.before| ==> !OccursAt(s, sep, j)
    ensures !p.found ==> p.before == s && p.after == "" && !Contains(s, sep)
  {
    match IndexOf(s, sep, 0)
    case None => Partitioned(s, false, "")
    case Some(i) =>
      assert s == s[..i] + s[i..i + |sep|] + s[i + |sep|..];
      Partitioned(s[..i], true, s[i + |sep|..])
  }

  /** Partitioning at a character that does not occur changes nothing. */
  lemma PartitionCharAbsent(s: string, c: char)
    requires c !in s
    ensures Partition(s, [c]) == Partitioned(s, false, "")
  {
    forall j: nat | j < |s| ensures !OccursAt(s, [c], j) {
      assert s[j..j + 1] == [s[j]];
    }
    assert !Contains(s, [c]);
  }

  /** Partitioning `a + [c] + b` at `c`, where `a` holds no `c`, gives back `a` and `b`. */
  lemma PartitionCharFirst(a: string, c: char, b: string)
    requires c !in a
    ensures Partition(a + [c] + b, [c]) == Partitioned(a, true, b)
  {
    var s := a + [c] + b;
    assert OccursAt(s, [c], |a|) by {
      assert s[|a|..|a| + 1] == [c];
    }
    forall j: nat | j < |a| ensures !OccursAt(s, [c], j) {
      assert s[j..j + 1] == [a[j]];
    }
    assert Contains(s, [c]);
    var p := Partition(s, [c]);
    assert |p.before| == |a|;
    assert p.before == s[..|a|] == a;
    assert p.after == s[|a| + 1..] == b;
  }

  /** What comes before the first `c` holds no `c`. */
  lemma PartitionCharBefore(s: string, c: char)
    ensures c !in Partition(s, [c]).before
  {
    var p := Partition(s, [c]);
    if p.found {
      forall j | 0 <= j < |p.before| ensures p.before[j] != c {
        assert !OccursAt(s, [c], j);
        assert s[j] == p.before[j];
        assert s[j..j + 1] == [s[j]];
      }
    } else {
      forall j | 0 <= j < |s| ensures s[j] != c {
        assert !OccursAt(s, [c], j);
        assert s[j..j + 1] == [s[j]];
      }
    }
  }

  /** A pattern at the very start is found there, with nothing before it. */
  lemma PartitionAtStart(pat: string, rest: string)
    requires pat != ""
    ensures Partition(pat + rest, pat) == Partitioned("", true, rest)
  {
    var s := pat + rest;
    assert OccursAt(s, pat, 0) by {
      assert s[0..|pat|] == pat;
    }
    assert s[|pat|..] == rest;
  }

  /** One differing character rules out an occurrence. */
  lemma Mismatch(s: string, pat: string, j: nat, k: nat)
    requires k < |pat|
    requires j + |pat| <= |s| ==> s[j + k] != pat[k]
    ensures !OccursAt(s, pat, j)
  {
    if j + |pat| <= |s| {
      assert s[j..j + |pat|][k] == s[j + k];
    }
  }

  /** The first occurrence at `k` is where `partition` cuts. */
  lemma PartitionFirstAt(s: string, pat: string, k: nat)
    requires pat != "" && OccursAt(s, pat, k)
    requires forall j: nat :: j < k ==> !OccursAt(s, pat, j)
    ensures Partition(s, pat) == Partitioned(s[..k], true, s[k + |pat|..])
  {
    assert Contains(s, pat);
    var p := Partition(s, pat);
    assert |p.before| == k;
    assert p.before == s[..k];
    assert p.after == s[k + |pat|..];
  }

  /** When `pat` does not occur in `before` followed by all but its last
      character, its first occurrence in `before + pat + rest` is right after
      `before`. */
  lemma PartitionAfter(before: string, pat: string, rest: string)
    requires pat != "" && !Contains(before + pat[..|pat| - 1], pat)
    ensures Partition(before + pat + rest, pat) == Partitioned(before, true, rest)
  {
    var s := before + pat + rest;
    var a := before + pat[..|pat| - 1];
    assert OccursAt(s, pat, |before|) by {
      assert s[|before|..|before| + |pat|] == pat;
    }
    assert s[..|a|] == a;
    forall j: nat | j < |before| ensures !OccursAt(s, pat, j) {
      assert !OccursAt(a, pat, j);
      PrefixSlice(a, s, j, j + |pat|);
    }
    PartitionFirstAt(s, pat, |before|);
    assert s[..|before|] == before;
    assert s[|before| + |pat|..] == rest;
  }

  /** A slice inside a prefix of `s` is the same slice of `s`. */
  lemma PrefixSlice(a: string, s: string, i: nat, k: nat)
    requires |a| <= |s| && s[..|a|] == a && i <= k <= |a|
    ensures s[i..k] == a[i..k]
  {
    forall m | 0 <= m < k - i ensures s[i..k][m] == a[i..k][m] {
      assert s[i + m] == s[..|a|][i + m];
    }
  }

  /** Occurrences in a suffix are occurrences in the whole, shifted. */
  lemma OccursShift(a: string, b: string, pat: string, j: nat)
    ensures OccursAt(a + b, pat, |a| + j) == OccursAt(b, pat, j)
  {
    if j + |pat| <= |b| {
      assert (a + b)[|a| + j..|a| + j + |pat|] == b[j..j + |pat|];
    }
  }

  /** A pattern that does not occur in `a + b` does not occur in `a`. */
  lemma NotContainedInPrefix(a: string, b: string, pat: string)
    requires !Contains(a + b, pat)
    ensures !Contains(a, pat)
  {
    forall j: nat | j <= |a| ensures !OccursAt(a, pat, j) {
      if OccursAt(a, pat, j) {
        assert (a + b)[j..j + |pat|] == a[j..j + |pat|];
        assert OccursAt(a + b, pat, j);
      }
    }
  }

  // ---------------------------------------------------------------------------
  // `split(c)` and `join`
  // ---------------------------------------------------------------------------

  /** Python's `s.split(c)` for a one-character separator: always at least one
      piece, and no piece holds the separator. */
  function Split(s: string, c: char): (r: seq<string>)
    ensures |r| >= 1
    ensures forall p :: p in r ==> c !in p
    ensures forall p, x :: p in r && x in p ==> x in s
    decreases |s|
  {
    if s == [] then [""]
    else
      var rest := Split(s[1..], c);
      if s[0] == c then [""] + rest
      else
        assert rest[0] in rest;
        [[s[0]] + rest[0]] + rest[1..]
  }

  /** Python's `sep.join(xs)`. */
  function Join(sep: string, xs: seq<string>): string
  {
    if |xs| == 0 then ""
    else if |xs| == 1 then xs[0]
    else xs[0] + sep + Join(sep, xs[1..])
  }

  lemma {:induction false} SplitPrefix(x: string, tail: string, c: char)
    requires c !in x
    ensures Split(x + tail, c) == [x + Split(tail, c)[0]] + Split(tail, c)[1..]
    decreases |x|
  {
    if x == [] {
      var parts := Split(tail, c);
      assert x + tail == tail;
      assert x + parts[0] == parts[0];
      assert [parts[0]] + parts[1..] == parts;
    } else {
      assert (x + tail)[1..] == x[1..] + tail;
      SplitPrefix(x[1..], tail, c);
      assert [x[0]] + (x[1..] + Split(tail, c)[0]) == x + Split(tail, c)[0];
    }
  }

  /** Splitting a joined list at a separator none of its items contains gives
      the list back. */
  /** Text without the separator put after a string lengthens its last
      piece. */
  lemma SplitSuffix(x: string, pad: string, c: char)
    requires c !in pad
    ensures Split(x + pad, c) == Split(x, c)[..|Split(x, c)| - 1] + [Split(x, c)[|Split(x, c)| - 1] + pad]
  {
    var ps := Split(x, c);
    var n := |ps|;
    var qs := ps[..n - 1] + [ps[n - 1] + pad];
    JoinSplit(x, c);
    JoinAppendLast([c], ps, pad);
    forall i | 0 <= i < n ensures c !in qs[i] {
      assert ps[i] in ps;
    }
    SplitJoin(qs, c);
  }

  /** Text put after a joined list lengthens its last item. */
  lemma {:induction false} JoinAppendLast(sep: string, xs: seq<string>, t: string)
    requires |xs| >= 1
    ensures Join(sep, xs[..|xs| - 1] + [xs[|xs| - 1] + t]) == Join(sep, xs) + t
  {
    var n := |xs|;
    var ys := xs[..n - 1] + [xs[n - 1] + t];
    if n >= 2 {
      JoinAppendLast(sep, xs[1..], t);
      assert ys[1..] == xs[1..][..n - 2] + [xs[1..][n - 2] + t];
    }
  }

  lemma {:induction false} SplitJoin(xs: seq<string>, c: char)
    requires |xs| >= 1
    requires forall i :: 0 <= i < |xs| ==> c !in xs[i]
    ensures Split(Join([c], xs), c) == xs
  {
    if |xs| == 1 {
      SplitPrefix(xs[0], "", c);
      assert xs[0] + "" == xs[0];
    } else {
      var rest := Join([c], xs[1..]);
      SplitJoin(xs[1..], c);
      assert Join([c], xs) == xs[0] + ([c] + rest);
      SplitPrefix(xs[0], [c] + rest, c);
      assert ([c] + rest)[1..] == rest;
      assert xs[0] + "" == xs[0];
      assert [xs[0]] + xs[1..] == xs;
    }
  }

  /** Joining the pieces of a split with the separator gives the string back. */
  lemma {:induction false} JoinSplit(s: string, c: char)
    ensures Join([c], Split(s, c)) == s
    decreases |s|
  {
    if s != [] {
      var rest := Split(s[1..], c);
      JoinSplit(s[1..], c);
      if s[0] == c {
        assert Join([c], [""] + rest) == "" + [c] + Join([c], rest);
        assert s == [c] + s[1..];
      } else {
        var pieces := [[s[0]] + rest[0]] + rest[1..];
        if |rest| == 1 {
          assert Join([c], pieces) == [s[0]] + rest[0];
        } else {
          assert pieces[1..] == rest[1..];
          assert Join([c], pieces) == [s[0]] + rest[0] + [c] + Join([c], rest[1..]);
        }
        assert s == [s[0]] + s[1..];
      }
    }
  }

  /** No string of `xs` holds the character `x`. */
  predicate Free(xs: seq<string>, x: char) {
    forall i :: 0 <= i < |xs| ==> x !in xs[i]
  }

  /** Each string with a space in front. */
  function Spaced(xs: seq<string>): (r: seq<string>)
    ensures |r| == |xs| && forall i :: 0 <= i < |xs| ==> r[i] == " " + xs[i]
  {
    seq(|xs|, i requires 0 <= i < |xs| => " " + xs[i])
  }

  lemma SpacedCons(head: string, tail: seq<string>)
    ensures Spaced([head] + tail) == [" " + head] + Spaced(tail)
  {
  }

  /** `Join(", ", xs)` is `Join(",", ...)` of the items after the first with a
      leading space. */
  lemma {:induction false} JoinWithSpace(xs: seq<string>)
    requires |xs| >= 1
    ensures Join(", ", xs) == Join(",", [xs[0]] + Spaced(xs[1..]))
  {
    if |xs| > 1 {
      var tail := xs[1..];
      var rest := Spaced(tail[1..]);
      JoinWithSpace(tail);
      assert Spaced(tail) == [" " + tail[0]] + rest;
      JoinConsSpace(tail[0], rest);
      JoinCons(",", xs[0], Spaced(tail));
      assert xs == [xs[0]] + tail;
      JoinCons(", ", xs[0], tail);
      assert ", " + Join(",", [tail[0]] + rest) == "," + (" " + Join(",", [tail[0]] + rest));
    }
  }

  /** Joining a non-empty list after one more item puts a separator between them. */
  lemma JoinCons(sep: string, x: string, ys: seq<string>)
    requires |ys| >= 1
    ensures Join(sep, [x] + ys) == x + sep + Join(sep, ys)
  {
    assert ([x] + ys)[1..] == ys;
  }

  lemma JoinConsSpace(x: string, ys: seq<string>)
    ensures Join(",", [" " + x] + ys) == " " + Join(",", [x] + ys)
  {
    if |ys| > 0 {
      assert ([" " + x] + ys)[1..] == ys;
      assert ([x] + ys)[1..] == ys;
    }
  }

  /** A character in none of the items, other than the separator, is not in
      their join. */
  lemma {:induction false} JoinFree(xs: seq<string>, sep: char, x: char)
    requires x != sep && Free(xs, x)
    ensures x !in Join([sep], xs)
  {
    if |xs| > 1 {
      assert Free(xs[1..], x) by {
        forall i | 0 <= i < |xs[1..]| ensures x !in xs[1..][i] {
          assert xs[1..][i] == xs[i + 1];
        }
      }
      JoinFree(xs[1..], sep, x);
    }
  }

  /** Splitting a `, `-separated list at `,` gives the first item as it is
      and the others with their leading space. */
  lemma SplitListed(items: seq<string>)
    requires |items| >= 1 && Free(items, ',')
    ensures Split(Join(", ", items), ',') == [items[0]] + Spaced(items[1..])
  {
    var pieces := [items[0]] + Spaced(items[1..]);
    JoinWithSpace(items);
    forall i | 0 <= i < |pieces| ensures ',' !in pieces[i] {
      if i > 0 {
        assert pieces[i] == " " + items[i];
      }
    }
    SplitJoin(pieces, ',');
  }

  // ---------------------------------------------------------------------------
  // `split()` with no argument, `strip()`
  // ---------------------------------------------------------------------------

  /** The length of the run of non-whitespace at the start of `s`. */
  function WordLen(s: string): (n: nat)
    ensures n <= |s| && NoSpace(s[..n]) && (n < |s| ==> IsSpace(s[n]))
    ensures s != [] && !IsSpace(s[0]) ==> n >= 1
  {
    if s == [] || IsSpace(s[0]) then 0
    else
      var n := 1 + WordLen(s[1..]);
      assert s[..n] == [s[0]] + s[1..][..n - 1];
      n
  }

  /** Python's `s.split()`: the maximal runs of non-whitespace, in order. */
  function Words(s: string): (r: seq<string>)
    ensures forall w :: w in r ==> w != "" && NoSpace(w)
    decreases |s|
  {
    if s == [] then []
    else if IsSpace(s[0]) then Words(s[1..])
    else
      var n := WordLen(s);
      [s[..n]] + Words(s[n..])
  }

  lemma {:induction false} WordLenOfWord(w: string, t: string)
    requires NoSpace(w)
    requires t == [] || IsSpace(t[0])
    ensures WordLen(w + t) == |w|
    decreases |w|
  {
    if w != [] {
      assert (w + t)[1..] == w[1..] + t;
      WordLenOfWord(w[1..], t);
    } else {
      assert w + t == t;
    }
  }

  lemma WordsOfWord(w: string, t: string)
    requires w != "" && NoSpace(w)
    requires t == [] || IsSpace(t[0])
    ensures Words(w + t) == [w] + Words(t)
  {
    WordLenOfWord(w, t);
    assert (w + t)[..|w|] == w;
    assert (w + t)[|w|..] == t;
  }

  /** A word ends where whitespace starts, so what comes after that does not matter. */
  lemma {:induction false} WordLenAppend(a: string, t: string)
    requires t == [] || IsSpace(t[0])
    ensures WordLen(a + t) == WordLen(a)
    decreases |a|
  {
    if a == [] {
      assert a + t == t;
    } else if !IsSpace(a[0]) {
      assert (a + t)[1..] == a[1..] + t;
      WordLenAppend(a[1..], t);
    }
  }

  /** Text on either side of whitespace splits into its own words. */
  lemma {:induction false} WordsConcat(a: string, c: char, b: string)
    requires IsSpace(c)
    ensures Words(a + [c] + b) == Words(a) + Words(b)
    decreases |a|
  {
    if a == [] {
      assert a + [c] + b == [c] + b;
      WordsAfterSpace(c, b);
    } else if IsSpace(a[0]) {
      WordsConcat(a[1..], c, b);
      WordsConcatSpace(a, c, b);
    } else {
      WordsConcat(a[WordLen(a)..], c, b);
      WordsConcatWord(a, c, b);
    }
  }

  lemma WordsConcatSpace(a: string, c: char, b: string)
    requires a != [] && IsSpace(a[0])
    requires Words(a[1..] + [c] + b) == Words(a[1..]) + Words(b)
    ensures Words(a + [c] + b) == Words(a) + Words(b)
  {
    assert (a + [c] + b)[1..] == a[1..] + [c] + b;
  }

  lemma WordsConcatWord(a: string, c: char, b: string)
    requires a != [] && !IsSpace(a[0]) && IsSpace(c)
    requires Words(a[WordLen(a)..] + [c] + b) == Words(a[WordLen(a)..]) + Words(b)
    ensures Words(a + [c] + b) == Words(a) + Words(b)
  {
    var n := WordLen(a);
    var u := a[n..];
    var t := [c] + b;
    ConcatAssoc(a, [c], b);
    ConcatAssoc(u, [c], b);
    WordsFirstWord(a, t);
    WordsLeadingWord(a);
    ConcatAssoc([a[..n]], Words(u), Words(b));
  }

  /** `Words` of a string that starts with a word, unfolded once. */
  lemma WordsLeadingWord(a: string)
    requires a != [] && !IsSpace(a[0])
    ensures Words(a) == [a[..WordLen(a)]] + Words(a[WordLen(a)..])
  {
  }

  lemma ConcatAssoc<T>(x: seq<T>, y: seq<T>, z: seq<T>)
    ensures x + y + z == x + (y + z)
  {
  }

  /** The first word of `a` stays the first word with whitespace after it. */
  lemma WordsFirstWord(a: string, t: string)
    requires a != [] && !IsSpace(a[0]) && (t == [] || IsSpace(t[0]))
    ensures Words(a + t) == [a[..WordLen(a)]] + Words(a[WordLen(a)..] + t)
  {
    var s := a + t;
    var n := WordLen(a);
    WordLenAppend(a, t);
    SliceConcat(a, t, n);
    assert s != [] && s[0] == a[0];
    assert Words(s) == [s[..n]] + Words(s[n..]);
  }

  /** Slicing a concatenation at a point inside its first part. */
  lemma SliceConcat(a: string, t: string, n: nat)
    requires n <= |a|
    ensures (a + t)[..n] == a[..n] && (a + t)[n..] == a[n..] + t
  {
  }

  /** Splitting a space-joined list of words on whitespace gives the words back. */
  lemma {:induction false} WordsJoin(ws: seq<string>)
    requires forall i :: 0 <= i < |ws| ==> ws[i] != "" && NoSpace(ws[i])
    ensures Words(Join(" ", ws)) == ws
  {
    if |ws| == 1 {
      WordsOfWord(ws[0], "");
      assert ws[0] + "" == ws[0];
    } else if |ws| > 1 {
      var rest := Join(" ", ws[1..]);
      WordsJoin(ws[1..]);
      assert Join(" ", ws) == ws[0] + (" " + rest);
      WordsOfWord(ws[0], " " + rest);
      assert Words(" " + rest) == Words(rest) by {
        assert " " + rest == [' '] + rest;
        WordsAfterSpace(' ', rest);
      }
      assert [ws[0]] + ws[1..] == ws;
    }
  }

  /** Python's `s.lstrip()`. */
  function LStrip(s: string): (r: string)
    ensures |r| <= |s| && r == s[|s| - |r|..]
    ensures r == [] || !IsSpace(r[0])
  {
    if s != [] && IsSpace(s[0]) then
      var r := LStrip(s[1..]);
      assert s[1..][|s| - 1 - |r|..] == s[|s| - |r|..];
      r
    else s
  }

  /** Python's `s.rstrip()`. */
  function RStrip(s: string): (r: string)
    ensures |r| <= |s| && r == s[..|r|]
    ensures r == [] || !IsSpace(r[|r| - 1])
  {
    if s != [] && IsSpace(s[|s| - 1]) then
      var r := RStrip(s[..|s| - 1]);
      assert s[..|s| - 1][..|r|] == s[..|r|];
      r
    else s
  }

  /** Python's `s.strip()`: no whitespace left at either end, and nothing but
      characters of `s`. */
  function Strip(s: string): (r: string)
    ensures Trimmed(r)
    ensures forall x :: x in r ==> x in s
  {
    var l := LStrip(s);
    var r := RStrip(l);
    assert r != [] ==> r[0] == l[0];
    r
  }

  /** A string with no whitespace at either end is its own `strip()`. */
  lemma StripTrimmed(s: string)
    requires Trimmed(s)
    ensures Strip(s) == s
  {
  }

  /** `strip()` is idempotent. */
  lemma StripIdempotent(s: string)
    ensures Strip(Strip(s)) == Strip(s)
  {
    StripTrimmed(Strip(s));
  }

  lemma LStripSpace(c: char, w: string)
    requires IsSpace(c)
    ensures LStrip([c] + w) == LStrip(w)
  {
    var s := [c] + w;
    assert s[0] == c;
    assert s[1..] == w;
  }

  /** A space put in front of a trimmed string is stripped off again. */
  lemma StripSpaceThenWord(w: string)
    requires Trimmed(w)
    ensures Strip(" " + w) == w
  {
    LStripSpace(' ', w);
    assert LStrip(w) == w;
    assert RStrip(w) == w;
  }

  predicate AllSpace(s: string) {
    forall i :: 0 <= i < |s| ==> IsSpace(s[i])
  }

  /** Trailing whitespace is what `rstrip()` removes. */
  lemma {:induction false} RStripPadded(s: string, pad: string)
    requires s == [] || !IsSpace(s[|s| - 1])
    requires AllSpace(pad)
    ensures RStrip(s + pad) == s
    decreases |pad|
  {
    if pad == [] {
      assert s + pad == s;
    } else {
      var t := s + pad;
      assert t[..|t| - 1] == s + pad[..|pad| - 1];
      RStripPadded(s, pad[..|pad| - 1]);
    }
  }

  /** A trimmed, non-empty string followed by whitespace strips back to itself. */
  lemma StripPadded(s: string, pad: string)
    requires s != [] && Trimmed(s) && AllSpace(pad)
    ensures Strip(s + pad) == s
  {
    assert (s + pad)[0] == s[0];
    assert LStrip(s + pad) == s + pad;
    RStripPadded(s, pad);
  }

  /** A space in front changes nothing for `split()`. */
  lemma WordsAfterSpace(c: char, s: string)
    requires IsSpace(c)
    ensures Words([c] + s) == Words(s)
  {
    assert ([c] + s)[1..] == s;
  }

  /** A non-empty trimmed string has a first word. */
  lemma WordsOfTrimmed(s: string)
    requires s != [] && Trimmed(s)
    ensures Words(s) != []
  {
  }

  /** Whitespace alone has no words. */
  lemma {:induction false} WordsAllSpace(s: string)
    requires AllSpace(s)
    ensures Words(s) == []
    decreases |s|
  {
    if s != [] {
      WordsAllSpace(s[1..]);
    }
  }

  /** Whitespace in front of a string changes nothing for `split()`. */
  lemma WordsPadBefore(pad: string, s: string)
    requires AllSpace(pad)
    ensures Words(pad + s) == Words(s)
  {
    if pad != [] {
      var n := |pad| - 1;
      assert pad + s == pad[..n] + [pad[n]] + s;
      assert AllSpace(pad[..n]) by {
        forall i | 0 <= i < n ensures IsSpace(pad[..n][i]) {
          assert pad[..n][i] == pad[i];
        }
      }
      WordsConcat(pad[..n], pad[n], s);
      assert Words(pad + s) == Words(pad[..n]) + Words(s);
      WordsAllSpace(pad[..n]);
      assert Words(pad[..n]) == [];
    } else {
      assert pad + s == s;
    }
  }

  /** Nor does whitespace after it. */
  lemma WordsPadAfter(s: string, pad: string)
    requires AllSpace(pad)
    ensures Words(s + pad) == Words(s)
  {
    if pad != [] {
      assert s + pad == s + [pad[0]] + pad[1..];
      assert AllSpace(pad[1..]) by {
        forall i | 0 <= i < |pad| - 1 ensures IsSpace(pad[1..][i]) {
          assert pad[1..][i] == pad[i + 1];
        }
      }
      WordsConcat(s, pad[0], pad[1..]);
      WordsAllSpace(pad[1..]);
      assert Words(s) + [] == Words(s);
    } else {
      assert s + pad == s;
    }
  }

  /** The last character of a join is that of its last item, when that is
      not empty. */
  lemma {:induction false} JoinLast(sep: string, xs: seq<string>)
    requires |xs| >= 1 && xs[|xs| - 1] != []
    ensures |Join(sep, xs)| >= 1
    ensures Join(sep, xs)[|Join(sep, xs)| - 1] == xs[|xs| - 1][|xs[|xs| - 1]| - 1]
  {
    if |xs| > 1 {
      JoinLast(sep, xs[1..]);
    }
  }

  /** Joining non-empty trimmed items gives a trimmed string. */
  lemma JoinTrimmed(sep: string, xs: seq<string>)
    requires |xs| >= 1 && xs[0] != [] && Trimmed(xs[0])
    requires xs[|xs| - 1] != [] && Trimmed(xs[|xs| - 1])
    ensures Join(sep, xs) != [] && Trimmed(Join(sep, xs))
  {
    JoinLast(sep, xs);
    if |xs| > 1 {
      assert Join(sep, xs) == xs[0] + sep + Join(sep, xs[1..]);
    }
  }

  /** Python's `s.lstrip(c)` for one character. */
  function LStripChar(s: string, c: char): (r: string)
    ensures |r| <= |s| && r == s[|s| - |r|..]
    ensures r == [] || r[0] != c
    ensures forall i :: 0 <= i < |s| - |r| ==> s[i] == c
  {
    if s != [] && s[0] == c then
      var r := LStripChar(s[1..], c);
      assert s[1..][|s| - 1 - |r|..] == s[|s| - |r|..];
      r
    else s
  }

  /** `n` copies of `c`. */
  function Repeat(c: char, n: nat): (r: string)
    ensures |r| == n && forall i :: 0 <= i < n ==> r[i] == c
  {
    seq(n, _ => c)
  }

  /** `lstrip(c)` removes exactly the leading run of `c`. */
  lemma {:induction false} LStripCharRun(c: char, n: nat, s: string)
    requires s == [] || s[0] != c
    ensures LStripChar(Repeat(c, n) + s, c) == s
    decreases n
  {
    if n > 0 {
      assert (Repeat(c, n) + s)[1..] == Repeat(c, n - 1) + s;
      LStripCharRun(c, n - 1, s);
    } else {
      assert Repeat(c, n) + s == s;
    }
  }

  /** Python's `s.rfind(c)`: the last position of `c` in `s`, if any. */
  function LastIndex(s: string, c: char): (r: Option<nat>)
    ensures r.None? <==> c !in s
    ensures r.Some? ==> r.value < |s| && s[r.value] == c && forall j :: r.value < j < |s| ==> s[j] != c
  {
    if s == [] then None
    else if s[|s| - 1] == c then Some(|s| - 1)
    else
      LastIndexInit(s, c);
      LastIndex(s[..|s| - 1], c)
  }

  lemma LastIndexInit(s: string, c: char)
    requires s != [] && s[|s| - 1] != c
    ensures c in s <==> c in s[..|s| - 1]
  {
    assert s == s[..|s| - 1] + [s[|s| - 1]];
  }

  /** Python's `s.replace(a, b)` for single characters. */
  function Replace(s: string, a: char, b: char): (r: string)
    ensures |r| == |s|
    ensures a != b ==> a !in r
    ensures a !in s ==> r == s
  {
    seq(|s|, i requires 0 <= i < |s| => if s[i] == a then b else s[i])
  }

  /** `replace` works piece by piece. */
  lemma ReplaceConcat(x: string, y: string, a: char, b: char)
    ensures Replace(x + y, a, b) == Replace(x, a, b) + Replace(y, a, b)
  {
  }

  /** A character that is neither in `s` nor the replacement is not in the
      result. */
  lemma ReplaceFree(s: string, a: char, b: char, x: char)
    requires x !in s && x != b
    ensures x !in Replace(s, a, b)
  {
    var r := Replace(s, a, b);
    forall i | 0 <= i < |r| ensures r[i] != x {
      assert s[i] in s;
    }
  }

  /** `replace` applied to each string of `xs`. */
  function ReplaceAll(xs: seq<string>, a: char, b: char): (r: seq<string>)
    ensures |r| == |xs| && forall i :: 0 <= i < |xs| ==> r[i] == Replace(xs[i], a, b)
  {
    seq(|xs|, i requires 0 <= i < |xs| => Replace(xs[i], a, b))
  }

  /** Replacing other characters than the separator in a joined list is
      replacing them in each item. */
  lemma {:induction false} ReplaceJoin(xs: seq<string>, sep: char, a: char, b: char)
    requires a != sep && b != sep
    ensures Replace(Join([sep], xs), a, b) == Join([sep], ReplaceAll(xs, a, b))
  {
    var ys := ReplaceAll(xs, a, b);
    if |xs| >= 2 {
      ReplaceJoin(xs[1..], sep, a, b);
      assert ys[1..] == ReplaceAll(xs[1..], a, b);
      ReplaceConcat(xs[0] + [sep], Join([sep], xs[1..]), a, b);
      ReplaceConcat(xs[0], [sep], a, b);
      assert Replace([sep], a, b) == [sep];
    }
  }

  predicate EndsWith(s: string, suffix: string) {
    |suffix| <= |s| && s[|s| - |suffix|..] == suffix
  }

  // ---------------------------------------------------------------------------
  // Ordering of strings and `sorted`
  // ---------------------------------------------------------------------------

  /** Python's `a <= b` on strings: code-point lexicographic order, a prefix
      coming first. */
  predicate Below(a: string, b: string)
    decreases |a|
  {
    |a| == 0 || (|b| > 0 && (a[0] < b[0] || (a[0] == b[0] && Below(a[1..], b[1..]))))
  }

  lemma {:induction false} BelowTotal(a: string, b: string)
    ensures Below(a, b) || Below(b, a)
    decreases |a|
  {
    if |a| > 0 && |b| > 0 && a[0] == b[0] {
      BelowTotal(a[1..], b[1..]);
    }
  }

  lemma {:induction false} BelowTransitive(a: string, b: string, c: string)
    requires Below(a, b) && Below(b, c)
    ensures Below(a, c)
    decreases |a|
  {
    if |a| > 0 && a[0] == b[0] && b[0] == c[0] {
      BelowTransitive(a[1..], b[1..], c[1..]);
    }
  }

  lemma {:induction false} BelowAntisymmetric(a: string, b: string)
    requires Below(a, b) && Below(b, a)
    ensures a == b
    decreases |a|
  {
    if |a| > 0 {
      BelowAntisymmetric(a[1..], b[1..]);
      assert a == [a[0]] + a[1..] && b == [b[0]] + b[1..];
    }
  }

  lemma {:induction false} BelowReflexive(a: string)
    ensures Below(a, a)
    decreases |a|
  {
    if |a| > 0 {
      BelowReflexive(a[1..]);
    }
  }

  predicate Sorted(xs: seq<string>) {
    forall i, j :: 0 <= i < j < |xs| ==> Below(xs[i], xs[j])
  }

  function Insert(x: string, xs: seq<string>): (r: seq<string>)
    requires Sorted(xs)
    ensures Sorted(r)
    ensures multiset(r) == multiset(xs) + multiset{x}
  {
    if xs == [] then [x]
    else if Below(x, xs[0]) then
      forall j | 0 < j < |xs| ensures Below(x, xs[j]) {
        BelowTransitive(x, xs[0], xs[j]);
      }
      [x] + xs
    else
      BelowTotal(x, xs[0]);
      var tail := Insert(x, xs[1..]);
      assert xs == [xs[0]] + xs[1..];
      InsertAfter(x, xs, tail);
      [xs[0]] + tail
  }

  /** Whatever lands after the head of a sorted list is not below it. */
  lemma InsertAfter(x: string, xs: seq<string>, tail: seq<string>)
    requires Sorted(xs) && xs != [] && Below(xs[0], x)
    requires multiset(tail) == multiset(xs[1..]) + multiset{x}
    ensures forall e :: e in tail ==> Below(xs[0], e)
  {
    forall e | e in tail ensures Below(xs[0], e) {
      assert e in multiset(tail);
      if e != x {
        assert e in multiset(xs[1..]);
        var k :| 0 <= k < |xs[1..]| && xs[1..][k] == e;
        assert xs[k + 1] == e;
      }
    }
  }

  /** Python's `sorted` on a list of strings: the sorted rearrangement of its input. */
  function Sort(xs: seq<string>): (r: seq<string>)
    ensures Sorted(r)
    ensures multiset(r) == multiset(xs)
  {
    if xs == [] then []
    else
      assert xs == [xs[0]] + xs[1..];
      Insert(xs[0], Sort(xs[1..]))
  }
}
