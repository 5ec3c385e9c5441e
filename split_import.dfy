/** `_split_import`: how the multi-linter reads one normalised import line
    into the dotted names it imports. A line that has neither import form
    makes the linter fail an assertion, modelled as an `Err`. */
module SplitImports {
  import opened Results
  import opened Strings

  // ===========================================================================
  // `_split_import`
  // ===========================================================================

  /** The part of a line before its first `#`. */
  function Code(line: string): (r: string)
    ensures '#' !in r
    ensures '#' !in line ==> r == line
  {
    PartitionCharBefore(line, '#');
    assert '#' !in line ==> Partition(line, "#").before == line by {
      if '#' !in line {
        PartitionCharAbsent(line, '#');
      }
    }
    Partition(line, "#").before
  }

  /** An import line cut into the module it imports from (empty for the plain
      `import ...` form) and the clause of imported names. */
  datatype Clauses = Clauses(source: string, symbols: string)

  /** The words after `from` name one module: `m`, or `.` followed by `m`. */
  predicate OneSource(src: seq<string>) {
    |src| == 1 || (|src| == 2 && src[0] == ".")
  }

  /** `"".join(src)` for such a list of words. */
  function SourceOf(src: seq<string>): string
    requires OneSource(src)
  {
    if |src| == 1 then src[0] else src[0] + src[1]
  }

  /** Where `_split_import` finds the source module and the imported names, or
      why it fails: a line holding ` import ` with text after it must read
      `from m import ...` or `from . m import ...`; any other line must start
      with `import `. (With no words before ` import ` the unpacking of
      `source.split()` fails.) */
  function ImportClauses(code: string): (r: Result<Clauses>)
    ensures r.Ok? ==> NoSpace(r.value.source)
  {
    var p := Partition(code, " import ");
    if p.after != "" then
      var words := Words(p.before);
      if words == [] then Err("not enough values to unpack")
      else if words[0] != "from" then Err("an import with a source must start with `from`")
      else if !OneSource(words[1..]) then Err("the source must be one word or `.` and one word")
      else
        var src := words[1..];
        assert src[0] in words;
        assert |src| == 2 ==> src[1] in words;
        Ok(Clauses(SourceOf(src), p.after))
    else
      var q := Partition(code, "import ");
      if q.before != "" then Err("nothing may come before `import `")
      else Ok(Clauses("", q.after))
  }

  /** The first word of each comma-separated piece that has one, in order. */
  function FirstWords(pieces: seq<string>): (r: seq<string>)
    ensures |r| <= |pieces|
    ensures forall i :: 0 <= i < |r| ==> r[i] != "" && NoSpace(r[i])
  {
    if pieces == [] then []
    else
      var ws := Words(pieces[0]);
      var rest := FirstWords(pieces[1..]);
      if ws == [] then rest
      else
        assert ws[0] in ws;
        [ws[0]] + rest
  }

  /** The names a symbols clause imports: parentheses become spaces, and each
      comma-separated piece contributes its first word (so `x as y` names
      `x`), blank pieces nothing. */
  function SymbolNames(symbols: string): (r: seq<string>)
    ensures forall i :: 0 <= i < |r| ==> r[i] != "" && NoSpace(r[i])
  {
    var unwrapped := Strip(Unparen(symbols));
    FirstWords(Split(unwrapped, ','))
  }

  /** The text with its parentheses turned into spaces. */
  function Unparen(s: string): (r: string)
    ensures |r| == |s|
  {
    Replace(Replace(s, '(', ' '), ')', ' ')
  }

  /** The separator between the source and a name: `.` unless the source is
      empty or already ends in `.`. */
  function Dot(source: string): string {
    if source != "" && !EndsWith(source, ".") then "." else ""
  }

  /** Each name, prefixed with the source and its separator. */
  function Qualified(source: string, names: seq<string>): (r: seq<string>)
    ensures |r| == |names|
    ensures forall i :: 0 <= i < |names| ==> r[i] == source + Dot(source) + names[i]
  {
    seq(|names|, i requires 0 <= i < |names| => source + Dot(source) + names[i])
  }

  /** With no source the names are kept as they are. */
  lemma QualifiedNoSource(names: seq<string>)
    ensures Qualified("", names) == names
  {
    var r := Qualified("", names);
    assert Dot("") == "";
    forall i | 0 <= i < |names| ensures r[i] == names[i] {
      assert r[i] == "" + "" + names[i];
    }
  }

  /** `_split_import(line)`: the dotted names an import line imports, `[]` for
      a wildcard import, or an error for a line of neither form. */
  function SplitImport(line: string): (r: Result<seq<string>>)
    ensures '*' in Code(line) ==> r == Ok([])
    ensures '*' !in Code(line) ==> (r.Err? <==> ImportClauses(Code(line)).Err?)
    ensures r.Ok? ==> forall i :: 0 <= i < |r.value| ==> r.value[i] != ""
  {
    var code := Code(line);
    if '*' in code then Ok([])
    else
      var c :- ImportClauses(code);
      var names := SymbolNames(c.symbols);
      Ok(Qualified(c.source, names))
  }

  // ---------------------------------------------------------------------------
  // What `_split_import` does with the lines it is meant for
  // ---------------------------------------------------------------------------

  /** One entry of a names clause: not empty, no whitespace at its ends, and no
      comma, parenthesis, `#` or `*`; e.g. `sqrt` or `torch._refs as refs`. */
  predicate Item(x: string) {
    x != "" && Trimmed(x) && ',' !in x && '(' !in x && ')' !in x && '#' !in x && '*' !in x
  }

  /** The first word of an entry, the name it imports. */
  function Head(x: string): (r: string)
    requires Item(x)
    ensures r != "" && NoSpace(r)
  {
    WordsOfTrimmed(x);
    assert Words(x)[0] in Words(x);
    Words(x)[0]
  }

  function Heads(items: seq<string>): (r: seq<string>)
    requires forall i :: 0 <= i < |items| ==> Item(items[i])
    ensures |r| == |items| && forall i :: 0 <= i < |items| ==> r[i] == Head(items[i])
  {
    seq(|items|, i requires 0 <= i < |items| && Item(items[i]) => Head(items[i]))
  }

  /** Entries with a space in front still name their first words. */
  lemma {:induction false} FirstWordsSpaced(items: seq<string>)
    requires forall i :: 0 <= i < |items| ==> Item(items[i])
    ensures FirstWords(Spaced(items)) == Heads(items)
  {
    if items != [] {
      var head, tail := items[0], items[1..];
      assert items == [head] + tail;
      SpacedCons(head, tail);
      SpacedHead(head);
      FirstWordsCons(" " + head, Spaced(tail));
      HeadsCons(items);
      FirstWordsSpaced(tail);
    }
  }

  /** An entry with a space in front has the same words. */
  lemma SpacedHead(x: string)
    requires Item(x)
    ensures Words(" " + x) != [] && Words(" " + x)[0] == Head(x)
  {
    WordsAfterSpace(' ', x);
    assert " " + x == [' '] + x;
    WordsOfTrimmed(x);
  }

  lemma FirstWordsCons(p: string, rest: seq<string>)
    requires Words(p) != []
    ensures FirstWords([p] + rest) == [Words(p)[0]] + FirstWords(rest)
  {
    assert ([p] + rest)[1..] == rest;
  }

  /** A character other than `,` and whitespace that no entry holds is not in
      the clause. */
  lemma ListedFree(items: seq<string>, x: char)
    requires |items| >= 1 && Free(items, x) && x != ',' && !IsSpace(x)
    ensures x !in Join(", ", items)
  {
    var pieces := [items[0]] + Spaced(items[1..]);
    JoinWithSpace(items);
    forall i | 0 <= i < |pieces| ensures x !in pieces[i] {
      if i > 0 {
        assert pieces[i] == " " + items[i];
      }
    }
    JoinFree(pieces, ',', x);
  }

  /** No parenthesis in such a clause, so none is replaced. */
  lemma ListedUnwrapped(items: seq<string>, pad: string)
    requires |items| >= 1 && forall i :: 0 <= i < |items| ==> Item(items[i])
    requires AllSpace(pad)
    ensures Replace(Replace(Join(", ", items) + pad, '(', ' '), ')', ' ') == Join(", ", items) + pad
  {
    var listed := Join(", ", items);
    assert Free(items, '(') && Free(items, ')') by {
      forall i | 0 <= i < |items| ensures '(' !in items[i] && ')' !in items[i] {
        assert Item(items[i]);
      }
    }
    ListedFree(items, '(');
    ListedFree(items, ')');
    NoParensInSpace(pad);
    var s := listed + pad;
    assert '(' !in s && ')' !in s;
    var once := Replace(s, '(', ' ');
    assert once == s;
    assert Replace(once, ')', ' ') == s;
  }

  lemma NoParensInSpace(pad: string)
    requires AllSpace(pad)
    ensures '(' !in pad && ')' !in pad
  {
    assert !IsSpace('(') && !IsSpace(')');
  }

  /** Every entry names its first word, a space in front or not. */
  lemma HeadsCons(items: seq<string>)
    requires |items| >= 1 && forall i :: 0 <= i < |items| ==> Item(items[i])
    ensures Heads(items) == [Head(items[0])] + Heads(items[1..])
  {
  }

  lemma FirstWordsListed(items: seq<string>)
    requires |items| >= 1 && forall i :: 0 <= i < |items| ==> Item(items[i])
    ensures FirstWords([items[0]] + Spaced(items[1..])) == Heads(items)
  {
    var pieces := [items[0]] + Spaced(items[1..]);
    FirstWordsSpaced(items[1..]);
    WordsOfTrimmed(items[0]);
    assert pieces[1..] == Spaced(items[1..]);
    HeadsCons(items);
  }

  /** A names clause written `a, b, c` (possibly followed by whitespace) names
      the first word of each entry, in order. */
  lemma SymbolNamesListed(items: seq<string>, pad: string)
    requires |items| >= 1 && forall i :: 0 <= i < |items| ==> Item(items[i])
    requires AllSpace(pad)
    ensures SymbolNames(Join(", ", items) + pad) == Heads(items)
  {
    var listed := Join(", ", items);
    ListedUnwrapped(items, pad);
    assert Strip(listed + pad) == listed by {
      JoinTrimmed(", ", items);
      StripPadded(listed, pad);
    }
    assert Split(listed, ',') == [items[0]] + Spaced(items[1..]) by {
      assert Free(items, ',');
      SplitListed(items);
    }
    FirstWordsListed(items);
  }

  // ---------------------------------------------------------------------------
  // Names clauses in any spacing, with parentheses and blank pieces
  // ---------------------------------------------------------------------------

  /** Each piece with its parentheses turned into spaces. */
  function Unparened(pieces: seq<string>): (r: seq<string>)
    ensures |r| == |pieces| && forall i :: 0 <= i < |pieces| ==> r[i] == Unparen(pieces[i])
  {
    ReplaceAll(ReplaceAll(pieces, '(', ' '), ')', ' ')
  }

  /** Turning parentheses into spaces keeps the commas where they are. */
  lemma UnparenJoin(pieces: seq<string>)
    ensures Unparen(Join(",", pieces)) == Join(",", Unparened(pieces))
  {
    ReplaceJoin(pieces, ',', '(', ' ');
    ReplaceJoin(ReplaceAll(pieces, '(', ' '), ',', ')', ' ');
  }

  /** A piece's first word is all that it contributes. */
  lemma FirstWordsSameHead(p: string, q: string, rest: seq<string>)
    requires Words(p) == Words(q)
    ensures FirstWords([p] + rest) == FirstWords([q] + rest)
  {
    assert ([p] + rest)[1..] == rest;
    assert ([q] + rest)[1..] == rest;
  }

  /** The first words of two lists of pieces, one after the other. */
  lemma {:induction false} FirstWordsAppend(a: seq<string>, b: seq<string>)
    ensures FirstWords(a + b) == FirstWords(a) + FirstWords(b)
  {
    if a == [] {
      assert a + b == b;
    } else {
      var ab := a + b;
      assert ab[0] == a[0] && ab[1..] == a[1..] + b;
      FirstWordsAppend(a[1..], b);
      var ws := Words(a[0]);
      if ws != [] {
        assert FirstWords(ab) == [ws[0]] + FirstWords(a[1..] + b);
        assert FirstWords(a) == [ws[0]] + FirstWords(a[1..]);
        assert [ws[0]] + (FirstWords(a[1..]) + FirstWords(b)) == [ws[0]] + FirstWords(a[1..]) + FirstWords(b);
      }
    }
  }

  /** A name is among the first words exactly when some piece starts with it. */
  lemma {:induction false} FirstWordsHas(pieces: seq<string>, x: string)
    ensures x in FirstWords(pieces) <==>
      exists i :: 0 <= i < |pieces| && Words(pieces[i]) != [] && Words(pieces[i])[0] == x
  {
    if pieces != [] {
      var head, tail := pieces[0], pieces[1..];
      FirstWordsHas(tail, x);
      if x in FirstWords(pieces) {
        if Words(head) != [] && Words(head)[0] == x {
          assert Words(pieces[0]) != [] && Words(pieces[0])[0] == x;
        } else {
          assert x in FirstWords(tail);
          var i :| 0 <= i < |tail| && Words(tail[i]) != [] && Words(tail[i])[0] == x;
          assert pieces[i + 1] == tail[i];
        }
      }
      if exists i :: 0 <= i < |pieces| && Words(pieces[i]) != [] && Words(pieces[i])[0] == x {
        var i :| 0 <= i < |pieces| && Words(pieces[i]) != [] && Words(pieces[i])[0] == x;
        if i > 0 {
          assert tail[i - 1] == pieces[i];
          assert x in FirstWords(tail);
        }
      }
    }
  }

  /** The positions of the pieces that have a word. */
  function Worded(pieces: seq<string>): set<int>
  {
    set i | 0 <= i < |pieces| && Words(pieces[i]) != []
  }

  /** There is one name for each piece that has a word. */
  lemma {:induction false} FirstWordsCount(pieces: seq<string>)
    ensures |FirstWords(pieces)| == |Worded(pieces)|
    decreases |pieces|
  {
    if pieces == [] {
      assert Worded(pieces) == {};
    } else {
      var n := |pieces| - 1;
      var init, last := pieces[..n], pieces[n];
      FirstWordsCount(init);
      assert FirstWords(pieces) == FirstWords(init) + FirstWords([last]) by {
        assert pieces == init + [last];
        FirstWordsAppend(init, [last]);
      }
      assert [last][1..] == [];
      WordedSnoc(init, last);
      assert pieces == init + [last];
    }
  }

  /** A piece put at the end adds its own position when it has a word. */
  lemma WordedSnoc(init: seq<string>, last: string)
    ensures Words(last) == [] ==> Worded(init + [last]) == Worded(init)
    ensures Words(last) != [] ==> Worded(init + [last]) == Worded(init) + {|init|} && |init| !in Worded(init)
  {
    var ps := init + [last];
    forall i | 0 <= i < |init| ensures ps[i] == init[i] {
    }
    if Words(last) == [] {
      assert Worded(ps) == Worded(init);
    } else {
      assert Worded(ps) == Worded(init) + {|init|};
    }
  }

  /** Whitespace in front of the clause plays no part. */
  lemma {:induction false} FirstWordsLStrip(s: string)
    ensures FirstWords(Split(LStrip(s), ',')) == FirstWords(Split(s, ','))
    decreases |s|
  {
    if s != [] && IsSpace(s[0]) {
      FirstWordsLStrip(s[1..]);
      assert LStrip(s) == LStrip(s[1..]);
      FirstWordsSpaceBefore(s);
    }
  }

  /** A whitespace character in front of the clause belongs to its first
      piece and does not change that piece's words. */
  lemma FirstWordsSpaceBefore(s: string)
    requires s != [] && IsSpace(s[0])
    ensures FirstWords(Split(s, ',')) == FirstWords(Split(s[1..], ','))
  {
    var c, t := s[0], s[1..];
    var ts := Split(t, ',');
    assert [c] + t == s;
    assert ',' !in [c];
    SplitPrefix([c], t, ',');
    WordsAfterSpace(c, ts[0]);
    FirstWordsSameHead([c] + ts[0], ts[0], ts[1..]);
    assert [ts[0]] + ts[1..] == ts;
  }

  /** Nor does whitespace after it. */
  lemma {:induction false} FirstWordsRStrip(s: string)
    ensures FirstWords(Split(RStrip(s), ',')) == FirstWords(Split(s, ','))
    decreases |s|
  {
    if s != [] && IsSpace(s[|s| - 1]) {
      var init, c := s[..|s| - 1], s[|s| - 1];
      FirstWordsRStrip(init);
      assert RStrip(s) == RStrip(init);
      assert FirstWords(Split(s, ',')) == FirstWords(Split(init, ',')) by {
        assert s == init + [c];
        FirstWordsSpaceAfter(init, c);
      }
    }
  }

  /** One whitespace character after the clause lengthens its last piece
      without changing that piece's words. */
  lemma FirstWordsSpaceAfter(t: string, c: char)
    requires IsSpace(c)
    ensures FirstWords(Split(t + [c], ',')) == FirstWords(Split(t, ','))
  {
    var ts := Split(t, ',');
    var n := |ts| - 1;
    assert ',' !in [c];
    SplitSuffix(t, [c], ',');
    assert AllSpace([c]);
    WordsPadAfter(ts[n], [c]);
    FirstWordsLastSame(ts, ts[n] + [c]);
  }

  /** Replacing the last piece by one with the same words changes no name. */
  lemma {:induction false} FirstWordsLastSame(ps: seq<string>, q: string)
    requires |ps| >= 1 && Words(q) == Words(ps[|ps| - 1])
    ensures FirstWords(ps[..|ps| - 1] + [q]) == FirstWords(ps)
  {
    var qs := ps[..|ps| - 1] + [q];
    if |ps| == 1 {
      assert qs == [q] + [] && ps == [ps[0]] + [];
      FirstWordsSameHead(q, ps[0], []);
    } else {
      var tail := ps[1..];
      FirstWordsLastSame(tail, q);
      assert qs == [ps[0]] + (tail[..|tail| - 1] + [q]);
      assert ps == [ps[0]] + tail;
      FirstWordsSameTail(ps[0], tail[..|tail| - 1] + [q], tail);
    }
  }

  /** Pieces whose names agree still agree behind the same first piece. */
  lemma FirstWordsSameTail(p: string, a: seq<string>, b: seq<string>)
    requires FirstWords(a) == FirstWords(b)
    ensures FirstWords([p] + a) == FirstWords([p] + b)
  {
    assert ([p] + a)[1..] == a;
    assert ([p] + b)[1..] == b;
  }




  /** The `strip()` in `_split_import` changes no name: the names are the first
      words of the comma-separated pieces, parentheses turned into spaces. */
  lemma SymbolNamesUnstripped(symbols: string)
    ensures SymbolNames(symbols) == FirstWords(Split(Unparen(symbols), ','))
  {
    var u := Unparen(symbols);
    FirstWordsRStrip(LStrip(u));
    FirstWordsLStrip(u);
  }

  /** A names clause made of any comma-free pieces, in any spacing and with any
      parentheses (as in `( a, b, )` or `a,b`), names the first word of each
      piece once its parentheses are spaces; blank pieces name nothing. */
  lemma SymbolNamesOfPieces(pieces: seq<string>)
    requires |pieces| >= 1 && Free(pieces, ',')
    ensures SymbolNames(Join(",", pieces)) == FirstWords(Unparened(pieces))
  {
    var us := Unparened(pieces);
    SymbolNamesUnstripped(Join(",", pieces));
    UnparenJoin(pieces);
    UnparenedFree(pieces);
    SplitJoin(us, ',');
  }

  lemma UnparenedFree(pieces: seq<string>)
    requires Free(pieces, ',')
    ensures forall i :: 0 <= i < |pieces| ==> ',' !in Unparened(pieces)[i]
  {
    forall i | 0 <= i < |pieces| ensures ',' !in Unparen(pieces[i]) {
      ReplaceFree(pieces[i], '(', ' ', ',');
      ReplaceFree(Replace(pieces[i], '(', ' '), ')', ' ', ',');
    }
  }

  /** `from m import <pieces joined by commas>`, in any spacing after
      ` import `, imports `m.` and the first word of each piece that has one;
      a line whose words before ` import ` are not `from m` or `from . m` is
      rejected. */
  lemma FromFormPieces(words: seq<string>, pieces: seq<string>)
    requires |words| >= 1
    requires forall i :: 0 <= i < |words| ==> words[i] != "" && NoSpace(words[i]) && '#' !in words[i] && '*' !in words[i]
    requires forall i :: 1 <= i < |words| ==> words[i] != "import"
    requires |pieces| >= 1 && Free(pieces, ',') && Free(pieces, '#') && Free(pieces, '*')
    requires Join(",", pieces) != ""
    ensures words[0] == "from" && OneSource(words[1..]) ==>
      SplitImport(Join(" ", words) + " import " + Join(",", pieces))
        == Ok(Qualified(SourceOf(words[1..]), FirstWords(Unparened(pieces))))
    ensures !(words[0] == "from" && OneSource(words[1..])) ==>
      SplitImport(Join(" ", words) + " import " + Join(",", pieces)).Err?
  {
    var rest := Join(",", pieces);
    assert Free(words, '#') && Free(words, '*');
    JoinFree(words, ' ', '#');
    JoinFree(words, ' ', '*');
    JoinFree(pieces, ',', '#');
    JoinFree(pieces, ',', '*');
    assert '#' !in " import " && '*' !in " import ";
    ImportClausesFrom(words, rest);
    SplitImportOfClauses(Join(" ", words) + " import " + rest);
    SymbolNamesOfPieces(pieces);
  }

  /** `import <pieces joined by commas>` in any spacing imports the first word
      of each piece that has one, when ` import ` does not occur in it. */
  lemma PlainFormPieces(pieces: seq<string>)
    requires |pieces| >= 1 && Free(pieces, ',') && Free(pieces, '#') && Free(pieces, '*')
    requires !Contains("import " + Join(",", pieces), " import ")
    ensures SplitImport("import " + Join(",", pieces)) == Ok(FirstWords(Unparened(pieces)))
  {
    PlainPiecesFree(pieces);
    SplitImportPlain(Join(",", pieces));
    SymbolNamesOfPieces(pieces);
  }

  lemma PlainPiecesFree(pieces: seq<string>)
    requires Free(pieces, '#') && Free(pieces, '*')
    ensures '#' !in "import " + Join(",", pieces) && '*' !in "import " + Join(",", pieces)
  {
    JoinFree(pieces, ',', '#');
    JoinFree(pieces, ',', '*');
    ImportPrefixFree(Join(",", pieces));
  }

  /** The spaces around a name inside the parentheses play no part. */
  lemma WordsPadded(pad: string, w: string)
    requires AllSpace(pad) && w != "" && NoSpace(w)
    ensures Words(pad + w) == [w]
  {
    WordsPadBefore(pad, w);
    WordsOfWord(w, "");
    assert w + "" == w;
    assert [w] + Words("") == [w];
  }

  /** Text after the first `#` plays no part. */
  lemma SplitImportDropsComment(code: string, comment: string)
    requires '#' !in code
    ensures SplitImport(code + "#" + comment) == SplitImport(code)
  {
    PartitionCharFirst(code, '#', comment);
  }

  /** A word other than `import`, after a space and followed by whitespace or
      nothing, is not ` import `. */
  lemma SpacedWordNotImport(v: string, t: string)
    requires v != "" && NoSpace(v) && v != "import"
    requires |v| <= |t| && t[..|v|] == v && (|v| < |t| ==> IsSpace(t[|v|]))
    ensures !OccursAt(" " + t, " import ", 0)
  {
    var s := " " + t;
    if |v| < 6 {
      assert !IsSpace(" import "[1 + |v|]);
      if 1 + |v| < |s| {
        assert s[1 + |v|] == t[|v|];
      }
      Mismatch(s, " import ", 0, 1 + |v|);
    } else if |v| > 6 {
      assert s[7] == v[6];
      Mismatch(s, " import ", 0, 7);
    } else {
      var k :| 0 <= k < 6 && v[k] != "import"[k];
      assert s[1 + k] == v[k];
      Mismatch(s, " import ", 0, 1 + k);
    }
  }

  /** ` import ` is not found in words joined by single spaces and followed by
      a tail that starts with whitespace and does not hold it either, as long
      as no word after the first is `import`: it would have to be one of those
      words with the whitespace around it. */
  lemma {:induction false} NoSpacedImport(words: seq<string>, tail: string)
    requires |words| >= 1
    requires forall i :: 0 <= i < |words| ==> words[i] != "" && NoSpace(words[i])
    requires forall i :: 1 <= i < |words| ==> words[i] != "import"
    requires (tail == [] || IsSpace(tail[0])) && !Contains(tail, " import ")
    ensures !Contains(Join(" ", words) + tail, " import ")
    decreases |words|
  {
    var w := words[0];
    if |words| == 1 {
      assert Join(" ", words) + tail == w + tail;
      NoImportAfterWord(w, tail);
    } else {
      var v := words[1];
      var t := Join(" ", words[1..]) + tail;
      NoSpacedImport(words[1..], tail);
      assert Join(" ", words) + tail == w + (" " + t);
      assert t[..|v|] == v && (|v| < |t| ==> IsSpace(t[|v|])) by {
        if |words| == 2 {
          assert t == v + tail;
        } else {
          assert t == v + " " + (Join(" ", words[2..]) + tail);
        }
      }
      SpacedWordNotImport(v, t);
      NoImportAfterSpace(t);
      NoImportAfterWord(w, " " + t);
    }
  }

  /** A word cannot start ` import `, so the first place it can occur is
      after the word. */
  lemma NoImportAfterWord(w: string, t: string)
    requires NoSpace(w) && !Contains(t, " import ")
    ensures !Contains(w + t, " import ")
  {
    var s := w + t;
    forall j: nat | j <= |s| ensures !OccursAt(s, " import ", j) {
      if j < |w| {
        Mismatch(s, " import ", j, 0);
      } else {
        OccursShift(w, t, " import ", j - |w|);
      }
    }
  }

  /** Nor does it occur in a space and what follows when not at the space. */
  lemma NoImportAfterSpace(t: string)
    requires !OccursAt(" " + t, " import ", 0) && !Contains(t, " import ")
    ensures !Contains(" " + t, " import ")
  {
    forall j: nat | 0 < j <= |" " + t| ensures !OccursAt(" " + t, " import ", j) {
      OccursShift(" ", t, " import ", j - 1);
    }
  }

  /** Whitespace does not hold ` import `. */
  lemma SpaceNoImport(pad: string)
    requires AllSpace(pad)
    ensures !Contains(pad, " import ")
  {
    assert !IsSpace('i');
    forall j: nat | j <= |pad| ensures !OccursAt(pad, " import ", j) {
      Mismatch(pad, " import ", j, 1);
    }
  }

  lemma ImportTail()
    ensures !Contains(" import", " import ") && IsSpace(" import"[0])
    ensures " import "[..|" import "| - 1] == " import"
  {
  }

  /** So the first ` import ` is the one after those words. */
  lemma PartitionAfterWords(words: seq<string>, rest: string)
    requires |words| >= 1
    requires forall i :: 0 <= i < |words| ==> words[i] != "" && NoSpace(words[i])
    requires forall i :: 1 <= i < |words| ==> words[i] != "import"
    ensures Partition(Join(" ", words) + " import " + rest, " import ") == Partitioned(Join(" ", words), true, rest)
  {
    ImportTail();
    NoSpacedImport(words, " import");
    PartitionAfter(Join(" ", words), " import ", rest);
  }

  /** A character that is in no word, no entry and no whitespace is nowhere in
      such a line. */
  lemma LineFree(words: seq<string>, items: seq<string>, pad: string, x: char)
    requires |items| >= 1 && Free(items, x) && x != ',' && !IsSpace(x) && x !in " import "
    requires forall i :: 0 <= i < |words| ==> x !in words[i]
    requires AllSpace(pad)
    ensures x !in Join(" ", words) + " import " + (Join(", ", items) + pad)
  {
    assert Free(words, x);
    JoinFree(words, ' ', x);
    ListedFree(items, x);
  }

  /** A line without `#` or `*` gets the qualified names of its clauses. */
  lemma SplitImportOfClauses(line: string)
    requires '#' !in line && '*' !in line
    ensures ImportClauses(line).Ok? ==>
      SplitImport(line) == Ok(Qualified(ImportClauses(line).value.source, SymbolNames(ImportClauses(line).value.symbols)))
    ensures ImportClauses(line).Err? ==> SplitImport(line).Err?
  {
  }

  /** The clauses of a line `w1 w2 ... import rest`. */
  lemma ImportClausesFrom(words: seq<string>, rest: string)
    requires |words| >= 1
    requires forall i :: 0 <= i < |words| ==> words[i] != "" && NoSpace(words[i])
    requires forall i :: 1 <= i < |words| ==> words[i] != "import"
    requires rest != ""
    ensures words[0] == "from" && OneSource(words[1..]) ==>
      ImportClauses(Join(" ", words) + " import " + rest) == Ok(Clauses(SourceOf(words[1..]), rest))
    ensures !(words[0] == "from" && OneSource(words[1..])) ==>
      ImportClauses(Join(" ", words) + " import " + rest).Err?
  {
    PartitionAfterWords(words, rest);
    WordsJoin(words);
  }

  /** The clauses of a line `import rest` in which ` import ` does not occur. */
  lemma ImportClausesPlain(rest: string)
    requires !Contains("import " + rest, " import ")
    ensures ImportClauses("import " + rest) == Ok(Clauses("", rest))
  {
    PartitionAtStart("import ", rest);
  }

  /** `from m import a, b` (or `from . m import ...`), written with single
      spaces and possibly followed by whitespace, imports `m.a` and `m.b`
      (no dot added when `m` already ends in one); a line with a source that
      starts with any other word, or that has more words, is rejected. */
  lemma FromFormLine(words: seq<string>, items: seq<string>, pad: string)
    requires |words| >= 1
    requires forall i :: 0 <= i < |words| ==> words[i] != "" && NoSpace(words[i]) && '#' !in words[i] && '*' !in words[i]
    requires forall i :: 1 <= i < |words| ==> words[i] != "import"
    requires |items| >= 1 && forall i :: 0 <= i < |items| ==> Item(items[i])
    requires AllSpace(pad)
    ensures words[0] == "from" && OneSource(words[1..]) ==>
      SplitImport(Join(" ", words) + " import " + (Join(", ", items) + pad))
        == Ok(Qualified(SourceOf(words[1..]), Heads(items)))
    ensures !(words[0] == "from" && OneSource(words[1..])) ==>
      SplitImport(Join(" ", words) + " import " + (Join(", ", items) + pad)).Err?
  {
    var rest := Join(", ", items) + pad;
    FromLineFree(words, items, pad);
    RestNotEmpty(items, pad);
    ImportClausesFrom(words, rest);
    SplitImportOfClauses(Join(" ", words) + " import " + rest);
    SymbolNamesListed(items, pad);
  }

  lemma FromLineFree(words: seq<string>, items: seq<string>, pad: string)
    requires forall i :: 0 <= i < |words| ==> '#' !in words[i] && '*' !in words[i]
    requires |items| >= 1 && forall i :: 0 <= i < |items| ==> Item(items[i])
    requires AllSpace(pad)
    ensures '#' !in Join(" ", words) + " import " + (Join(", ", items) + pad)
    ensures '*' !in Join(" ", words) + " import " + (Join(", ", items) + pad)
  {
    ItemsFree(items);
    assert '#' !in " import " && '*' !in " import " && !IsSpace('#') && !IsSpace('*');
    LineFree(words, items, pad, '#');
    LineFree(words, items, pad, '*');
  }

  lemma RestNotEmpty(items: seq<string>, pad: string)
    requires |items| >= 1 && forall i :: 0 <= i < |items| ==> Item(items[i])
    ensures Join(", ", items) + pad != ""
  {
    JoinTrimmed(", ", items);
  }

  lemma ItemsFree(items: seq<string>)
    requires forall i :: 0 <= i < |items| ==> Item(items[i])
    ensures Free(items, '#') && Free(items, '*')
  {
    forall i | 0 <= i < |items| ensures '#' !in items[i] && '*' !in items[i] {
      assert Item(items[i]);
    }
  }

  /** `import a, b` (with aliases allowed, possibly followed by whitespace)
      imports `a` and `b`, when ` import ` does not occur in it. */
  lemma PlainFormLine(items: seq<string>, pad: string)
    requires |items| >= 1 && forall i :: 0 <= i < |items| ==> Item(items[i])
    requires AllSpace(pad)
    requires !Contains("import " + (Join(", ", items) + pad), " import ")
    ensures SplitImport("import " + (Join(", ", items) + pad)) == Ok(Heads(items))
  {
    var rest := Join(", ", items) + pad;
    PlainLineFree(items, pad);
    SplitImportPlain(rest);
    SymbolNamesListed(items, pad);
  }

  /** `import rest` names the symbols of `rest`, without a source. */
  lemma SplitImportPlain(rest: string)
    requires '#' !in "import " + rest && '*' !in "import " + rest
    requires !Contains("import " + rest, " import ")
    ensures SplitImport("import " + rest) == Ok(SymbolNames(rest))
  {
    ImportClausesPlain(rest);
    SplitImportOfClauses("import " + rest);
    QualifiedNoSource(SymbolNames(rest));
  }

  lemma PlainLineFree(items: seq<string>, pad: string)
    requires |items| >= 1 && forall i :: 0 <= i < |items| ==> Item(items[i])
    requires AllSpace(pad)
    ensures '#' !in "import " + (Join(", ", items) + pad)
    ensures '*' !in "import " + (Join(", ", items) + pad)
  {
    var rest := Join(", ", items) + pad;
    assert '#' !in rest && '*' !in rest by {
      ItemsFree(items);
      NoHashOrStarInSpace(pad);
      ListedFree(items, '#');
      ListedFree(items, '*');
    }
    ImportPrefixFree(rest);
  }

  /** `import ` adds no `#` and no `*`. */
  lemma ImportPrefixFree(rest: string)
    requires '#' !in rest && '*' !in rest
    ensures '#' !in "import " + rest && '*' !in "import " + rest
  {
    assert '#' !in "import " && '*' !in "import ";
  }

  lemma NoHashOrStarInSpace(pad: string)
    requires AllSpace(pad)
    ensures '#' !in pad && '*' !in pad
  {
    assert !IsSpace('#') && !IsSpace('*');
  }

  /** A non-empty line without `#` or `*` in which `import ` does not occur
      is rejected. */
  lemma NoImportRejected(code: string)
    requires code != "" && '#' !in code && '*' !in code
    requires !Contains(code, "import ")
    ensures SplitImport(code).Err?
  {
    forall j: nat | j <= |code| ensures !OccursAt(code, " import ", j) {
      assert !OccursAt(code, "import ", j + 1);
      if j + 8 <= |code| {
        assert code[j + 1..j + 8] == code[j..j + 8][1..];
      }
    }
    assert !Contains(code, " import ");
  }

  /** A name without whitespace is its own first word. */
  lemma HeadOfWord(w: string)
    requires Item(w) && NoSpace(w)
    ensures Head(w) == w
  {
    WordsOfWord(w, "");
    assert w + "" == w;
  }

  /** ` import ` does not occur in `import v` when `v` has no whitespace. */
  lemma PlainWordNoSpacedImport(v: string)
    requires NoSpace(v)
    ensures !Contains("import " + v, " import ")
  {
    var s := "import " + v;
    forall j: nat | j <= |s| ensures !OccursAt(s, " import ", j) {
      if j == 6 {
        Mismatch(s, " import ", j, 7);
      } else {
        Mismatch(s, " import ", j, 0);
      }
    }
  }
}
