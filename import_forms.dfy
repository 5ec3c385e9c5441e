/** The shapes of import line the linter's own tests split, stated for every
    module and name rather than for the test strings alone. */
module ImportForms {
  import opened Results
  import opened Strings
  import opened SplitImports

  /** `import m` imports `m`, dotted or not (`import math`,
      `import math.sqrt`). */
  lemma ImportName(w: string)
    requires Item(w) && NoSpace(w)
    ensures SplitImport("import " + w) == Ok([w])
  {
    PlainWordNoSpacedImport(w);
    assert Join(", ", [w]) + "" == w;
    PlainFormLine([w], "");
    SingleHead(w);
  }

  /** `from m import x` imports `m.x`, and `from . import x` imports `.x`. */
  lemma FromImportName(m: string, w: string)
    requires m != "" && NoSpace(m) && '#' !in m && '*' !in m && m != "import"
    requires Item(w) && NoSpace(w)
    ensures SplitImport("from " + m + " import " + w) == Ok([m + Dot(m) + w])
    ensures m == "." ==> SplitImport("from " + m + " import " + w) == Ok(["." + w])
  {
    var words := ["from", m];
    FromWords(words);
    FromLineShape(words, "from " + m, w);
    FromFormLine(words, [w], "");
    OneName(m, w);
    DotAfterDot(m);
  }

  /** `from . m import ...` and `from .m import ...` name the same module, so
      they import the same names (`.m.a`, `.m.b`, ...). */
  lemma RelativeSpellings(m: string, items: seq<string>, pad: string)
    requires m != "" && NoSpace(m) && '#' !in m && '*' !in m && m != "import"
    requires |items| >= 1 && forall i :: 0 <= i < |items| ==> Item(items[i])
    requires AllSpace(pad)
    ensures SplitImport("from . " + m + " import " + (Join(", ", items) + pad))
      == Ok(Qualified("." + m, Heads(items)))
    ensures SplitImport("from ." + m + " import " + (Join(", ", items) + pad))
      == Ok(Qualified("." + m, Heads(items)))
  {
    var spaced := ["from", ".", m];
    var joined := ["from", "." + m];
    SpacedWords(m, spaced);
    JoinedWords(m, joined);
    FromFormLine(spaced, items, pad);
    FromFormLine(joined, items, pad);
  }

  /** `import m as a`, with a comment after it or not, imports `m`: the alias
      and the comment are dropped. */
  lemma AliasedImport(w: string, alias: string, pad: string, comment: string)
    requires Item(w) && NoSpace(w) && w != "import"
    requires Item(alias) && NoSpace(alias) && alias != "import"
    requires AllSpace(pad)
    ensures SplitImport("import " + w + " as " + alias + pad) == Ok([w])
    ensures SplitImport("import " + w + " as " + alias + pad + "#" + comment) == Ok([w])
  {
    var item := w + " as " + alias;
    AliasedItem(w, alias);
    AliasedLineShape(w, alias, pad);
    PlainFormLine([item], pad);
    AliasedName(w, alias);
    PlainLineFree([item], pad);
    SplitImportDropsComment("import " + w + " as " + alias + pad, comment);
  }

  /** The joined form of a parenthesised, multi-line import,
      `from m import ( a, b, )`, imports `m.a` and `m.b`: the parentheses and
      the blank piece after the last comma name nothing. */
  lemma ParenthesisedFromLine(m: string, a: string, b: string)
    requires m != "" && NoSpace(m) && '#' !in m && '*' !in m && m != "import"
    requires a != "" && NoSpace(a) && ',' !in a && '(' !in a && ')' !in a && '#' !in a && '*' !in a
    requires b != "" && NoSpace(b) && ',' !in b && '(' !in b && ')' !in b && '#' !in b && '*' !in b
    ensures SplitImport("from " + m + " import ( " + a + ", " + b + ", )") == Ok([m + Dot(m) + a, m + Dot(m) + b])
  {
    var words := ["from", m];
    FromWords(words);
    ParenPiecesFree(a, b);
    ParenLineShape(words, "from " + m, a, b);
    FromFormPieces(words, ParenPieces(a, b));
    ParenPiecesNames(a, b);
    TwoNames(m, a, b);
  }

  // ---------------------------------------------------------------------------
  // The string facts behind those lemmas, each proved on its own
  // ---------------------------------------------------------------------------

  lemma SingleHead(w: string)
    requires Item(w) && NoSpace(w)
    ensures Heads([w]) == [w]
  {
    HeadOfWord(w);
  }

  lemma OneName(m: string, w: string)
    requires Item(w) && NoSpace(w)
    ensures Qualified(m, Heads([w])) == [m + Dot(m) + w]
  {
    SingleHead(w);
  }

  lemma DotAfterDot(m: string)
    ensures m == "." ==> m + Dot(m) == "."
  {
    if m == "." {
      assert EndsWith(m, ".");
    }
  }

  lemma FromWords(words: seq<string>)
    requires |words| == 2 && words[0] == "from"
    requires words[1] != "" && NoSpace(words[1]) && '#' !in words[1] && '*' !in words[1] && words[1] != "import"
    ensures forall i :: 0 <= i < |words| ==> words[i] != "" && NoSpace(words[i]) && '#' !in words[i] && '*' !in words[i]
    ensures forall i :: 1 <= i < |words| ==> words[i] != "import"
    ensures OneSource(words[1..]) && SourceOf(words[1..]) == words[1]
  {
    assert "from" != "" && NoSpace("from") && '#' !in "from" && '*' !in "from";
  }

  lemma FromLineShape(words: seq<string>, head: string, w: string)
    requires |words| == 2 && head == words[0] + " " + words[1]
    ensures head + " import " + w == Join(" ", words) + " import " + (Join(", ", [w]) + "")
  {
    assert Join(" ", words) == head;
  }

  lemma SpacedWords(m: string, spaced: seq<string>)
    requires m != "" && NoSpace(m) && '#' !in m && '*' !in m && m != "import"
    requires spaced == ["from", ".", m]
    ensures forall i :: 0 <= i < |spaced| ==> spaced[i] != "" && NoSpace(spaced[i]) && '#' !in spaced[i] && '*' !in spaced[i]
    ensures forall i :: 1 <= i < |spaced| ==> spaced[i] != "import"
    ensures Join(" ", spaced) == "from . " + m
    ensures OneSource(spaced[1..]) && SourceOf(spaced[1..]) == "." + m
  {
    SpacedFree(m, spaced);
    JoinThree("from", ".", m);
    assert "from" + " " + "." + " " + m == "from . " + m;
    assert OneSource(spaced[1..]) && SourceOf(spaced[1..]) == "." + m;
  }

  lemma SpacedFree(m: string, spaced: seq<string>)
    requires m != "" && NoSpace(m) && '#' !in m && '*' !in m && m != "import"
    requires spaced == ["from", ".", m]
    ensures forall i :: 0 <= i < |spaced| ==> spaced[i] != "" && NoSpace(spaced[i]) && '#' !in spaced[i] && '*' !in spaced[i]
    ensures forall i :: 1 <= i < |spaced| ==> spaced[i] != "import"
  {
    assert "from" != "" && NoSpace("from") && '#' !in "from" && '*' !in "from";
    assert NoSpace(".") && '#' !in "." && '*' !in "." && "." != "import";
    assert ("." + m)[0] == '.';
  }

  lemma JoinedWords(m: string, joined: seq<string>)
    requires m != "" && NoSpace(m) && '#' !in m && '*' !in m && m != "import"
    requires joined == ["from", "." + m]
    ensures forall i :: 0 <= i < |joined| ==> joined[i] != "" && NoSpace(joined[i]) && '#' !in joined[i] && '*' !in joined[i]
    ensures forall i :: 1 <= i < |joined| ==> joined[i] != "import"
    ensures Join(" ", joined) == "from ." + m
    ensures OneSource(joined[1..]) && SourceOf(joined[1..]) == "." + m
  {
    JoinedFree(m, joined);
    assert ["from", "." + m][1..] == ["." + m];
    assert "from" + " " + ("." + m) == "from ." + m;
    assert OneSource(joined[1..]) && SourceOf(joined[1..]) == "." + m;
  }

  lemma JoinedFree(m: string, joined: seq<string>)
    requires m != "" && NoSpace(m) && '#' !in m && '*' !in m && m != "import"
    requires joined == ["from", "." + m]
    ensures forall i :: 0 <= i < |joined| ==> joined[i] != "" && NoSpace(joined[i]) && '#' !in joined[i] && '*' !in joined[i]
    ensures forall i :: 1 <= i < |joined| ==> joined[i] != "import"
  {
    assert "from" != "" && NoSpace("from") && '#' !in "from" && '*' !in "from";
    assert NoSpace(".") && '#' !in "." && '*' !in "." && "." != "import";
    assert ("." + m)[0] == '.';
  }

  lemma JoinThree(a: string, b: string, c: string)
    ensures Join(" ", [a, b, c]) == a + " " + b + " " + c
  {
    assert [a, b, c][1..] == [b, c];
    assert Join(" ", [b, c]) == b + " " + c by {
      assert [b, c][1..] == [c];
    }
  }

  /** `m as a` is an entry whose first word is `m`. */
  lemma AliasedItem(w: string, alias: string)
    requires Item(w) && NoSpace(w) && Item(alias) && NoSpace(alias)
    ensures Item(w + " as " + alias)
  {
    var item := w + " as " + alias;
    assert item[0] == w[0] && item[|item| - 1] == alias[|alias| - 1];
    assert ',' !in " as " && '(' !in " as " && ')' !in " as " && '#' !in " as " && '*' !in " as ";
  }

  lemma AliasedName(w: string, alias: string)
    requires Item(w) && NoSpace(w) && Item(w + " as " + alias)
    ensures Heads([w + " as " + alias]) == [w]
  {
    assert w + " as " + alias == w + (" as " + alias);
    HeadBeforeSpace(w, " as " + alias);
  }

  /** An entry's name is its first word, whatever follows the space after it. */
  lemma HeadBeforeSpace(w: string, t: string)
    requires w != "" && NoSpace(w) && t != [] && IsSpace(t[0]) && Item(w + t)
    ensures Heads([w + t]) == [w]
  {
    WordsOfWord(w, t);
  }

  lemma AliasedLineShape(w: string, alias: string, pad: string)
    requires w != "" && NoSpace(w) && w != "import"
    requires alias != "" && NoSpace(alias) && alias != "import"
    requires AllSpace(pad)
    ensures "import " + w + " as " + alias + pad == "import " + (Join(", ", [w + " as " + alias]) + pad)
    ensures !Contains("import " + (Join(", ", [w + " as " + alias]) + pad), " import ")
  {
    var words := ["import", w, "as", alias];
    AliasedWords(w, alias, words);
    SpaceNoImport(pad);
    NoSpacedImport(words, pad);
    assert Join(" ", words) + pad == "import " + (Join(", ", [w + " as " + alias]) + pad);
  }

  lemma AliasedWords(w: string, alias: string, words: seq<string>)
    requires w != "" && NoSpace(w) && w != "import"
    requires alias != "" && NoSpace(alias) && alias != "import"
    requires words == ["import", w, "as", alias]
    ensures forall i :: 0 <= i < |words| ==> words[i] != "" && NoSpace(words[i])
    ensures forall i :: 1 <= i < |words| ==> words[i] != "import"
    ensures Join(" ", words) == "import " + Join(", ", [w + " as " + alias])
  {
    AliasedFree(w, alias, words);
    AliasedJoin(w, alias, words);
  }

  lemma AliasedFree(w: string, alias: string, words: seq<string>)
    requires w != "" && NoSpace(w) && w != "import"
    requires alias != "" && NoSpace(alias) && alias != "import"
    requires words == ["import", w, "as", alias]
    ensures forall i :: 0 <= i < |words| ==> words[i] != "" && NoSpace(words[i])
    ensures forall i :: 1 <= i < |words| ==> words[i] != "import"
  {
    assert NoSpace("import") && NoSpace("as") && "as" != "import";
  }

  lemma AliasedJoin(w: string, alias: string, words: seq<string>)
    requires words == ["import", w, "as", alias]
    ensures Join(" ", words) == "import " + Join(", ", [w + " as " + alias])
  {
    assert words[1..] == [w, "as", alias];
    JoinThree(w, "as", alias);
  }

  // ---------------------------------------------------------------------------
  // Two lines of the linter's own `_split_import` test, as written there. The
  // other test lines are instances of `FromImportName`, `RelativeSpellings`
  // and `AliasedImport`.
  // ---------------------------------------------------------------------------

  lemma ImportMathVector(line: string)
    requires line == "import math"
    ensures SplitImport(line) == Ok(["math"])
  {
    var w := "math";
    assert line == "import " + w;
    ImportName(w);
  }

  lemma ImportMathSqrtVector(line: string)
    requires line == "import math.sqrt"
    ensures SplitImport(line) == Ok(["math.sqrt"])
  {
    var w := "math.sqrt";
    assert line == "import " + w;
    ImportName(w);
  }

  /** The comma-separated pieces of `( a, b, )`. */
  function ParenPieces(a: string, b: string): seq<string>
  {
    ["( " + a, " " + b, " )"]
  }

  lemma ParenLineShape(words: seq<string>, head: string, a: string, b: string)
    requires |words| == 2 && head == words[0] + " " + words[1]
    ensures head + " import ( " + a + ", " + b + ", )" == Join(" ", words) + " import " + Join(",", ParenPieces(a, b))
  {
    assert Join(" ", words) == head;
    ParenPiecesJoin(a, b);
  }

  lemma ParenPiecesJoin(a: string, b: string)
    ensures Join(",", ParenPieces(a, b)) == "( " + a + ", " + b + ", )"
  {
    var pieces := ParenPieces(a, b);
    assert pieces[1..][1..] == [" )"];
    assert Join(",", pieces[1..]) == " " + b + "," + " )";
    assert Join(",", pieces) == "( " + a + "," + (" " + b + "," + " )");
  }

  lemma ParenPiecesFree(a: string, b: string)
    requires ',' !in a && '#' !in a && '*' !in a
    requires ',' !in b && '#' !in b && '*' !in b
    ensures Free(ParenPieces(a, b), ',') && Free(ParenPieces(a, b), '#') && Free(ParenPieces(a, b), '*')
    ensures Join(",", ParenPieces(a, b)) != ""
  {
    ParenPiecesJoin(a, b);
  }

  lemma ParenPiecesNames(a: string, b: string)
    requires a != "" && NoSpace(a) && '(' !in a && ')' !in a
    requires b != "" && NoSpace(b) && '(' !in b && ')' !in b
    ensures FirstWords(Unparened(ParenPieces(a, b))) == [a, b]
  {
    var us := Unparened(ParenPieces(a, b));
    assert us[0] == "  " + a by {
      ReplaceConcat("( ", a, '(', ' ');
      ReplaceConcat("  ", a, ')', ' ');
    }
    assert us[1] == " " + b by {
      ReplaceConcat(" ", b, '(', ' ');
      ReplaceConcat(" ", b, ')', ' ');
    }
    assert us[2] == "  ";
    WordsPadded("  ", a);
    WordsPadded(" ", b);
    WordsAllSpace("  ");
    assert us == [us[0]] + ([us[1]] + [us[2]]);
    FirstWordsCons(us[0], [us[1]] + [us[2]]);
    FirstWordsCons(us[1], [us[2]]);
    assert FirstWords([us[2]]) == [];
  }

  lemma TwoNames(m: string, a: string, b: string)
    ensures Qualified(m, [a, b]) == [m + Dot(m) + a, m + Dot(m) + b]
  {
  }
}
