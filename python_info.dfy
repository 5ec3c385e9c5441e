/** Per-scope token metrics of one Python file (`python_info.py`).

    `Ignores`, `ScopeInfo` and `FileInfo` are the classes the linter updates in
    place; `IgnoreCounts`, `Stats` and `FileStats` are their values, and the
    functions on those values (`WithLine`, `Applied`, `Trace`, `ApplyAll`,
    `MakeSpec`) are what the methods are proved against. A `Counter[str]`, which
    the linter only ever increments, is a `multiset<string>`. */
module PythonInfo {
  import opened Strings
  import opened Tokens

  const MYPY_MARKER := "# mypy: "
  const NOQA_MARKER := "# noqa: "
  const TYPE_MARKER := "# type: ignore["
  /** The code recorded for a suppression comment that names no code. */
  const EMPTY_IGNORES := "(None)"
  /** The display name of the whole-file scope. */
  const MODULE_SCOPE := "(module)"

  /** The standard-library tables the linter consults, left abstract: the
      lower-case name of every token type other than NAME, COMMENT and INDENT
      (`INVERSE_TOKEN_TYPES` or `token.tok_name`), and `keyword.iskeyword`. */
  datatype Lexicon = Lexicon(otherName: int -> string, isKeyword: string -> bool)

  /** The key of `op_count` a token of kind `k` is counted under. */
  function OpName(lex: Lexicon, k: Kind): string {
    match k
    case Name => "name"
    case Comment => "comment"
    case Indent => "indent"
    case Other(code) => lex.otherName(code)
  }

  // ===========================================================================
  // Suppression comments: `Ignores`
  // ===========================================================================

  /** The stripped pieces of `pieces` that are not blank, in order. */
  function NonBlank(pieces: seq<string>): seq<string>
  {
    if pieces == [] then []
    else
      var c := Strip(pieces[0]);
      (if c != "" then [c] else []) + NonBlank(pieces[1..])
  }

  /** Every kept piece is non-empty, with no whitespace at either end. */
  lemma {:induction false} NonBlankTrimmed(pieces: seq<string>)
    ensures forall i :: 0 <= i < |NonBlank(pieces)| ==> NonBlank(pieces)[i] != "" && Trimmed(NonBlank(pieces)[i])
  {
    if pieces != [] {
      var rest := NonBlank(pieces[1..]);
      NonBlankTrimmed(pieces[1..]);
      var c := Strip(pieces[0]);
      var r := (if c != "" then [c] else []) + rest;
      assert NonBlank(pieces) == r;
      forall i | 0 <= i < |r| ensures r[i] != "" && Trimmed(r[i]) {
        if c == "" {
          assert r[i] == rest[i];
        } else if i > 0 {
          assert r[i] == rest[i - 1];
        }
      }
    }
  }

  /** A character none of the pieces holds is in none of the kept pieces. */
  lemma {:induction false} NonBlankFree(pieces: seq<string>, x: char)
    requires Free(pieces, x)
    ensures Free(NonBlank(pieces), x)
  {
    if pieces != [] {
      assert Free(pieces[1..], x) by {
        forall i | 0 <= i < |pieces[1..]| ensures x !in pieces[1..][i] {
          assert pieces[1..][i] == pieces[i + 1];
        }
      }
      NonBlankFree(pieces[1..], x);
      assert x !in pieces[0];
    }
  }

  /** The codes listed after a suppression marker: the comma-separated,
      stripped, non-empty pieces of the text before the first `]`, or the
      placeholder `(None)` when there are none. */
  function Codes(after: string): (r: seq<string>)
    ensures |r| >= 1
    ensures r == [EMPTY_IGNORES] || (
      (forall i :: 0 <= i < |r| ==> r[i] != "" && Trimmed(r[i])) && Free(r, ',') && Free(r, ']'))
  {
    var inside := Partition(after, "]").before;
    PartitionCharBefore(after, ']');
    var pieces := Split(inside, ',');
    assert Free(pieces, ',') && Free(pieces, ']') by {
      forall i | 0 <= i < |pieces| ensures ',' !in pieces[i] && ']' !in pieces[i] {
        assert pieces[i] in pieces;
      }
    }
    var kept := NonBlank(pieces);
    NonBlankTrimmed(pieces);
    NonBlankFree(pieces, ',');
    NonBlankFree(pieces, ']');
    if kept == [] then [EMPTY_IGNORES] else kept
  }

  /** The codes a comment line contributes under one marker: none when the
      marker is absent, otherwise the codes after its first occurrence. */
  function MarkerCodes(line: string, marker: string): (r: seq<string>)
    requires marker != ""
    ensures r == [] <==> !Contains(line, marker)
  {
    var p := Partition(line, marker);
    if p.found then
      assert OccursAt(line, marker, |p.before|);
      Codes(p.after)
    else []
  }

  datatype IgnoreCounts = IgnoreCounts(mypy: multiset<string>, noqa: multiset<string>, typeIgnore: multiset<string>)

  const NO_IGNORES := IgnoreCounts(multiset{}, multiset{}, multiset{})

  /** The counters after `Ignores.apply_line(line)`. */
  function WithLine(ig: IgnoreCounts, line: string): IgnoreCounts {
    IgnoreCounts(
      ig.mypy + multiset(MarkerCodes(line, MYPY_MARKER)),
      ig.noqa + multiset(MarkerCodes(line, NOQA_MARKER)),
      ig.typeIgnore + multiset(MarkerCodes(line, TYPE_MARKER)))
  }

  /** The counters after `Ignores.update(other)`: pointwise sums. */
  function Plus(a: IgnoreCounts, b: IgnoreCounts): IgnoreCounts {
    IgnoreCounts(a.mypy + b.mypy, a.noqa + b.noqa, a.typeIgnore + b.typeIgnore)
  }

  /** The codes listed (with `, ` between them) before a closing `]` come back
      exactly, in order: `Codes` inverts the way a suppression comment lists
      its codes. */
  lemma CodesOfList(codes: seq<string>, rest: string)
    requires |codes| >= 1
    requires forall i :: 0 <= i < |codes| ==> codes[i] != "" && Trimmed(codes[i])
    requires Free(codes, ',') && Free(codes, ']')
    ensures Codes(Join(", ", codes) + "]" + rest) == codes
  {
    var listed := Join(", ", codes);
    var pieces := [codes[0]] + Spaced(codes[1..]);
    var after := listed + "]" + rest;
    assert Partition(after, "]").before == listed by {
      ListedPieces(codes);
      PartitionCharFirst(listed, ']', rest);
    }
    assert Split(listed, ',') == pieces by {
      ListedPieces(codes);
      SplitJoin(pieces, ',');
    }
    NonBlankListed(codes);
  }

  /** Any comma-separated list before the first `]`, however it is spaced
      (`E501,F401`, ` E501 , F401 `, `a,,b`): the codes are its stripped,
      non-blank pieces in order, and the placeholder `(None)` comes back when
      every piece is blank. */
  lemma CodesOfPieces(pieces: seq<string>, rest: string)
    requires |pieces| >= 1 && Free(pieces, ',') && Free(pieces, ']')
    ensures (forall i :: 0 <= i < |pieces| ==> Strip(pieces[i]) == "") ==>
      Codes(Join(",", pieces) + "]" + rest) == [EMPTY_IGNORES]
    ensures (exists i :: 0 <= i < |pieces| && Strip(pieces[i]) != "") ==>
      Codes(Join(",", pieces) + "]" + rest) == NonBlank(pieces)
  {
    JoinFree(pieces, ',', ']');
    PartitionCharFirst(Join(",", pieces), ']', rest);
    SplitJoin(pieces, ',');
    NonBlankEmpty(pieces);
  }

  /** The same for a list with no closing `]`, as `# noqa: E501,F401` has:
      the whole rest of the line is the list. */
  lemma CodesOfUnclosedPieces(pieces: seq<string>)
    requires |pieces| >= 1 && Free(pieces, ',') && Free(pieces, ']')
    ensures (forall i :: 0 <= i < |pieces| ==> Strip(pieces[i]) == "") ==>
      Codes(Join(",", pieces)) == [EMPTY_IGNORES]
    ensures (exists i :: 0 <= i < |pieces| && Strip(pieces[i]) != "") ==>
      Codes(Join(",", pieces)) == NonBlank(pieces)
  {
    var listed := Join(",", pieces);
    JoinFree(pieces, ',', ']');
    assert Partition(listed, "]").before == listed by {
      var p := Partition(listed, "]");
      if p.found {
        assert false;
      }
    }
    SplitJoin(pieces, ',');
    NonBlankEmpty(pieces);
  }

  /** A comment that starts `# noqa: ` followed by a comma-separated list,
      spaced in any way, counts each non-blank code once under `noqa`. */
  lemma NoqaComment(ig: IgnoreCounts, pieces: seq<string>)
    requires |pieces| >= 1 && Free(pieces, ',') && Free(pieces, ']')
    requires exists i :: 0 <= i < |pieces| && Strip(pieces[i]) != ""
    ensures WithLine(ig, NOQA_MARKER + Join(",", pieces)).noqa == ig.noqa + multiset(NonBlank(pieces))
  {
    MarkerCodesAtStart(NOQA_MARKER, Join(",", pieces));
    CodesOfUnclosedPieces(pieces);
  }

  /** Nothing is kept exactly when every piece strips to nothing. */
  lemma {:induction false} NonBlankEmpty(pieces: seq<string>)
    ensures NonBlank(pieces) == [] <==> forall i :: 0 <= i < |pieces| ==> Strip(pieces[i]) == ""
  {
    if pieces != [] {
      var c, tail := Strip(pieces[0]), pieces[1..];
      assert NonBlank(pieces) == (if c != "" then [c] else []) + NonBlank(tail);
      NonBlankEmpty(tail);
      if forall i :: 0 <= i < |pieces| ==> Strip(pieces[i]) == "" {
        forall j | 0 <= j < |tail| ensures Strip(tail[j]) == "" {
          assert tail[j] == pieces[j + 1];
        }
      } else if c == "" {
        var i :| 0 <= i < |pieces| && Strip(pieces[i]) != "";
        assert tail[i - 1] == pieces[i];
      }
    }
  }

  /** A code is kept exactly when it is the non-empty stripped form of some piece. */
  lemma {:induction false} NonBlankHas(pieces: seq<string>, x: string)
    ensures x in NonBlank(pieces) <==> x != "" && exists i :: 0 <= i < |pieces| && Strip(pieces[i]) == x
  {
    if pieces != [] {
      var c, tail := Strip(pieces[0]), pieces[1..];
      assert NonBlank(pieces) == (if c != "" then [c] else []) + NonBlank(tail);
      NonBlankHas(tail, x);
      if x in NonBlank(tail) {
        var j :| 0 <= j < |tail| && Strip(tail[j]) == x;
        assert pieces[j + 1] == tail[j];
      }
      if x != "" && (exists i :: 0 <= i < |pieces| && Strip(pieces[i]) == x) {
        var i :| 0 <= i < |pieces| && Strip(pieces[i]) == x;
        if i > 0 {
          assert Strip(tail[i - 1]) == x;
        }
      }
    }
  }

  lemma NonBlankListed(codes: seq<string>)
    requires |codes| >= 1
    requires forall i :: 0 <= i < |codes| ==> codes[i] != "" && Trimmed(codes[i])
    ensures NonBlank([codes[0]] + Spaced(codes[1..])) == codes
  {
    var head, tail := codes[0], codes[1..];
    assert codes == [head] + tail;
    NonBlankCons(head, Spaced(tail));
    NonBlankSpacedCodes(tail);
  }

  /** A trimmed, non-empty first piece is kept as it is. */
  lemma NonBlankCons(c: string, rest: seq<string>)
    requires c != "" && Trimmed(c)
    ensures NonBlank([c] + rest) == [c] + NonBlank(rest)
  {
    StripTrimmed(c);
    assert ([c] + rest)[1..] == rest;
  }

  /** How `, `-separated codes split at `,`: the first as it is, the others
      with a space in front; no piece holds `,` or `]`. */
  lemma ListedPieces(codes: seq<string>)
    requires |codes| >= 1
    requires Free(codes, ',') && Free(codes, ']')
    ensures Join(", ", codes) == Join(",", [codes[0]] + Spaced(codes[1..]))
    ensures Free([codes[0]] + Spaced(codes[1..]), ',') && Free([codes[0]] + Spaced(codes[1..]), ']')
    ensures ']' !in Join(", ", codes)
  {
    var pieces := [codes[0]] + Spaced(codes[1..]);
    JoinWithSpace(codes);
    forall i | 0 <= i < |pieces| ensures ',' !in pieces[i] && ']' !in pieces[i] {
      if i > 0 {
        assert pieces[i] == " " + codes[i];
      }
    }
    JoinFree(pieces, ',', ']');
  }

  /** A code with a space in front is kept, without the space. */
  lemma NonBlankSpacedHead(c: string, rest: seq<string>)
    requires c != "" && Trimmed(c)
    ensures NonBlank([" " + c] + rest) == [c] + NonBlank(rest)
  {
    StripSpaceThenWord(c);
    assert ([" " + c] + rest)[1..] == rest;
  }

  /** Stripping the space back off trimmed, non-empty codes keeps them all. */
  lemma {:induction false} NonBlankSpacedCodes(codes: seq<string>)
    requires forall i :: 0 <= i < |codes| ==> codes[i] != "" && Trimmed(codes[i])
    ensures NonBlank(Spaced(codes)) == codes
  {
    if codes != [] {
      var head, tail := codes[0], codes[1..];
      assert codes == [head] + tail;
      SpacedCons(head, tail);
      NonBlankSpacedHead(head, Spaced(tail));
      NonBlankSpacedCodes(tail);
    }
  }

  /** A line that starts with a marker contributes the codes after it. */
  lemma MarkerCodesAtStart(marker: string, after: string)
    requires marker != ""
    ensures MarkerCodes(marker + after, marker) == Codes(after)
  {
    var s := marker + after;
    assert OccursAt(s, marker, 0) by {
      assert s[0..|marker|] == marker;
    }
    var p := Partition(s, marker);
    assert p.found && |p.before| == 0;
    assert s[|marker|..] == after;
  }

  /** Nothing before the first `]` means no codes, hence the placeholder. */
  lemma CodesOfNothing(after: string)
    requires Partition(after, "]").before == ""
    ensures Codes(after) == [EMPTY_IGNORES]
  {
    NothingSplits();
  }

  lemma NothingSplits()
    ensures NonBlank(Split("", ',')) == []
  {
    assert Split("", ',') == [""];
    assert Strip("") == "";
  }

  /** An empty code list, as in `# type: ignore[]`, counts the placeholder. */
  lemma CodesOfEmptyList(rest: string)
    ensures Codes("]" + rest) == [EMPTY_IGNORES]
  {
    PartitionCharFirst("", ']', rest);
    assert "" + "]" + rest == "]" + rest;
    CodesOfNothing("]" + rest);
  }

  /** A comment that starts `# type: ignore[` followed by a list of codes and
      `]` counts exactly the listed codes, each once, under `type`. */
  lemma TypeIgnoreComment(ig: IgnoreCounts, codes: seq<string>, rest: string)
    requires |codes| >= 1
    requires forall i :: 0 <= i < |codes| ==> codes[i] != "" && Trimmed(codes[i])
    requires Free(codes, ',') && Free(codes, ']')
    ensures WithLine(ig, TYPE_MARKER + (Join(", ", codes) + "]" + rest)).typeIgnore
      == ig.typeIgnore + multiset(codes)
  {
    MarkerCodesAtStart(TYPE_MARKER, Join(", ", codes) + "]" + rest);
    CodesOfList(codes, rest);
  }

  /** The bare `# type: ignore[]` counts the placeholder code `(None)` once. */
  lemma EmptyTypeIgnoreComment(ig: IgnoreCounts, rest: string)
    ensures WithLine(ig, TYPE_MARKER + ("]" + rest)).typeIgnore == ig.typeIgnore + multiset{EMPTY_IGNORES}
  {
    MarkerCodesAtStart(TYPE_MARKER, "]" + rest);
    CodesOfEmptyList(rest);
  }

  /** `Ignores`: the three suppression counters of one scope. */
  class Ignores {
    var mypy: multiset<string>
    var noqa: multiset<string>
    var typeIgnore: multiset<string>

    function Value(): IgnoreCounts
      reads this
    {
      IgnoreCounts(mypy, noqa, typeIgnore)
    }

    constructor ()
      ensures Value() == NO_IGNORES
    {
      mypy, noqa, typeIgnore := multiset{}, multiset{}, multiset{};
    }

    /** `Ignores.update`: add the other counters pointwise (also when `other`
        is this object, which then doubles every count). */
    method Update(other: Ignores)
      modifies this
      ensures mypy == old(mypy) + old(other.mypy)
      ensures noqa == old(noqa) + old(other.noqa)
      ensures typeIgnore == old(typeIgnore) + old(other.typeIgnore)
      ensures Value() == Plus(old(Value()), old(other.Value()))
    {
      var theirs := other.Value();
      mypy := mypy + theirs.mypy;
      noqa := noqa + theirs.noqa;
      typeIgnore := typeIgnore + theirs.typeIgnore;
    }

    /** `Ignores.apply_line`: for each category whose marker occurs in the
        line, count the codes after its first occurrence. */
    method ApplyLine(line: string)
      modifies this
      ensures mypy == old(mypy) + multiset(MarkerCodes(line, MYPY_MARKER))
      ensures noqa == old(noqa) + multiset(MarkerCodes(line, NOQA_MARKER))
      ensures typeIgnore == old(typeIgnore) + multiset(MarkerCodes(line, TYPE_MARKER))
      ensures Value() == WithLine(old(Value()), line)
    {
      mypy := mypy + multiset(MarkerCodes(line, MYPY_MARKER));
      noqa := noqa + multiset(MarkerCodes(line, NOQA_MARKER));
      typeIgnore := typeIgnore + multiset(MarkerCodes(line, TYPE_MARKER));
    }
  }

  // ===========================================================================
  // One scope: `ScopeInfo`
  // ===========================================================================

  /** The value of a `ScopeInfo`: its name, its counters, the line it starts on
      (-1 until a token is applied) and the number of lines it spans, and the
      indices of its child blocks. */
  datatype Stats = Stats(
    displayName: string,
    blockCount: int,
    lineStart: int,
    lineCount: int,
    tokenCount: int,
    commentTotalLength: int,
    keywordCount: multiset<string>,
    opCount: multiset<string>,
    ignores: IgnoreCounts,
    children: seq<nat>)

  /** A freshly made `ScopeInfo()`. */
  const DEFAULT_STATS := Stats("", 0, -1, 0, 0, 0, multiset{}, multiset{}, NO_IGNORES, [])

  predicate IsKeywordToken(lex: Lexicon, tok: Token) {
    tok.kind == Name && lex.isKeyword(tok.text)
  }

  /** A COMMENT token that is not also counted as a keyword. */
  predicate IsCommentToken(lex: Lexicon, tok: Token) {
    !IsKeywordToken(lex, tok) && tok.kind == Comment
  }

  /** The length of a comment's text after its first `#`. */
  function CommentLength(text: string): nat {
    |Partition(text, "#").after|
  }

  /** The statistics after `ScopeInfo.apply_token(tok)`. */
  function Applied(s: Stats, tok: Token, lex: Lexicon): Stats {
    var start := if s.lineStart == -1 then tok.startLine else s.lineStart;
    s.(tokenCount := s.tokenCount + 1,
       lineStart := start,
       lineCount := tok.endLine - start,
       opCount := s.opCount + multiset{OpName(lex, tok.kind)},
       keywordCount := if IsKeywordToken(lex, tok) then s.keywordCount + multiset{tok.text} else s.keywordCount,
       commentTotalLength :=
         if IsCommentToken(lex, tok) then s.commentTotalLength + CommentLength(tok.text) else s.commentTotalLength,
       ignores := if IsCommentToken(lex, tok) then WithLine(s.ignores, tok.text) else s.ignores)
  }

  /** All positions in `idx` are below `n`. */
  predicate Within(idx: seq<nat>, n: nat) {
    forall k :: 0 <= k < |idx| ==> idx[k] < n
  }

  /** The statistics after applying the tokens at positions `idx`, in order. */
  function ApplyAll(s: Stats, tokens: seq<Token>, idx: seq<nat>, lex: Lexicon): Stats
    requires Within(idx, |tokens|)
    decreases |idx|
  {
    if idx == [] then s
    else ApplyAll(Applied(s, tokens[idx[0]], lex), tokens, idx[1..], lex)
  }

  class ScopeInfo {
    var displayName: string
    var blockCount: int
    var lineStart: int
    var lineCount: int
    var tokenCount: int
    var commentTotalLength: int
    var keywordCount: multiset<string>
    var opCount: multiset<string>
    const ignores: Ignores
    var children: seq<nat>

    function Value(): Stats
      reads this, ignores
    {
      Stats(displayName, blockCount, lineStart, lineCount, tokenCount, commentTotalLength,
            keywordCount, opCount, ignores.Value(), children)
    }

    constructor ()
      ensures Value() == DEFAULT_STATS
      ensures fresh(ignores)
    {
      displayName, blockCount, lineStart, lineCount, tokenCount := "", 0, -1, 0, 0;
      commentTotalLength, keywordCount, opCount, children := 0, multiset{}, multiset{}, [];
      ignores := new Ignores();
    }

    /** `ScopeInfo.apply_token`: count one more token; the first token applied
        fixes `lineStart`, every token sets `lineCount` from its end line; one
        `opCount` entry per token, a keyword entry per keyword NAME token, and
        for a COMMENT its length after `#` and its suppression codes. */
    method ApplyToken(tok: Token, lex: Lexicon)
      modifies this, ignores
      ensures Value() == Applied(old(Value()), tok, lex)
    {
      ghost var before := Value();
      Count(tok, lex);
      if IsCommentToken(lex, tok) {
        ignores.ApplyLine(tok.text);
      }
      AppliedByFields(before, Value(), tok, lex);
    }

    method Count(tok: Token, lex: Lexicon)
      modifies this
      ensures tokenCount == old(tokenCount) + 1
      ensures lineStart == if old(lineStart) == -1 then tok.startLine else old(lineStart)
      ensures lineCount == tok.endLine - lineStart
      ensures opCount == old(opCount) + multiset{OpName(lex, tok.kind)}
      ensures keywordCount == if IsKeywordToken(lex, tok) then old(keywordCount) + multiset{tok.text} else old(keywordCount)
      ensures commentTotalLength == if IsCommentToken(lex, tok) then old(commentTotalLength) + CommentLength(tok.text) else old(commentTotalLength)
      ensures displayName == old(displayName) && blockCount == old(blockCount) && children == old(children)
    {
      tokenCount := tokenCount + 1;
      if lineStart == -1 {
        lineStart := tok.startLine;
      }
      lineCount := tok.endLine - lineStart;
      opCount := opCount + multiset{OpName(lex, tok.kind)};
      if IsKeywordToken(lex, tok) {
        keywordCount := keywordCount + multiset{tok.text};
      } else if tok.kind == Comment {
        commentTotalLength := commentTotalLength + CommentLength(tok.text);
      }
    }
  }

  lemma AppliedByFields(s: Stats, t: Stats, tok: Token, lex: Lexicon)
    requires t.tokenCount == s.tokenCount + 1
    requires t.lineStart == if s.lineStart == -1 then tok.startLine else s.lineStart
    requires t.lineCount == tok.endLine - t.lineStart
    requires t.opCount == s.opCount + multiset{OpName(lex, tok.kind)}
    requires t.keywordCount == if IsKeywordToken(lex, tok) then s.keywordCount + multiset{tok.text} else s.keywordCount
    requires t.commentTotalLength == if IsCommentToken(lex, tok) then s.commentTotalLength + CommentLength(tok.text) else s.commentTotalLength
    requires t.ignores == if IsCommentToken(lex, tok) then WithLine(s.ignores, tok.text) else s.ignores
    requires t.displayName == s.displayName && t.blockCount == s.blockCount && t.children == s.children
    ensures t == Applied(s, tok, lex)
  {}

  // ---------------------------------------------------------------------------
  // What a run of applied tokens adds up to
  // ---------------------------------------------------------------------------

  /** The `op_count` keys of the tokens at `idx`. */
  function OpNames(tokens: seq<Token>, idx: seq<nat>, lex: Lexicon): (r: seq<string>)
    requires Within(idx, |tokens|)
    ensures |r| == |idx|
    decreases |idx|
  {
    if idx == [] then [] else [OpName(lex, tokens[idx[0]].kind)] + OpNames(tokens, idx[1..], lex)
  }

  /** The texts of the keyword NAME tokens at `idx`. */
  function KeywordTexts(tokens: seq<Token>, idx: seq<nat>, lex: Lexicon): (r: seq<string>)
    requires Within(idx, |tokens|)
    ensures forall w :: w in r ==> lex.isKeyword(w)
    decreases |idx|
  {
    if idx == [] then []
    else (if IsKeywordToken(lex, tokens[idx[0]]) then [tokens[idx[0]].text] else []) + KeywordTexts(tokens, idx[1..], lex)
  }

  /** The comment lengths of the COMMENT tokens at `idx`, added up. */
  function CommentTotal(tokens: seq<Token>, idx: seq<nat>, lex: Lexicon): nat
    requires Within(idx, |tokens|)
    decreases |idx|
  {
    if idx == [] then 0
    else
      (if IsCommentToken(lex, tokens[idx[0]]) then CommentLength(tokens[idx[0]].text) else 0)
      + CommentTotal(tokens, idx[1..], lex)
  }

  /** Applying tokens never touches a scope's name, block count or children. */
  lemma {:induction false} ApplyAllKeeps(s: Stats, tokens: seq<Token>, idx: seq<nat>, lex: Lexicon)
    requires Within(idx, |tokens|)
    ensures ApplyAll(s, tokens, idx, lex).displayName == s.displayName
    ensures ApplyAll(s, tokens, idx, lex).blockCount == s.blockCount
    ensures ApplyAll(s, tokens, idx, lex).children == s.children
    decreases |idx|
  {
    if idx != [] {
      ApplyAllKeeps(Applied(s, tokens[idx[0]], lex), tokens, idx[1..], lex);
    }
  }

  /** Every applied token, of any kind, adds one to `tokenCount` and exactly one
      entry, its own type name, to `opCount`; so `opCount` grows in step with
      `tokenCount`. */
  lemma {:induction false} ApplyAllCounts(s: Stats, tokens: seq<Token>, idx: seq<nat>, lex: Lexicon)
    requires Within(idx, |tokens|)
    ensures ApplyAll(s, tokens, idx, lex).tokenCount == s.tokenCount + |idx|
    ensures ApplyAll(s, tokens, idx, lex).opCount == s.opCount + multiset(OpNames(tokens, idx, lex))
    ensures |ApplyAll(s, tokens, idx, lex).opCount| - |s.opCount| == ApplyAll(s, tokens, idx, lex).tokenCount - s.tokenCount
    decreases |idx|
  {
    if idx != [] {
      ApplyAllCounts(Applied(s, tokens[idx[0]], lex), tokens, idx[1..], lex);
      assert OpNames(tokens, idx, lex) == [OpName(lex, tokens[idx[0]].kind)] + OpNames(tokens, idx[1..], lex);
    }
  }

  /** `keywordCount` grows only by the texts of keyword NAME tokens, and
      `commentTotalLength` only by the lengths of COMMENT tokens. */
  lemma {:induction false} ApplyAllKeywordsAndComments(s: Stats, tokens: seq<Token>, idx: seq<nat>, lex: Lexicon)
    requires Within(idx, |tokens|)
    ensures ApplyAll(s, tokens, idx, lex).keywordCount == s.keywordCount + multiset(KeywordTexts(tokens, idx, lex))
    ensures ApplyAll(s, tokens, idx, lex).commentTotalLength == s.commentTotalLength + CommentTotal(tokens, idx, lex)
    decreases |idx|
  {
    if idx != [] {
      ApplyAllKeywordsAndComments(Applied(s, tokens[idx[0]], lex), tokens, idx[1..], lex);
    }
  }

  /** A scope that has not started yet takes its `lineStart` from the first
      token applied, and its `lineCount` runs from there to the end line of the
      last one. */
  lemma {:induction false} ApplyAllLines(s: Stats, tokens: seq<Token>, idx: seq<nat>, lex: Lexicon)
    requires Within(idx, |tokens|) && idx != []
    requires forall k :: 0 <= k < |idx| ==> tokens[idx[k]].startLine != -1
    ensures ApplyAll(s, tokens, idx, lex).lineStart == (if s.lineStart == -1 then tokens[idx[0]].startLine else s.lineStart)
    ensures ApplyAll(s, tokens, idx, lex).lineCount == tokens[idx[|idx| - 1]].endLine - ApplyAll(s, tokens, idx, lex).lineStart
    decreases |idx|
  {
    if |idx| > 1 {
      ApplyAllLines(Applied(s, tokens[idx[0]], lex), tokens, idx[1..], lex);
    }
  }

  /** Only the tokens at the applied positions matter. */
  lemma {:induction false} ApplyAllLocal(s: Stats, tokens: seq<Token>, tokens': seq<Token>, n: nat, idx: seq<nat>, lex: Lexicon)
    requires n <= |tokens| && n <= |tokens'| && tokens[..n] == tokens'[..n]
    requires Within(idx, n)
    ensures ApplyAll(s, tokens, idx, lex) == ApplyAll(s, tokens', idx, lex)
    decreases |idx|
  {
    if idx != [] {
      assert tokens[idx[0]] == tokens[..n][idx[0]] == tokens'[idx[0]];
      ApplyAllLocal(Applied(s, tokens[idx[0]], lex), tokens, tokens', n, idx[1..], lex);
    }
  }

  // ===========================================================================
  // The walk over a scope's tokens: `fill`
  // ===========================================================================

  /** A block found by the block discovery (not part of this model): the
      positions of its first token and of its closing dedent token, its direct
      children as block indices, and its display name. */
  datatype Block = Block(begin: nat, dedent: nat, children: seq<nat>, displayName: string)

  function Reverse(xs: seq<nat>): (r: seq<nat>)
    ensures |r| == |xs|
    ensures forall i :: 0 <= i < |xs| ==> r[i] == xs[|xs| - 1 - i]
  {
    seq(|xs|, i requires 0 <= i < |xs| => xs[|xs| - 1 - i])
  }

  /** The positions `fill` applies, in order, from cursor `begin` up to (not
      including) `end`, with `stack` the pending children, the next one last:
      when the cursor has reached the next child's first token the cursor jumps
      to that child's dedent token and the child is dropped; otherwise the token
      under the cursor is applied. Every position applied is below `end`. */
  function Trace(blocks: seq<Block>, begin: nat, end: nat, stack: seq<nat>): (r: seq<nat>)
    requires Within(stack, |blocks|)
    ensures Within(r, end)
    decreases |stack|, end - begin
  {
    if begin >= end then []
    else if |stack| > 0 && begin >= blocks[stack[|stack| - 1]].begin then
      Trace(blocks, blocks[stack[|stack| - 1]].dedent, end, stack[..|stack| - 1])
    else [begin] + Trace(blocks, begin + 1, end, stack)
  }

  /** The positions from `a` up to (not including) `b`. */
  function Range(a: nat, b: nat): (r: seq<nat>)
    ensures |r| == if a <= b then b - a else 0
    ensures forall k :: 0 <= k < |r| ==> r[k] == a + k
    decreases b - a
  {
    if a >= b then [] else [a] + Range(a + 1, b)
  }

  /** With no children pending, `fill` applies every position of `[begin, end)`
      exactly once, in increasing order. */
  lemma {:induction false} TraceWithoutKids(blocks: seq<Block>, begin: nat, end: nat)
    ensures Trace(blocks, begin, end, []) == Range(begin, end)
    decreases end - begin
  {
    if begin < end {
      TraceWithoutKids(blocks, begin + 1, end);
    }
  }

  /** When the next child starts inside `[begin, end)`, `fill` applies the
      positions before it, then carries on from that child's dedent token: the
      dedent position itself is applied to the parent too. */
  lemma {:induction false} TraceSkipsKid(blocks: seq<Block>, begin: nat, end: nat, stack: seq<nat>, k: nat)
    requires Within(stack, |blocks|) && k < |blocks|
    requires begin <= blocks[k].begin < end
    ensures Within(stack + [k], |blocks|)
    ensures Trace(blocks, begin, end, stack + [k])
      == Range(begin, blocks[k].begin) + Trace(blocks, blocks[k].dedent, end, stack)
    decreases blocks[k].begin - begin
  {
    var st := stack + [k];
    assert st[|st| - 1] == k && st[..|st| - 1] == stack;
    if begin < blocks[k].begin {
      TraceSkipsKid(blocks, begin + 1, end, stack, k);
    }
  }

  /** Skipping to a child's dedent token rather than past it means that the
      dedent token of a childless only child is applied to both the child and
      its parent. */
  lemma DedentAppliedTwice(blocks: seq<Block>, p: nat)
    requires p < |blocks| && |blocks[p].children| == 1
    requires var k := blocks[p].children[0];
      k < |blocks| && blocks[k].children == []
      && blocks[p].begin <= blocks[k].begin <= blocks[k].dedent <= blocks[p].dedent
    ensures var k := blocks[p].children[0];
      && blocks[k].dedent in Trace(blocks, blocks[k].begin, blocks[k].dedent + 1, Reverse(blocks[k].children))
      && blocks[k].dedent in Trace(blocks, blocks[p].begin, blocks[p].dedent + 1, Reverse(blocks[p].children))
  {
    var k := blocks[p].children[0];
    assert blocks[p].children == [k];
    TraceReachesLast(blocks, blocks[k].begin, blocks[k].dedent, blocks[k].children);
    DedentInParent(blocks, p, k);
  }

  /** With no children pending, the walk over `[begin, last]` applies `last`. */
  lemma TraceReachesLast(blocks: seq<Block>, begin: nat, last: nat, children: seq<nat>)
    requires begin <= last && children == []
    ensures last in Trace(blocks, begin, last + 1, Reverse(children))
  {
    assert Reverse(children) == [];
    TraceWithoutKids(blocks, begin, last + 1);
    InRange(begin, last + 1, last);
  }

  lemma InRange(a: nat, b: nat, x: nat)
    requires a <= x < b
    ensures x in Range(a, b)
  {
    assert Range(a, b)[x - a] == x;
  }

  lemma DedentInParent(blocks: seq<Block>, p: nat, k: nat)
    requires p < |blocks| && blocks[p].children == [k] && k < |blocks|
    requires blocks[p].begin <= blocks[k].begin <= blocks[k].dedent <= blocks[p].dedent
    ensures blocks[k].dedent in Trace(blocks, blocks[p].begin, blocks[p].dedent + 1, Reverse(blocks[p].children))
  {
    var bk := blocks[k];
    assert Reverse(blocks[p].children) == [] + [k];
    TraceSkipsKid(blocks, blocks[p].begin, blocks[p].dedent + 1, [], k);
    TraceWithoutKids(blocks, bk.dedent, blocks[p].dedent + 1);
    var tail := Range(bk.dedent, blocks[p].dedent + 1);
    assert tail[0] == bk.dedent;
  }

  /** The statistics `fill(info, begin, end, kids)` leaves in a scope that held `s`. */
  function FillSpec(s: Stats, tokens: seq<Token>, blocks: seq<Block>, begin: nat, end: nat, kids: seq<nat>, lex: Lexicon): Stats
    requires end <= |tokens| && Within(kids, |blocks|)
  {
    ApplyAll(s.(children := kids), tokens, Trace(blocks, begin, end, Reverse(kids)), lex)
  }

  /** `fill`: set the scope's children to `kids`, then walk the cursor from
      `begin` to `end`, skipping each pending child and applying every other
      token. Children's statistics are not merged into the scope, and its block
      count is not touched. */
  method Fill(info: ScopeInfo, tokens: seq<Token>, blocks: seq<Block>, begin: nat, end: nat, kids: seq<nat>, lex: Lexicon)
    requires end <= |tokens| && Within(kids, |blocks|)
    modifies info, info.ignores
    ensures info.Value() == FillSpec(old(info.Value()), tokens, blocks, begin, end, kids, lex)
  {
    ghost var target := FillSpec(old(info.Value()), tokens, blocks, begin, end, kids, lex);
    info.children := kids;
    var stack := Reverse(kids);
    var cursor: nat := begin;
    while cursor < end
      invariant Within(stack, |blocks|)
      invariant ApplyAll(info.Value(), tokens, Trace(blocks, cursor, end, stack), lex) == target
      decreases |stack|, end - cursor
    {
      if |stack| > 0 && cursor >= blocks[stack[|stack| - 1]].begin {
        cursor := blocks[stack[|stack| - 1]].dedent;
        stack := stack[..|stack| - 1];
      } else {
        var rest := Trace(blocks, cursor + 1, end, stack);
        assert Trace(blocks, cursor, end, stack) == [cursor] + rest;
        assert ([cursor] + rest)[1..] == rest;
        info.ApplyToken(tokens[cursor], lex);
        cursor := cursor + 1;
      }
    }
  }

  // ===========================================================================
  // The whole file: `FileInfo.make`
  // ===========================================================================

  /** What the block discovery guarantees and `make` relies on: every dedent
      token exists and every child index names a block. */
  predicate WellFormed(tokens: seq<Token>, blocks: seq<Block>) {
    forall i :: 0 <= i < |blocks| ==> blocks[i].dedent < |tokens| && Within(blocks[i].children, |blocks|)
  }

  /** Blocks listed in source order start at distinct positions, so there are
      never more blocks than tokens and the whole-file range `[0, |blocks|)`
      stays inside the token list. */
  lemma SourceOrderFits(tokens: seq<Token>, blocks: seq<Block>)
    requires forall i, j :: 0 <= i < j < |blocks| ==> blocks[i].begin < blocks[j].begin
    requires forall i :: 0 <= i < |blocks| ==> blocks[i].begin < |tokens|
    ensures |blocks| <= |tokens|
  {
    var i := 0;
    while i < |blocks|
      invariant 0 <= i <= |blocks|
      invariant i > 0 ==> blocks[i - 1].begin >= i - 1
    {
      i := i + 1;
    }
  }

  /** The indices of all `n` blocks: `range(N)`. */
  function AllBlocks(n: nat): (r: seq<nat>)
    ensures |r| == n && Within(r, n)
  {
    Range(0, n)
  }

  /** The statistics of block `i`: filled over its own range, then named. */
  function BlockStats(tokens: seq<Token>, blocks: seq<Block>, i: nat, lex: Lexicon): Stats
    requires WellFormed(tokens, blocks) && i < |blocks|
  {
    var b := blocks[i];
    FillSpec(DEFAULT_STATS, tokens, blocks, b.begin, b.dedent + 1, b.children, lex).(displayName := b.displayName)
  }

  /** The whole-file statistics: `fill(top, 0, N, range(N))` with `N` the number
      of blocks (so only the first `N` tokens are looked at), then the name
      `(module)` and an emptied children list. */
  function TopStats(tokens: seq<Token>, blocks: seq<Block>, lex: Lexicon): Stats
    requires WellFormed(tokens, blocks) && |blocks| <= |tokens|
  {
    var n := |blocks|;
    FillSpec(DEFAULT_STATS, tokens, blocks, 0, n, AllBlocks(n), lex).(displayName := MODULE_SCOPE, children := [])
  }

  /** The value of a `FileInfo`. */
  datatype FileStats = FileStats(blocks: seq<Stats>, top: Stats)

  /** What `FileInfo.make` builds. */
  function MakeSpec(tokens: seq<Token>, blocks: seq<Block>, lex: Lexicon): FileStats
    requires WellFormed(tokens, blocks) && |blocks| <= |tokens|
  {
    FileStats(
      seq(|blocks|, i requires 0 <= i < |blocks| => BlockStats(tokens, blocks, i, lex)),
      TopStats(tokens, blocks, lex))
  }

  /** `make` gives every block its name and the children it was found with, and
      leaves every block count at zero; the whole-file scope is named
      `(module)` and has no children. */
  lemma MakeKeepsStructure(tokens: seq<Token>, blocks: seq<Block>, lex: Lexicon)
    requires WellFormed(tokens, blocks) && |blocks| <= |tokens|
    ensures |MakeSpec(tokens, blocks, lex).blocks| == |blocks|
    ensures forall i :: 0 <= i < |blocks| ==>
      && MakeSpec(tokens, blocks, lex).blocks[i].displayName == blocks[i].displayName
      && MakeSpec(tokens, blocks, lex).blocks[i].children == blocks[i].children
      && MakeSpec(tokens, blocks, lex).blocks[i].blockCount == 0
    ensures MakeSpec(tokens, blocks, lex).top.displayName == MODULE_SCOPE
    ensures MakeSpec(tokens, blocks, lex).top.children == []
    ensures MakeSpec(tokens, blocks, lex).top.blockCount == 0
  {
    var f := MakeSpec(tokens, blocks, lex);
    forall i | 0 <= i < |blocks|
      ensures f.blocks[i].children == blocks[i].children && f.blocks[i].blockCount == 0
    {
      var b := blocks[i];
      ApplyAllKeeps(DEFAULT_STATS.(children := b.children), tokens, Trace(blocks, b.begin, b.dedent + 1, Reverse(b.children)), lex);
    }
    var n := |blocks|;
    ApplyAllKeeps(DEFAULT_STATS.(children := AllBlocks(n)), tokens, Trace(blocks, 0, n, Reverse(AllBlocks(n))), lex);
  }

  /** A block without children counts every token from its first up to and
      including its dedent token, with one `opCount` entry for each. */
  lemma LeafBlockCounts(tokens: seq<Token>, blocks: seq<Block>, i: nat, lex: Lexicon)
    requires WellFormed(tokens, blocks) && i < |blocks|
    requires blocks[i].children == [] && blocks[i].begin <= blocks[i].dedent
    ensures BlockStats(tokens, blocks, i, lex).tokenCount == blocks[i].dedent + 1 - blocks[i].begin
    ensures |BlockStats(tokens, blocks, i, lex).opCount| == blocks[i].dedent + 1 - blocks[i].begin
  {
    var b := blocks[i];
    assert Reverse(b.children) == [];
    TraceWithoutKids(blocks, b.begin, b.dedent + 1);
    ApplyAllCounts(DEFAULT_STATS.(children := b.children), tokens, Range(b.begin, b.dedent + 1), lex);
  }

  /** The whole-file scope depends only on the first `|blocks|` tokens: whatever
      comes after them is never applied to it. */
  lemma TopSeesOnlyFirstTokens(tokens: seq<Token>, tokens': seq<Token>, blocks: seq<Block>, lex: Lexicon)
    requires WellFormed(tokens, blocks) && WellFormed(tokens', blocks)
    requires |blocks| <= |tokens| && |blocks| <= |tokens'|
    requires tokens[..|blocks|] == tokens'[..|blocks|]
    ensures TopStats(tokens, blocks, lex) == TopStats(tokens', blocks, lex)
  {
    var n := |blocks|;
    ApplyAllLocal(DEFAULT_STATS.(children := AllBlocks(n)), tokens, tokens', n, Trace(blocks, 0, n, Reverse(AllBlocks(n))), lex);
  }

  /** Every scope `make` builds has exactly as many `opCount` entries as tokens. */
  lemma MakeOpCountsMatchTokens(tokens: seq<Token>, blocks: seq<Block>, lex: Lexicon)
    requires WellFormed(tokens, blocks) && |blocks| <= |tokens|
    ensures forall i :: 0 <= i < |blocks| ==>
      |MakeSpec(tokens, blocks, lex).blocks[i].opCount| == MakeSpec(tokens, blocks, lex).blocks[i].tokenCount
    ensures |MakeSpec(tokens, blocks, lex).top.opCount| == MakeSpec(tokens, blocks, lex).top.tokenCount
  {
    var f := MakeSpec(tokens, blocks, lex);
    forall i | 0 <= i < |blocks| ensures |f.blocks[i].opCount| == f.blocks[i].tokenCount {
      var b := blocks[i];
      ApplyAllCounts(DEFAULT_STATS.(children := b.children), tokens, Trace(blocks, b.begin, b.dedent + 1, Reverse(b.children)), lex);
    }
    var n := |blocks|;
    ApplyAllCounts(DEFAULT_STATS.(children := AllBlocks(n)), tokens, Trace(blocks, 0, n, Reverse(AllBlocks(n))), lex);
  }

  /** Distinct scopes with distinct `Ignores`, so filling one leaves the others alone. */
  predicate Separate(infos: seq<ScopeInfo>) {
    forall a, b :: 0 <= a < |infos| && 0 <= b < |infos| && a != b ==>
      infos[a] != infos[b] && infos[a].ignores != infos[b].ignores
  }

  class FileInfo {
    var blocks: seq<ScopeInfo>
    var top: ScopeInfo

    constructor (blocks: seq<ScopeInfo>, top: ScopeInfo)
      ensures this.blocks == blocks && this.top == top
    {
      this.blocks := blocks;
      this.top := top;
    }

    /** `[ScopeInfo() for _ in range(N)]`: `n` fresh, separate, empty scopes. */
    static method NewScopes(n: nat) returns (infos: seq<ScopeInfo>)
      ensures |infos| == n && Separate(infos)
      ensures forall j :: 0 <= j < n ==> fresh(infos[j]) && fresh(infos[j].ignores) && infos[j].Value() == DEFAULT_STATS
    {
      infos := [];
      while |infos| < n
        invariant |infos| <= n && Separate(infos)
        invariant forall j :: 0 <= j < |infos| ==> fresh(infos[j]) && fresh(infos[j].ignores) && infos[j].Value() == DEFAULT_STATS
      {
        var info := new ScopeInfo();
        infos := infos + [info];
      }
    }

    /** The loop of `FileInfo.make` over the blocks, last block first: each
        scope is filled over its block's range `[begin, dedent + 1)` with the
        block's children, then given the block's name. */
    static method FillBlocks(infos: seq<ScopeInfo>, tokens: seq<Token>, blocks: seq<Block>, lex: Lexicon)
      requires WellFormed(tokens, blocks) && |infos| == |blocks| && Separate(infos)
      requires forall j :: 0 <= j < |infos| ==> infos[j].Value() == DEFAULT_STATS
      modifies set j | 0 <= j < |infos| :: infos[j]
      modifies set j | 0 <= j < |infos| :: infos[j].ignores
      ensures forall j :: 0 <= j < |infos| ==> infos[j].Value() == BlockStats(tokens, blocks, j, lex)
    {
      var i := |infos|;
      while i > 0
        invariant 0 <= i <= |infos|
        invariant forall j :: 0 <= j < i ==> infos[j].Value() == DEFAULT_STATS
        invariant forall j :: i <= j < |infos| ==> infos[j].Value() == BlockStats(tokens, blocks, j, lex)
      {
        i := i - 1;
        FillOne(infos[i], tokens, blocks, i, lex);
      }
    }

    /** One iteration of that loop: block `i`'s scope, filled and named. */
    static method FillOne(info: ScopeInfo, tokens: seq<Token>, blocks: seq<Block>, i: nat, lex: Lexicon)
      requires WellFormed(tokens, blocks) && i < |blocks| && info.Value() == DEFAULT_STATS
      modifies info, info.ignores
      ensures info.Value() == BlockStats(tokens, blocks, i, lex)
    {
      var b := blocks[i];
      Fill(info, tokens, blocks, b.begin, b.dedent + 1, b.children, lex);
      info.displayName := b.displayName;
    }

    /** `FileInfo.make`: one fresh scope per block, filled by `FillBlocks`,
        then a fresh whole-file scope filled by `FillTop`. */
    static method Make(tokens: seq<Token>, blocks: seq<Block>, lex: Lexicon) returns (f: FileInfo)
      requires WellFormed(tokens, blocks) && |blocks| <= |tokens|
      ensures |f.blocks| == |blocks|
      ensures forall j :: 0 <= j < |blocks| ==> f.blocks[j].Value() == MakeSpec(tokens, blocks, lex).blocks[j]
      ensures f.top.Value() == MakeSpec(tokens, blocks, lex).top
    {
      var n := |blocks|;
      var infos := NewScopes(n);
      FillBlocks(infos, tokens, blocks, lex);
      var top := new ScopeInfo();
      FillTop(top, tokens, blocks, lex);
      f := new FileInfo(infos, top);
    }

    /** The whole-file scope: filled over `[0, N)` with the blocks `0 .. N - 1`
        as its children, where `N` is the number of blocks, then named
        `(module)` and its children cleared. */
    static method FillTop(top: ScopeInfo, tokens: seq<Token>, blocks: seq<Block>, lex: Lexicon)
      requires WellFormed(tokens, blocks) && |blocks| <= |tokens| && top.Value() == DEFAULT_STATS
      modifies top, top.ignores
      ensures top.Value() == TopStats(tokens, blocks, lex)
    {
      var n := |blocks|;
      Fill(top, tokens, blocks, 0, n, AllBlocks(n), lex);
      top.displayName := MODULE_SCOPE;
      top.children := [];
    }
  }

  // ===========================================================================
  // Serialisation: `asdict`, with default-valued entries left out
  // ===========================================================================

  /** The fields of a `ScopeInfo`, the keys of its dict. */
  datatype Field =
    | DisplayName | BlockCount | LineStart | LineCount | TokenCount
    | CommentTotalLength | KeywordCount | OpCount | IgnoresField | Children

  const FIELDS: set<Field> := {DisplayName, BlockCount, LineStart, LineCount, TokenCount,
                               CommentTotalLength, KeywordCount, OpCount, IgnoresField, Children}

  /** The key each field is written under. */
  function FieldName(f: Field): string {
    match f
    case DisplayName => "display_name"
    case BlockCount => "block_count"
    case LineStart => "line_start"
    case LineCount => "line_count"
    case TokenCount => "token_count"
    case CommentTotalLength => "comment_total_length"
    case KeywordCount => "keyword_count"
    case OpCount => "op_count"
    case IgnoresField => "ignores"
    case Children => "children"
  }

  /** The JSON-like values `asdict` produces; a scope's dict is a `Record`. */
  datatype Data =
    | Int(i: int)
    | Str(s: string)
    | List(items: seq<Data>)
    | Dict(entries: map<string, Data>)
    | Record(fields: map<Field, Data>)

  /** Python truthiness of such a value. */
  predicate Truthy(d: Data) {
    match d
    case Int(i) => i != 0
    case Str(s) => s != ""
    case List(items) => items != []
    case Dict(entries) => entries != map[]
    case Record(fields) => fields != map[]
  }

  /** `_asdata` on a dict: its truthy entries. */
  function Prune(m: map<string, Data>): (r: map<string, Data>)
    ensures forall k :: k in r <==> k in m && Truthy(m[k])
    ensures forall k :: k in r ==> r[k] == m[k]
  {
    map k | k in m && Truthy(m[k]) :: m[k]
  }

  /** A counter as a dict from key to (positive) count. */
  function CounterData(c: multiset<string>): (r: Data)
    ensures r.Dict? && (Truthy(r) <==> c != multiset{})
  {
    var m := map k | k in c :: Int(c[k]);
    assert c != multiset{} ==> exists k :: k in c && k in m;
    Dict(m)
  }

  /** The fields of an `Ignores`, before pruning. */
  function IgnoresFields(ig: IgnoreCounts): map<string, Data> {
    map["mypy" := CounterData(ig.mypy), "noqa" := CounterData(ig.noqa), "type" := CounterData(ig.typeIgnore)]
  }

  /** `Ignores.asdict()`: the non-empty counters; empty exactly when nothing was
      counted. */
  function IgnoresAsDict(ig: IgnoreCounts): (r: map<string, Data>)
    ensures r == map[] <==> ig == NO_IGNORES
  {
    var m := IgnoresFields(ig);
    assert ig != NO_IGNORES ==> Prune(m) != map[] by {
      if ig.mypy != multiset{} {
        assert "mypy" in Prune(m);
      } else if ig.noqa != multiset{} {
        assert "noqa" in Prune(m);
      } else if ig.typeIgnore != multiset{} {
        assert "type" in Prune(m);
      }
    }
    assert ig == NO_IGNORES ==> Prune(m) == map[] by {
      if ig == NO_IGNORES {
        assert Prune(m).Keys == {};
      }
    }
    Prune(m)
  }

  /** The list of child indices. */
  function ChildData(children: seq<nat>): (r: Data)
    ensures r.List? && |r.items| == |children|
    ensures forall i :: 0 <= i < |children| ==> r.items[i] == Int(children[i])
  {
    List(seq(|children|, i requires 0 <= i < |children| => Int(children[i])))
  }

  /** A field's value as `dataclasses.asdict` gives it (the `ignores` counters
      unpruned). */
  function FieldValue(s: Stats, f: Field): Data {
    match f
    case DisplayName => Str(s.displayName)
    case BlockCount => Int(s.blockCount)
    case LineStart => Int(s.lineStart)
    case LineCount => Int(s.lineCount)
    case TokenCount => Int(s.tokenCount)
    case CommentTotalLength => Int(s.commentTotalLength)
    case KeywordCount => CounterData(s.keywordCount)
    case OpCount => CounterData(s.opCount)
    case IgnoresField => Dict(IgnoresFields(s.ignores))
    case Children => ChildData(s.children)
  }

  /** A field's value as `_asdata` gives it (the `ignores` counters pruned). */
  function DataValue(s: Stats, f: Field): Data {
    if f == IgnoresField then Dict(IgnoresAsDict(s.ignores)) else FieldValue(s, f)
  }

  /** Whether a field survives both the pruning of falsy values and the
      comparison with a fresh scope's dict. */
  predicate Shown(s: Stats, f: Field) {
    Truthy(DataValue(s, f)) && DataValue(s, f) != FieldValue(DEFAULT_STATS, f)
  }

  /** The same, field by field: `line_start` is shown only when it is neither
      -1 nor 0, `ignores` only when some suppression was counted, and every
      other field exactly when it differs from its default. */
  predicate NonDefault(s: Stats, f: Field) {
    match f
    case DisplayName => s.displayName != ""
    case BlockCount => s.blockCount != 0
    case LineStart => s.lineStart != -1 && s.lineStart != 0
    case LineCount => s.lineCount != 0
    case TokenCount => s.tokenCount != 0
    case CommentTotalLength => s.commentTotalLength != 0
    case KeywordCount => s.keywordCount != multiset{}
    case OpCount => s.opCount != multiset{}
    case IgnoresField => s.ignores != NO_IGNORES
    case Children => s.children != []
  }

  lemma ShownIff(s: Stats, f: Field)
    ensures Shown(s, f) <==> NonDefault(s, f)
  {
    match f
    case IgnoresField =>
      ShownIgnores(s);
    case Children =>
      assert ChildData([]).items == [];
    case _ =>
      assert CounterData(multiset{}) == Dict(map[]);
  }

  lemma ShownIgnores(s: Stats)
    ensures Shown(s, IgnoresField) <==> s.ignores != NO_IGNORES
  {
    if s.ignores != NO_IGNORES {
      var pruned := IgnoresAsDict(s.ignores);
      var k :| k in pruned;
      assert Truthy(pruned[k]);
      assert !Truthy(IgnoresFields(NO_IGNORES)[k]);
    }
  }

  /** `ScopeInfo.asdict(omit)`: exactly the fields not in `omit` that differ
      from a fresh scope's (and are not falsy), each with its pruned value. */
  function ScopeAsDict(s: Stats, omit: seq<Field>): (r: map<Field, Data>)
    ensures forall f :: f in r <==> f !in omit && NonDefault(s, f)
    ensures forall f :: f in r ==> r[f] == DataValue(s, f)
  {
    assert forall f :: Shown(s, f) <==> NonDefault(s, f) by {
      forall f ensures Shown(s, f) <==> NonDefault(s, f) {
        ShownIff(s, f);
      }
    }
    map f | f in FIELDS && f !in omit && Shown(s, f) :: DataValue(s, f)
  }

  /** `FileInfo.asdict(omit)`: `top` when its dict is not empty, `blocks` when
      there is at least one block (even if every block's dict is empty). */
  function FileAsDict(f: FileStats, omit: seq<Field>): (r: map<string, Data>)
    ensures "top" in r <==> ScopeAsDict(f.top, omit) != map[]
    ensures "blocks" in r <==> f.blocks != []
    ensures forall k :: k in r ==> k == "top" || k == "blocks"
  {
    var blocks := seq(|f.blocks|, i requires 0 <= i < |f.blocks| => Record(ScopeAsDict(f.blocks[i], omit)));
    var top := Record(ScopeAsDict(f.top, omit));
    var m := map["top" := top, "blocks" := List(blocks)];
    assert m.Keys == {"top", "blocks"} && m["top"] == top && m["blocks"] == List(blocks);
    assert Truthy(List(blocks)) <==> f.blocks != [];
    Prune(m)
  }

  /** Serialising a fresh `ScopeInfo` gives `{}` (for a fresh `Ignores` this
      is `IgnoresAsDict`'s own contract). */
  lemma EmptyScopeSerialisesEmpty()
    ensures ScopeAsDict(DEFAULT_STATS, []) == map[]
  {
    assert forall f :: !NonDefault(DEFAULT_STATS, f);
    var r := ScopeAsDict(DEFAULT_STATS, []);
    assert r.Keys == {};
  }

  /** Serialising a fresh `FileInfo` gives `{}`. */
  lemma EmptyFileSerialisesEmpty()
    ensures FileAsDict(FileStats([], DEFAULT_STATS), []) == map[]
  {
    EmptyScopeSerialisesEmpty();
  }
}
