/** What the multi-linter learns about one file from its token lines and its
    path: the import lines it finds, the absolute module names they import,
    and the file's own dotted module name. The `MultiFile` properties are
    memoised values, so each is modelled as a function of the token lines
    and the path. */
module MultiFile {
  import opened Results
  import opened Strings
  import opened Tokens
  import opened SplitImports

  // ===========================================================================
  // `to_absolute`
  // ===========================================================================

  /** Python's `xs[:end]`: a negative `end` counts from the back, and a slice
      past either end is cut short. */
  function SliceTo(xs: seq<string>, end: int): (r: seq<string>)
    ensures |r| <= |xs| && r == xs[..|r|]
  {
    if end >= 0 then (if end <= |xs| then xs[..end] else xs)
    else if |xs| + end >= 0 then xs[..|xs| + end]
    else []
  }

  /** The parent packages a relative name with `dots` leading dots keeps,
      `parents[:(1 - dots) or None]`: one dot keeps them all, and each further
      dot drops one more from the end, down to none. */
  function Kept(parents: seq<string>, dots: nat): (r: seq<string>)
    requires dots >= 1
    ensures r == parents[..if dots - 1 <= |parents| then |parents| - (dots - 1) else 0]
  {
    var end := 1 - dots;
    if end == 0 then parents else SliceTo(parents, end)
  }

  predicate Relative(name: string) {
    name != [] && name[0] == '.'
  }

  /** `to_absolute(module)`: a name without a leading dot is already absolute;
      otherwise its leading dots are counted and stripped, and the rest is
      appended to the parent packages those dots keep. */
  function ToAbsolute(name: string, parents: seq<string>): (r: string)
    ensures !Relative(name) ==> r == name
  {
    if !Relative(name) then name
    else
      var root := LStripChar(name, '.');
      var dots := |name| - |root|;
      assert name[0] == '.';
      Join(".", Kept(parents, dots) + [root])
  }

  /** `d` leading dots resolve against the parent packages `d` dots keep:
      the first `|parents| - (d - 1)` of them. */
  lemma RelativeName(d: nat, root: string, parents: seq<string>)
    requires d >= 1 && !Relative(root)
    ensures ToAbsolute(Repeat('.', d) + root, parents) == Join(".", Kept(parents, d) + [root])
  {
    var name := Repeat('.', d) + root;
    assert name[0] == '.';
    LStripCharRun('.', d, root);
  }

  /** One dot names a sibling: a module of the importing file's own package. */
  lemma OneDot(root: string, parents: seq<string>)
    requires !Relative(root)
    ensures ToAbsolute("." + root, parents) == Join(".", parents + [root])
  {
    assert Repeat('.', 1) == ".";
    RelativeName(1, root, parents);
    assert Kept(parents, 1) == parents;
  }

  /** Each further dot climbs one package. */
  lemma ClimbOne(d: nat, root: string, parents: seq<string>, p: string)
    requires d >= 1 && !Relative(root)
    ensures ToAbsolute(Repeat('.', d + 1) + root, parents + [p]) == ToAbsolute(Repeat('.', d) + root, parents)
  {
    var longer := parents + [p];
    KeptClimb(d, parents, p);
    calc {
      ToAbsolute(Repeat('.', d + 1) + root, longer);
      { RelativeName(d + 1, root, longer); }
      Join(".", Kept(longer, d + 1) + [root]);
      Join(".", Kept(parents, d) + [root]);
      { RelativeName(d, root, parents); }
      ToAbsolute(Repeat('.', d) + root, parents);
    }
  }

  lemma KeptClimb(d: nat, parents: seq<string>, p: string)
    requires d >= 1
    ensures Kept(parents + [p], d + 1) == Kept(parents, d)
  {
    var n := if d - 1 <= |parents| then |parents| - (d - 1) else 0;
    assert (if d <= |parents + [p]| then |parents + [p]| - d else 0) == n;
    assert (parents + [p])[..n] == parents[..n];
  }

  /** More dots than there are parent packages: nothing of the path is kept
      and no error is raised, the name is just what follows the dots. */
  lemma TooDeep(d: nat, root: string, parents: seq<string>)
    requires d >= 1 && !Relative(root) && d - 1 >= |parents|
    ensures ToAbsolute(Repeat('.', d) + root, parents) == root
  {
    RelativeName(d, root, parents);
    assert Kept(parents, d) + [root] == [root];
  }

  // ===========================================================================
  // `get_import`
  // ===========================================================================

  /** A `from` or `import` name token. */
  predicate ImportStart(t: Token) {
    t.kind == Name && (t.text == "from" || t.text == "import")
  }

  /** Position `n` holds an import keyword and only indents come before it. */
  predicate ImportAt(tokens: seq<Token>, n: int) {
    0 <= n < |tokens| && ImportStart(tokens[n])
    && forall i :: 0 <= i < n ==> tokens[i].kind == Indent
  }

  /** `get_import(tokens)`: the line from its import keyword on, when that
      keyword comes first after any indents; nothing otherwise. */
  function GetImport(tokens: seq<Token>): (r: seq<Token>)
    ensures forall n :: ImportAt(tokens, n) ==> r == tokens[n..]
    ensures (forall n :: !ImportAt(tokens, n)) ==> r == []
  {
    if tokens == [] then []
    else if tokens[0].kind == Indent then
      assert forall n :: ImportAt(tokens, n) ==> ImportAt(tokens[1..], n - 1);
      assert forall n :: ImportAt(tokens[1..], n) ==> ImportAt(tokens, n + 1);
      GetImport(tokens[1..])
    else if ImportStart(tokens[0]) then
      assert forall n :: ImportAt(tokens, n) ==> n == 0 by {
        forall n | 0 < n < |tokens| ensures !ImportAt(tokens, n) {
          assert tokens[0].kind != Indent;
        }
      }
      assert ImportAt(tokens, 0);
      tokens
    else
      assert forall n :: !ImportAt(tokens, n) by {
        forall n | 0 < n < |tokens| ensures !ImportAt(tokens, n) {
          assert tokens[0].kind != Indent;
        }
      }
      []
  }

  // ===========================================================================
  // `_join_tokens`
  // ===========================================================================

  /** A dict from start line to physical line, as its entries in insertion
      order. */
  type Table = seq<(int, string)>

  function Keys(table: Table): (r: seq<int>)
    ensures |r| == |table| && forall i :: 0 <= i < |table| ==> r[i] == table[i].0
  {
    seq(|table|, i requires 0 <= i < |table| => table[i].0)
  }

  function Values(table: Table): (r: seq<string>)
    ensures |r| == |table| && forall i :: 0 <= i < |table| ==> r[i] == table[i].1
  {
    seq(|table|, i requires 0 <= i < |table| => table[i].1)
  }

  predicate DistinctKeys(table: Table) {
    forall i, j :: 0 <= i < j < |table| ==> table[i].0 != table[j].0
  }

  /** Where `k` is among `keys`. */
  function KeyIndex(keys: seq<int>, k: int): (i: nat)
    requires k in keys
    ensures i < |keys| && keys[i] == k
  {
    if keys[0] == k then 0 else 1 + KeyIndex(keys[1..], k)
  }

  /** `d[k] = v`: a key already present keeps its place and takes the new
      value; a new key goes last. */
  function Put(table: Table, k: int, v: string): (r: Table)
    requires DistinctKeys(table)
    ensures DistinctKeys(r)
    ensures k in Keys(table) ==> Keys(r) == Keys(table)
    ensures k !in Keys(table) ==> Keys(r) == Keys(table) + [k]
    ensures forall i :: 0 <= i < |r| ==> r[i].1 == if r[i].0 == k then v else table[i].1
  {
    if k in Keys(table) then
      var i := KeyIndex(Keys(table), k);
      table[i := (k, v)]
    else
      table + [(k, v)]
  }

  /** `{j.start[0]: j.line for j in tl}`. */
  function LineTable(tl: seq<Token>): (r: Table)
    ensures DistinctKeys(r)
  {
    if tl == [] then []
    else
      var last := tl[|tl| - 1];
      Put(LineTable(tl[..|tl| - 1]), last.startLine, last.line)
  }

  /** Some token of `tl` starts on line `k`. */
  predicate StartsOn(tl: seq<Token>, k: int) {
    exists i :: 0 <= i < |tl| && tl[i].startLine == k
  }

  /** The token at `i` is the last of `tl` that starts on its line. */
  predicate LastOnLine(tl: seq<Token>, i: int) {
    0 <= i < |tl| && forall j :: i < j < |tl| ==> tl[j].startLine != tl[i].startLine
  }

  /** The table has one entry for each line some token starts on... */
  lemma {:induction false} LineTableKeys(tl: seq<Token>)
    ensures forall k :: k in Keys(LineTable(tl)) <==> StartsOn(tl, k)
  {
    if tl != [] {
      var init := tl[..|tl| - 1];
      var last := tl[|tl| - 1];
      LineTableKeys(init);
      forall k ensures k in Keys(LineTable(tl)) <==> StartsOn(tl, k) {
        if StartsOn(tl, k) && k != last.startLine {
          var i :| 0 <= i < |tl| && tl[i].startLine == k;
          assert init[i].startLine == k;
        }
        if StartsOn(init, k) {
          var i :| 0 <= i < |init| && init[i].startLine == k;
          assert tl[i].startLine == k;
        }
      }
    }
  }

  /** Entry `e` pairs a line with the physical line of the last token that
      starts on it. */
  predicate Recorded(tl: seq<Token>, e: (int, string)) {
    exists i :: 0 <= i < |tl| && LastOnLine(tl, i) && tl[i].startLine == e.0 && tl[i].line == e.1
  }

  /** ...holding the physical line of the last token that starts there. */
  lemma {:induction false} LineTableValues(tl: seq<Token>)
    ensures forall n :: 0 <= n < |LineTable(tl)| ==> Recorded(tl, LineTable(tl)[n])
  {
    if tl != [] {
      LineTableValues(tl[..|tl| - 1]);
      forall n | 0 <= n < |LineTable(tl)| ensures Recorded(tl, LineTable(tl)[n]) {
        LineTableEntry(tl, tl[..|tl| - 1], n);
      }
    }
  }

  lemma LineTableEntry(tl: seq<Token>, init: seq<Token>, n: int)
    requires tl != [] && init == tl[..|tl| - 1] && 0 <= n < |LineTable(tl)|
    requires forall m :: 0 <= m < |LineTable(init)| ==> Recorded(init, LineTable(init)[m])
    ensures Recorded(tl, LineTable(tl)[n])
  {
    var last := tl[|tl| - 1];
    var t := LineTable(init);
    PutEntry(t, last.startLine, last.line, n);
    var e := LineTable(tl)[n];
    if e.0 == last.startLine {
      assert LastOnLine(tl, |tl| - 1);
    } else {
      assert Recorded(init, t[n]);
      var i :| 0 <= i < |init| && LastOnLine(init, i) && init[i].startLine == e.0 && init[i].line == e.1;
      StillLast(tl, init, i);
    }
  }

  /** After `d[k] = v`, the entry for `k` holds `v` and every other entry is
      where it was. */
  lemma PutEntry(table: Table, k: int, v: string, n: int)
    requires DistinctKeys(table) && 0 <= n < |Put(table, k, v)|
    ensures Put(table, k, v)[n].0 == k ==> Put(table, k, v)[n].1 == v
    ensures Put(table, k, v)[n].0 != k ==> n < |table| && Put(table, k, v)[n] == table[n]
  {
    var r := Put(table, k, v);
    if r[n].0 != k {
      assert Keys(r)[n] == r[n].0;
    }
  }

  /** A token that was the last on its line stays so when a token on another
      line follows. */
  lemma StillLast(tl: seq<Token>, init: seq<Token>, i: int)
    requires tl != [] && init == tl[..|tl| - 1] && LastOnLine(init, i)
    requires tl[|tl| - 1].startLine != init[i].startLine
    ensures LastOnLine(tl, i) && tl[i] == init[i]
  {
    forall j | i < j < |tl| ensures tl[j].startLine != tl[i].startLine {
      if j < |init| {
        assert tl[j] == init[j];
      }
    }
  }

  /** Python's `" ".join(s.split())`: the words of `s` separated by single
      spaces, with nothing at either end. */
  function Normalize(s: string): (r: string)
    ensures Trimmed(r)
    ensures Words(r) == Words(s)
    ensures r == Join(" ", Words(r))
  {
    var ws := Words(s);
    assert forall i :: 0 <= i < |ws| ==> ws[i] in ws;
    WordsJoin(ws);
    assert Trimmed(Join(" ", ws)) by {
      if ws != [] {
        assert ws[0] in ws && ws[|ws| - 1] in ws;
        JoinTrimmed(" ", ws);
      }
    }
    StripTrimmed(Join(" ", ws));
    Strip(Join(" ", ws))
  }

  /** Normalising twice is normalising once. */
  lemma NormalizeIdempotent(s: string)
    ensures Normalize(Normalize(s)) == Normalize(s)
  {
    var r := Normalize(s);
    assert Normalize(r) == Join(" ", Words(Normalize(r)));
  }

  /** `_join_tokens(tl)`: the physical lines the tokens were read from, one per
      start line, joined and normalised. */
  function JoinTokens(tl: seq<Token>): string
  {
    Normalize(Join(" ", Values(LineTable(tl))))
  }

  /** All the words of a list of lines, in order. */
  function AllWords(lines: seq<string>): (r: seq<string>)
  {
    if lines == [] then [] else Words(lines[0]) + AllWords(lines[1..])
  }

  lemma {:induction false} WordsOfJoin(lines: seq<string>)
    ensures Words(Join(" ", lines)) == AllWords(lines)
  {
    if |lines| == 1 {
      assert AllWords(lines[1..]) == [];
    } else if |lines| > 1 {
      WordsOfJoin(lines[1..]);
      WordsConcat(lines[0], ' ', Join(" ", lines[1..]));
      assert Join(" ", lines) == lines[0] + [' '] + Join(" ", lines[1..]);
    }
  }

  /** So the joined line is the words of those lines, in table order, each
      separated by a single space, with nothing at either end. */
  lemma JoinTokensWords(tl: seq<Token>)
    ensures JoinTokens(tl) == Join(" ", AllWords(Values(LineTable(tl))))
    ensures Trimmed(JoinTokens(tl))
  {
    WordsOfJoin(Values(LineTable(tl)));
  }

  // ===========================================================================
  // The path: `_parent_parts` and `module_name`
  // ===========================================================================

  /** A POSIX path is absolute when it starts at the root. */
  predicate IsAbsolute(path: string) {
    path != [] && path[0] == '/'
  }

  /** The pieces `pathlib` keeps: empty pieces (from the root or doubled
      slashes) and `.` pieces are dropped. */
  function Clean(pieces: seq<string>): (r: seq<string>)
    ensures forall p :: p in r ==> p in pieces && p != "" && p != "."
    ensures (forall i :: 0 <= i < |pieces| ==> pieces[i] != "" && pieces[i] != ".") ==> r == pieces
  {
    if pieces == [] then []
    else
      assert pieces == [pieces[0]] + pieces[1..];
      (if pieces[0] == "" || pieces[0] == "." then [] else [pieces[0]]) + Clean(pieces[1..])
  }

  /** The names of a path's components below its root. */
  function PathParts(path: string): (r: seq<string>)
    ensures forall p :: p in r ==> p != "" && p != "." && '/' !in p
  {
    Clean(Split(path, '/'))
  }

  /** A component name is one a path can hold. */
  predicate Component(p: string) {
    p != "" && p != "." && '/' !in p
  }

  /** Writing components out with slashes and reading the path back gives
      them again. */
  lemma PathPartsJoin(parts: seq<string>)
    requires |parts| >= 1 && forall i :: 0 <= i < |parts| ==> Component(parts[i])
    ensures PathParts(Join("/", parts)) == parts
  {
    SplitJoin(parts, '/');
  }

  /** `_parent_parts`: the names of the directories above the file, outermost
      first (`path.parents` reversed, the final `.` having no name). The
      source asserts that the path is relative. */
  function ParentParts(path: string): (r: Result<seq<string>>)
    ensures r.Err? <==> IsAbsolute(path)
    ensures r.Ok? && PathParts(path) != [] ==> r.value + [FileName(path)] == PathParts(path)
    ensures r.Ok? && PathParts(path) == [] ==> r.value == []
  {
    if IsAbsolute(path) then Err("the path is absolute")
    else
      var parts := PathParts(path);
      if parts == [] then Ok([])
      else
        LastSplit(parts);
        Ok(parts[..|parts| - 1])
  }

  lemma LastSplit(xs: seq<string>)
    requires xs != []
    ensures xs[..|xs| - 1] + [xs[|xs| - 1]] == xs
  {
  }

  /** `path.name`: the last component, empty when there is none. */
  function FileName(path: string): (r: string)
  {
    var parts := PathParts(path);
    if parts == [] then "" else parts[|parts| - 1]
  }

  /** `PurePath.stem`: the name without its last suffix, where a suffix starts
      at the last dot, not at the first character, and is more than the dot. */
  function Stem(name: string): (r: string)
    ensures r == name || (exists i :: 0 < i < |name| - 1 && name[i] == '.' && r == name[..i] && '.' !in name[i + 1..])
  {
    match LastIndex(name, '.')
    case Some(i) => if 0 < i < |name| - 1 then name[..i] else name
    case None => name
  }

  /** `module_name`: the parent packages and the file's stem joined by dots;
      a package's `__init__` file takes the package's own name. */
  function ModuleName(path: string): (r: Result<string>)
    ensures r.Err? <==> IsAbsolute(path)
  {
    var parents :- ParentParts(path);
    var stem := Stem(FileName(path));
    Ok(Join(".", if stem != "__init__" then parents + [stem] else parents))
  }

  /** The stem of `name + ".py"` is `name`, for a name without dots. */
  lemma StemOfPy(name: string)
    requires name != "" && '.' !in name
    ensures Stem(name + ".py") == name
  {
    var f := name + ".py";
    assert f[|name|] == '.' && '.' !in f[|name| + 1..];
    assert '.' !in f[..|name|];
    assert f[..|name|] == name;
    assert LastIndex(f, '.') == Some(|name|);
    assert f[..|name|] == name;
  }

  /** The module of a Python file at `dirs/name.py`: the directories and the
      name joined by dots, or just the directories for `__init__.py`; and
      splitting that name at its dots gives those pieces back. */
  lemma {:induction false} ModuleOfFile(dirs: seq<string>, name: string)
    requires forall i :: 0 <= i < |dirs| ==> Component(dirs[i]) && '.' !in dirs[i]
    requires name != "" && '/' !in name && '.' !in name
    ensures name != "__init__" ==> ModuleName(Join("/", dirs + [name + ".py"])) == Ok(Join(".", dirs + [name]))
    ensures name != "__init__" ==> Split(Join(".", dirs + [name]), '.') == dirs + [name]
    ensures name == "__init__" ==> ModuleName(Join("/", dirs + [name + ".py"])) == Ok(Join(".", dirs))
  {
    var file := name + ".py";
    var parts := dirs + [file];
    assert Component(file) by {
      assert |file| == |name| + 3 && '/' !in ".py";
    }
    assert forall i :: 0 <= i < |parts| ==> Component(parts[i]) by {
      forall i | 0 <= i < |parts| ensures Component(parts[i]) {
        if i < |dirs| { assert parts[i] == dirs[i]; }
      }
    }
    var path := Join("/", parts);
    PathPartsJoin(parts);
    assert !IsAbsolute(path) by {
      JoinFirst("/", parts);
      assert parts[0] != [] && parts[0][0] != '/';
    }
    assert parts[..|parts| - 1] == dirs;
    StemOfPy(name);
    if name != "__init__" {
      SplitJoin(dirs + [name], '.');
    }
  }

  /** A joined list starts like its first item. */
  lemma JoinFirst(sep: string, xs: seq<string>)
    requires |xs| >= 1 && xs[0] != []
    ensures Join(sep, xs) != [] && Join(sep, xs)[0] == xs[0][0]
  {
  }

  // ===========================================================================
  // `outgoing_imports`
  // ===========================================================================

  /** `to_absolute` applied to each name of an import line. Only a relative
      name reads `_parent_parts`, so only a relative name fails on an
      absolute path. */
  function Resolve(names: seq<string>, path: string): (r: Result<seq<string>>)
    ensures r.Err? <==> IsAbsolute(path) && exists i :: 0 <= i < |names| && Relative(names[i])
    ensures r.Ok? ==> |r.value| == |names|
    ensures r.Ok? ==> forall i :: 0 <= i < |names| ==>
      r.value[i] == if Relative(names[i]) then ToAbsolute(names[i], ParentParts(path).value) else names[i]
  {
    if forall i :: 0 <= i < |names| ==> !Relative(names[i]) then Ok(names)
    else
      var parents :- ParentParts(path);
      Ok(seq(|names|, i requires 0 <= i < |names| => ToAbsolute(names[i], parents)))
  }

  /** The names one token line imports: nothing unless it is an import line,
      otherwise its joined text split and resolved. */
  function LineImports(tl: seq<Token>, path: string): (r: Result<seq<string>>)
    ensures (forall n :: !ImportAt(tl, n)) ==> r == Ok([])
    ensures forall n :: ImportAt(tl, n) && SplitImport(JoinTokens(tl[n..])).Err? ==> r.Err?
    ensures forall n :: ImportAt(tl, n) && SplitImport(JoinTokens(tl[n..])).Ok? ==>
      r == Resolve(SplitImport(JoinTokens(tl[n..])).value, path)
  {
    var i := GetImport(tl);
    if i == [] then Ok([])
    else
      var names :- SplitImport(JoinTokens(i));
      Resolve(names, path)
  }

  /** The lines' results concatenated in order; the first failure is the
      result when there is one, as the generators in `outgoing_imports` raise
      at the first failing line. */
  function Gather(rs: seq<Result<seq<string>>>): (r: Result<seq<string>>)
  {
    if rs == [] then Ok([])
    else
      var first :- rs[0];
      var rest :- Gather(rs[1..]);
      Ok(first + rest)
  }

  /** `f` applied to each token line. */
  function Each(lines: seq<seq<Token>>, f: seq<Token> -> Result<seq<string>>): (r: seq<Result<seq<string>>>)
    ensures |r| == |lines| && forall k :: 0 <= k < |lines| ==> r[k] == f(lines[k])
  {
    seq(|lines|, k requires 0 <= k < |lines| => f(lines[k]))
  }

  lemma EachConcat(a: seq<seq<Token>>, b: seq<seq<Token>>, f: seq<Token> -> Result<seq<string>>)
    ensures Each(a + b, f) == Each(a, f) + Each(b, f)
  {
    var l, r := Each(a + b, f), Each(a, f) + Each(b, f);
    forall k | 0 <= k < |l| ensures l[k] == r[k] {
      if k < |a| {
        assert (a + b)[k] == a[k];
      } else {
        assert (a + b)[k] == b[k - |a|];
      }
    }
  }

  /** `LineImports` for the file at `path`. */
  function ImportsOf(path: string): seq<Token> -> Result<seq<string>>
  {
    tl => LineImports(tl, path)
  }

  /** The imported names of all token lines, in order. */
  function Imported(lines: seq<seq<Token>>, path: string): Result<seq<string>>
  {
    Gather(Each(lines, ImportsOf(path)))
  }

  /** `outgoing_imports`: the imported names, absolute and sorted. */
  function OutgoingImports(lines: seq<seq<Token>>, path: string): (r: Result<seq<string>>)
    ensures r.Err? <==> Imported(lines, path).Err?
    ensures r.Ok? ==> Sorted(r.value) && multiset(r.value) == multiset(Imported(lines, path).value)
  {
    var names :- Imported(lines, path);
    Ok(Sort(names))
  }

  lemma {:induction false} GatherOk(rs: seq<Result<seq<string>>>)
    ensures Gather(rs).Ok? <==> forall k :: 0 <= k < |rs| ==> rs[k].Ok?
  {
    if rs != [] {
      GatherOk(rs[1..]);
      assert forall k :: 1 <= k < |rs| ==> rs[k] == rs[1..][k - 1];
    }
  }

  lemma {:induction false} GatherNames(rs: seq<Result<seq<string>>>, x: string)
    requires Gather(rs).Ok?
    ensures forall k :: 0 <= k < |rs| ==> rs[k].Ok?
    ensures x in Gather(rs).value <==> exists k :: 0 <= k < |rs| && x in rs[k].value
  {
    GatherOk(rs);
    if rs != [] {
      GatherNames(rs[1..], x);
      if exists k :: 0 <= k < |rs| && x in rs[k].value {
        var k :| 0 <= k < |rs| && x in rs[k].value;
        if k > 0 {
          assert rs[k] == rs[1..][k - 1];
        }
      }
    }
  }

  lemma {:induction false} GatherSkips(a: seq<Result<seq<string>>>, b: seq<Result<seq<string>>>)
    ensures Gather(a + [Ok([])] + b) == Gather(a + b)
  {
    if a == [] {
      assert Gather(b).Ok? ==> [] + Gather(b).value == Gather(b).value;
      assert a + [Ok([])] + b == [Ok([])] + b;
      assert ([Ok([])] + b)[1..] == b;
      assert a + b == b;
    } else {
      GatherSkips(a[1..], b);
      assert (a + [Ok([])] + b)[1..] == a[1..] + [Ok([])] + b;
      assert (a + b)[1..] == a[1..] + b;
    }
  }

  /** The outgoing imports are found exactly when every line's imports are. */
  lemma ImportedOk(lines: seq<seq<Token>>, path: string)
    ensures Imported(lines, path).Ok? <==> forall k :: 0 <= k < |lines| ==> LineImports(lines[k], path).Ok?
  {
    GatherOk(Each(lines, ImportsOf(path)));
  }

  /** A name is imported exactly when some line imports it. */
  lemma ImportedNames(lines: seq<seq<Token>>, path: string, x: string)
    requires Imported(lines, path).Ok?
    ensures forall k :: 0 <= k < |lines| ==> LineImports(lines[k], path).Ok?
    ensures x in Imported(lines, path).value <==>
      exists k :: 0 <= k < |lines| && LineImports(lines[k], path).Ok? && x in LineImports(lines[k], path).value
  {
    GatherNames(Each(lines, ImportsOf(path)), x);
  }

  /** Lines that are not import lines add nothing. */
  lemma ImportedSkips(a: seq<seq<Token>>, tl: seq<Token>, b: seq<seq<Token>>, path: string)
    requires forall n :: !ImportAt(tl, n)
    ensures Imported(a + [tl] + b, path) == Imported(a + b, path)
  {
    var f := ImportsOf(path);
    assert f(tl) == Ok([]);
    EachConcat(a, [tl], f);
    EachConcat(a + [tl], b, f);
    EachConcat(a, b, f);
    assert Each([tl], f) == [Ok([])];
    GatherSkips(Each(a, f), Each(b, f));
  }

  /** A resolved name is absolute when the name has something after its
      dots and the parent packages are path components that do not start
      with a dot. */
  lemma ResolvedAbsolute(name: string, parents: seq<string>)
    requires LStripChar(name, '.') != ""
    requires forall i :: 0 <= i < |parents| ==> parents[i] != "" && !Relative(parents[i])
    ensures !Relative(ToAbsolute(name, parents))
  {
    if Relative(name) {
      var root := LStripChar(name, '.');
      var kept := Kept(parents, |name| - |root|);
      JoinFirst(".", kept + [root]);
      if kept != [] {
        assert (kept + [root])[0] == parents[0];
      } else {
        assert (kept + [root])[0] == root;
      }
    }
  }
}
