/** The cross-file part of the multi-linter: inverting every module's outgoing
    imports into a table of who imports what, and attaching that table to the
    per-module records before they are written out. */
module MultiLinter {
  import opened Results
  import opened Strings

  /** The values a module record holds: strings, the file's path (a `Path`
      until it is written out), lists of names, the attached incoming-import
      table, and everything else the record carries. */
  datatype Value =
    | Str(s: string)
    | FilePath(p: string)
    | Names(names: seq<string>)
    | Incoming(table: map<string, seq<string>>)
    | Other

  /** One module's record, as `MultiFile.asdict` returns it. */
  type Record = map<string, Value>

  /** `AllFiles.info`: the records in module-name order, keyed by module name. */
  type Info = seq<(string, Record)>

  /** `AllFiles.incoming_imports`: imported root, then imported symbol, then
      the modules importing it. */
  type Imports = map<string, map<string, seq<string>>>

  /** `out in self.info`. */
  function ModuleNames(info: Info): (r: set<string>)
    ensures forall m :: m in r <==> exists i :: 0 <= i < |info| && info[i].0 == m
  {
    set i | 0 <= i < |info| :: info[i].0
  }

  /** `i.get("outgoing_imports", [])`; the multi-file record leaves the field
      out when it is empty. */
  function Outgoing(record: Record): (r: seq<string>)
    ensures "outgoing_imports" !in record ==> r == []
  {
    if "outgoing_imports" in record && record["outgoing_imports"].Names? then record["outgoing_imports"].names else []
  }

  const ModuleSymbol := "(module)"

  /** Where an imported name is filed: a known module, or a name without a
      dot, is filed whole as `(module)`; anything else is split at its last
      dot into the root and the symbol taken from it. */
  function ImportKey(out: string, modules: set<string>): (string, string)
  {
    if out in modules || '.' !in out then (out, ModuleSymbol)
    else
      var i := LastIndex(out, '.').value;
      (out[..i], out[i + 1..])
  }

  /** A name filed under a root and a symbol is that root, a dot and that
      symbol, the symbol holding no dot; a module name or a name without a dot
      is filed whole. */
  lemma ImportKeyParts(out: string, modules: set<string>)
    ensures var r := ImportKey(out, modules);
      out in modules || '.' !in out ==> r == (out, ModuleSymbol)
    ensures var r := ImportKey(out, modules);
      !(out in modules || '.' !in out) ==> r.0 + "." + r.1 == out && '.' !in r.1
  {
    if !(out in modules || '.' !in out) {
      var i := LastIndex(out, '.').value;
      assert out == out[..i] + "." + out[i + 1..];
    }
  }

  // ===========================================================================
  // The specification: a fold over (importer, imported) pairs
  // ===========================================================================

  /** The (importer, imported name) pairs of one record, in list order. */
  function RecordPairs(entry: (string, Record)): (r: seq<(string, string)>)
    ensures |r| == |Outgoing(entry.1)|
    ensures forall k :: 0 <= k < |r| ==> r[k] == (entry.0, Outgoing(entry.1)[k])
  {
    var outs := Outgoing(entry.1);
    seq(|outs|, k requires 0 <= k < |outs| => (entry.0, outs[k]))
  }

  /** All pairs, record by record in info order. */
  function Pairs(info: Info): seq<(string, string)>
  {
    if info == [] then [] else Pairs(info[..|info| - 1]) + RecordPairs(info[|info| - 1])
  }

  /** `imports.setdefault(root, {}).setdefault(symbol, []).append(name)`. */
  function Add(imports: Imports, root: string, symbol: string, name: string): (r: Imports)
    ensures r.Keys == imports.Keys + {root}
    ensures symbol in r[root]
    ensures r[root][symbol] == (if root in imports && symbol in imports[root] then imports[root][symbol] else []) + [name]
    ensures r[root].Keys == (if root in imports then imports[root].Keys else {}) + {symbol}
    ensures forall s :: s in r[root] && s != symbol ==> r[root][s] == imports[root][s]
    ensures forall k :: k in imports && k != root ==> r[k] == imports[k]
  {
    var table := if root in imports then imports[root] else map[];
    var names := if symbol in table then table[symbol] else [];
    imports[root := table[symbol := names + [name]]]
  }

  /** Filing every pair in order. */
  function AddAll(imports: Imports, pairs: seq<(string, string)>, modules: set<string>): Imports
  {
    if pairs == [] then imports
    else
      var p := pairs[|pairs| - 1];
      var key := ImportKey(p.1, modules);
      Add(AddAll(imports, pairs[..|pairs| - 1], modules), key.0, key.1, p.0)
  }

  /** The incoming-import table of a whole project. */
  function Inverted(info: Info): Imports
  {
    AddAll(map[], Pairs(info), ModuleNames(info))
  }

  // ===========================================================================
  // `incoming_imports`
  // ===========================================================================

  /** `AllFiles.incoming_imports`: for each module in turn, each of its
      outgoing imports is filed under its root and symbol. */
  method IncomingImports(info: Info) returns (imports: Imports)
    ensures imports == Inverted(info)
  {
    var modules := ModuleNames(info);
    imports := map[];
    var i := 0;
    while i < |info|
      invariant 0 <= i <= |info|
      invariant imports == AddAll(map[], Pairs(info[..i]), modules)
    {
      var name := info[i].0;
      var outs := Outgoing(info[i].1);
      ghost var done := Pairs(info[..i]);
      ghost var mine := RecordPairs(info[i]);
      assert done + mine[..0] == done;
      var j := 0;
      while j < |outs|
        invariant 0 <= j <= |outs|
        invariant imports == AddAll(map[], done + mine[..j], modules)
      {
        var key := ImportKey(outs[j], modules);
        imports := Add(imports, key.0, key.1, name);
        AddAllStep(done, mine, j, modules);
        j := j + 1;
      }
      assert mine[..j] == mine;
      PairsStep(info, i);
      i := i + 1;
    }
    assert info[..i] == info;
  }

  /** Filing one more pair of the current record. */
  lemma AddAllStep(done: seq<(string, string)>, mine: seq<(string, string)>, j: int, modules: set<string>)
    requires 0 <= j < |mine|
    ensures var key := ImportKey(mine[j].1, modules);
      AddAll(map[], done + mine[..j + 1], modules) == Add(AddAll(map[], done + mine[..j], modules), key.0, key.1, mine[j].0)
  {
    assert done + mine[..j + 1] == (done + mine[..j]) + [mine[j]];
    AddAllSnoc(done + mine[..j], mine[j], modules);
  }

  lemma AddAllSnoc(pairs: seq<(string, string)>, p: (string, string), modules: set<string>)
    ensures var key := ImportKey(p.1, modules);
      AddAll(map[], pairs + [p], modules) == Add(AddAll(map[], pairs, modules), key.0, key.1, p.0)
  {
    assert (pairs + [p])[..|pairs|] == pairs;
  }

  /** The pairs of one more record. */
  lemma PairsStep(info: Info, i: int)
    requires 0 <= i < |info|
    ensures Pairs(info[..i + 1]) == Pairs(info[..i]) + RecordPairs(info[i])
  {
    assert info[..i + 1][..i] == info[..i];
  }

  // ===========================================================================
  // What the table holds
  // ===========================================================================

  /** The importers filed under (`root`, `symbol`), in pair order: an
      independent, flat statement of the table's contents. */
  function Matching(pairs: seq<(string, string)>, modules: set<string>, root: string, symbol: string): seq<string>
  {
    if pairs == [] then []
    else
      var p := pairs[|pairs| - 1];
      Matching(pairs[..|pairs| - 1], modules, root, symbol)
        + (if ImportKey(p.1, modules) == (root, symbol) then [p.0] else [])
  }

  /** A (root, symbol) entry is in the table exactly when some pair is filed
      under it, and it lists exactly those pairs' importers, in order. */
  lemma {:induction false} AddAllLookup(pairs: seq<(string, string)>, modules: set<string>, root: string, symbol: string)
    ensures var m := AddAll(map[], pairs, modules);
      (root in m && symbol in m[root]) <==> Matching(pairs, modules, root, symbol) != []
    ensures var m := AddAll(map[], pairs, modules);
      root in m && symbol in m[root] ==> m[root][symbol] == Matching(pairs, modules, root, symbol)
  {
    if pairs != [] {
      AddAllLookup(pairs[..|pairs| - 1], modules, root, symbol);
    }
  }

  /** The roots the pairs are filed under. */
  function Roots(pairs: seq<(string, string)>, modules: set<string>): set<string>
  {
    if pairs == [] then {}
    else Roots(pairs[..|pairs| - 1], modules) + {ImportKey(pairs[|pairs| - 1].1, modules).0}
  }

  lemma {:induction false} AddAllKeys(pairs: seq<(string, string)>, modules: set<string>)
    ensures AddAll(map[], pairs, modules).Keys == Roots(pairs, modules)
    ensures forall r :: r in AddAll(map[], pairs, modules) ==> AddAll(map[], pairs, modules)[r] != map[]
  {
    if pairs != [] {
      AddAllKeys(pairs[..|pairs| - 1], modules);
    }
  }

  lemma {:induction false} RootsHas(pairs: seq<(string, string)>, modules: set<string>, root: string)
    ensures root in Roots(pairs, modules) <==> exists k :: 0 <= k < |pairs| && ImportKey(pairs[k].1, modules).0 == root
  {
    if pairs != [] {
      var init := pairs[..|pairs| - 1];
      RootsHas(init, modules, root);
      assert forall k :: 0 <= k < |init| ==> init[k] == pairs[k];
    }
  }

  /** A root is in the table exactly when some pair is filed under it, and
      every root holds at least one symbol. */
  lemma AddAllRoots(pairs: seq<(string, string)>, modules: set<string>, root: string)
    ensures var m := AddAll(map[], pairs, modules);
      root in m <==> exists k :: 0 <= k < |pairs| && ImportKey(pairs[k].1, modules).0 == root
    ensures var m := AddAll(map[], pairs, modules);
      root in m ==> m[root] != map[]
  {
    AddAllKeys(pairs, modules);
    RootsHas(pairs, modules, root);
  }

  /** `(name, out)` is a pair exactly when module `name` imports `out`. */
  lemma {:induction false} PairsOf(info: Info, name: string, out: string)
    ensures (name, out) in Pairs(info) <==> exists i :: 0 <= i < |info| && info[i].0 == name && out in Outgoing(info[i].1)
  {
    if info != [] {
      var init, last := info[..|info| - 1], info[|info| - 1];
      PairsOf(init, name, out);
      RecordPairsHas(last, name, out);
      assert forall i :: 0 <= i < |init| ==> init[i] == info[i];
    }
  }

  lemma RecordPairsHas(entry: (string, Record), name: string, out: string)
    ensures (name, out) in RecordPairs(entry) <==> entry.0 == name && out in Outgoing(entry.1)
  {
    var outs := Outgoing(entry.1);
    if entry.0 == name && out in outs {
      var k :| 0 <= k < |outs| && outs[k] == out;
      assert RecordPairs(entry)[k] == (name, out);
    }
  }

  /** So the modules listed under an import are the modules that import it. */
  lemma InvertedLookup(info: Info, root: string, symbol: string)
    ensures var m := Inverted(info);
      (root in m && symbol in m[root]) <==> Matching(Pairs(info), ModuleNames(info), root, symbol) != []
    ensures var m := Inverted(info);
      root in m && symbol in m[root] ==> m[root][symbol] == Matching(Pairs(info), ModuleNames(info), root, symbol)
    ensures var m := Inverted(info);
      root in m ==> m[root] != map[]
  {
    AddAllLookup(Pairs(info), ModuleNames(info), root, symbol);
    AddAllRoots(Pairs(info), ModuleNames(info), root);
  }

  /** Every importer listed is an importer of a matching name. */
  lemma {:induction false} MatchingImporters(pairs: seq<(string, string)>, modules: set<string>, root: string, symbol: string, x: string)
    ensures x in Matching(pairs, modules, root, symbol) <==>
      exists k :: 0 <= k < |pairs| && pairs[k].0 == x && ImportKey(pairs[k].1, modules) == (root, symbol)
  {
    if pairs != [] {
      var init := pairs[..|pairs| - 1];
      MatchingImporters(init, modules, root, symbol, x);
      assert forall k :: 0 <= k < |init| ==> init[k] == pairs[k];
    }
  }

  /** Every module listed as an importer is one of the modules of the info. */
  lemma InvertedImportersKnown(info: Info, root: string, symbol: string, x: string)
    requires root in Inverted(info) && symbol in Inverted(info)[root]
    requires x in Inverted(info)[root][symbol]
    ensures x in ModuleNames(info)
  {
    var pairs := Pairs(info);
    InvertedLookup(info, root, symbol);
    MatchingImporters(pairs, ModuleNames(info), root, symbol, x);
    var k :| 0 <= k < |pairs| && pairs[k].0 == x && ImportKey(pairs[k].1, ModuleNames(info)) == (root, symbol);
    PairsImporters(info, k);
  }

  // ===========================================================================
  // Counting: one entry per (module, outgoing import) occurrence
  // ===========================================================================

  /** The sum of `f` over the values of a map. */
  ghost function SumMap<V>(m: map<string, V>, f: V -> nat): nat
    decreases |m.Keys|
  {
    if m == map[] then 0
    else
      var k :| k in m;
      assert |(m - {k}).Keys| < |m.Keys| by {
        assert (m - {k}).Keys == m.Keys - {k};
      }
      f(m[k]) + SumMap(m - {k}, f)
  }

  /** The sum does not depend on which key is taken out first. */
  lemma {:induction false} SumMapRemove<V>(m: map<string, V>, f: V -> nat, k: string)
    requires k in m
    ensures SumMap(m, f) == f(m[k]) + SumMap(m - {k}, f)
    decreases |m.Keys|
  {
    var j :| j in m && SumMap(m, f) == f(m[j]) + SumMap(m - {j}, f);
    if j != k {
      assert (m - {j}).Keys == m.Keys - {j};
      assert (m - {k}).Keys == m.Keys - {k};
      SumMapRemove(m - {j}, f, k);
      SumMapRemove(m - {k}, f, j);
      assert m - {j} - {k} == m - {k} - {j};
    }
  }

  /** Replacing one value changes the sum by the difference. */
  lemma SumMapUpdate<V>(m: map<string, V>, f: V -> nat, k: string, v: V)
    ensures SumMap(m[k := v], f) == f(v) + SumMap(m - {k}, f)
  {
    SumMapRemove(m[k := v], f, k);
    assert m[k := v] - {k} == m - {k};
  }

  /** A key that is absent adds nothing to take out. */
  lemma SumMapAbsent<V>(m: map<string, V>, f: V -> nat, k: string)
    requires k !in m
    ensures SumMap(m - {k}, f) == SumMap(m, f)
  {
    assert m - {k} == m;
  }

  function ListLength(names: seq<string>): nat {
    |names|
  }

  /** The number of importers a symbol table lists. */
  ghost function TableSize(table: map<string, seq<string>>): nat {
    SumMap(table, ListLength)
  }

  /** The number of importers the whole incoming-import table lists. */
  ghost function Entries(imports: Imports): nat {
    SumMap(imports, TableSize)
  }

  /** Filing one pair lists exactly one more importer. */
  lemma AddCounts(imports: Imports, root: string, symbol: string, name: string)
    ensures Entries(Add(imports, root, symbol, name)) == Entries(imports) + 1
  {
    var table := if root in imports then imports[root] else map[];
    var names := if symbol in table then table[symbol] else [];
    assert Add(imports, root, symbol, name) == imports[root := table[symbol := names + [name]]];
    SumMapUpdate(table, ListLength, symbol, names + [name]);
    if symbol in table {
      SumMapRemove(table, ListLength, symbol);
    } else {
      SumMapAbsent(table, ListLength, symbol);
    }
    assert TableSize(table[symbol := names + [name]]) == TableSize(table) + 1;
    SumMapUpdate(imports, TableSize, root, table[symbol := names + [name]]);
    if root in imports {
      SumMapRemove(imports, TableSize, root);
    } else {
      SumMapAbsent(imports, TableSize, root);
      assert TableSize(table) == 0;
    }
  }

  lemma {:induction false} AddAllCounts(pairs: seq<(string, string)>, modules: set<string>)
    ensures Entries(AddAll(map[], pairs, modules)) == |pairs|
  {
    if pairs != [] {
      var p := pairs[|pairs| - 1];
      var key := ImportKey(p.1, modules);
      AddAllCounts(pairs[..|pairs| - 1], modules);
      AddCounts(AddAll(map[], pairs[..|pairs| - 1], modules), key.0, key.1, p.0);
    }
  }

  /** The total number of outgoing imports of all modules. */
  function TotalOutgoing(info: Info): nat {
    if info == [] then 0 else TotalOutgoing(info[..|info| - 1]) + |Outgoing(info[|info| - 1].1)|
  }

  lemma {:induction false} PairsCount(info: Info)
    ensures |Pairs(info)| == TotalOutgoing(info)
  {
    if info != [] {
      PairsCount(info[..|info| - 1]);
    }
  }

  /** Each outgoing import of each module lists that module exactly once, so
      the table holds as many entries as there are outgoing imports in all,
      duplicates included. */
  lemma InvertedCounts(info: Info)
    ensures Entries(Inverted(info)) == TotalOutgoing(info)
  {
    AddAllCounts(Pairs(info), ModuleNames(info));
    PairsCount(info);
  }

  // ===========================================================================
  // Order: the info is sorted by module name, so every list of importers is
  // ===========================================================================

  predicate NamesSorted(info: Info) {
    forall i, j :: 0 <= i < j < |info| ==> Below(info[i].0, info[j].0)
  }

  predicate ImportersSorted(pairs: seq<(string, string)>) {
    forall i, j :: 0 <= i < j < |pairs| ==> Below(pairs[i].0, pairs[j].0)
  }

  lemma {:induction false} PairsImporters(info: Info, k: int)
    requires 0 <= k < |Pairs(info)|
    ensures exists i :: 0 <= i < |info| && info[i].0 == Pairs(info)[k].0
  {
    var init := info[..|info| - 1];
    if k < |Pairs(init)| {
      PairsImporters(init, k);
      var i :| 0 <= i < |init| && init[i].0 == Pairs(init)[k].0;
      assert info[i] == init[i];
    } else {
      assert Pairs(info)[k] == RecordPairs(info[|info| - 1])[k - |Pairs(init)|];
    }
  }

  lemma {:induction false} PairsSorted(info: Info)
    requires NamesSorted(info)
    ensures ImportersSorted(Pairs(info))
  {
    if info != [] {
      var init := info[..|info| - 1];
      var last := info[|info| - 1];
      var ps, rs := Pairs(init), RecordPairs(last);
      assert NamesSorted(init) by {
        assert forall i :: 0 <= i < |init| ==> init[i] == info[i];
      }
      PairsSorted(init);
      var all: seq<(string, string)> := ps + rs;
      assert all == Pairs(info);
      forall a, b | 0 <= a < b < |all| ensures Below(all[a].0, all[b].0) {
        if b >= |ps| {
          assert all[b].0 == last.0;
          if a >= |ps| {
            BelowReflexive(last.0);
          } else {
            PairsImporters(init, a);
            var i :| 0 <= i < |init| && init[i].0 == ps[a].0;
            assert info[i] == init[i];
          }
        }
      }
    }
  }

  lemma {:induction false} MatchingSorted(pairs: seq<(string, string)>, modules: set<string>, root: string, symbol: string)
    requires ImportersSorted(pairs)
    ensures Sorted(Matching(pairs, modules, root, symbol))
  {
    if pairs != [] {
      var init := pairs[..|pairs| - 1];
      var p := pairs[|pairs| - 1];
      var m := Matching(init, modules, root, symbol);
      MatchingSorted(init, modules, root, symbol);
      if ImportKey(p.1, modules) == (root, symbol) {
        forall a | 0 <= a < |m| ensures Below(m[a], p.0) {
          MatchingImporters(init, modules, root, symbol, m[a]);
          var k :| 0 <= k < |init| && init[k].0 == m[a] && ImportKey(init[k].1, modules) == (root, symbol);
          assert pairs[k] == init[k];
        }
      }
    }
  }

  /** With the records in module-name order, as `AllFiles.info` sorts them,
      every list of importers is in module-name order too. */
  lemma InvertedSorted(info: Info, root: string, symbol: string)
    requires NamesSorted(info)
    requires root in Inverted(info) && symbol in Inverted(info)[root]
    ensures Sorted(Inverted(info)[root][symbol])
  {
    PairsSorted(info);
    InvertedLookup(info, root, symbol);
    MatchingSorted(Pairs(info), ModuleNames(info), root, symbol);
  }

  // ===========================================================================
  // `asdict`: attaching the table to each record
  // ===========================================================================

  /** `str(d["path"])`: a path becomes its text; a string stays as it is. */
  function PathText(v: Value): (r: Value)
    ensures v.FilePath? ==> r == Str(v.p)
    ensures v.Str? ==> r == v
  {
    match v
    case FilePath(p) => Str(p)
    case Str(_) => v
    case _ => Other
  }

  /** Whether `self.incoming_imports.get(file)` is truthy: present and not
      an empty table. */
  predicate HasIncoming(file: string, imports: Imports) {
    file in imports && imports[file] != map[]
  }

  /** The record after the inner `asdict(file, d)`: the module's incoming
      table is added when it has one, then the path is written out as text.
      A record without a path keeps the table the helper added before it
      failed. */
  function Attached(d: Record, file: string, imports: Imports): Record
  {
    var withIncoming := if HasIncoming(file, imports) then d["incoming_imports" := Incoming(imports[file])] else d;
    if "path" in withIncoming then withIncoming["path" := PathText(withIncoming["path"])] else withIncoming
  }

  /** The attached record has the same fields, plus `incoming_imports` when
      the module has incoming imports; the table is the module's, the path is
      text, and every other field is unchanged. */
  lemma AttachedFields(d: Record, file: string, imports: Imports)
    ensures var r := Attached(d, file, imports);
      r.Keys == d.Keys + (if HasIncoming(file, imports) then {"incoming_imports"} else {})
    ensures var r := Attached(d, file, imports);
      HasIncoming(file, imports) ==> r["incoming_imports"] == Incoming(imports[file])
    ensures var r := Attached(d, file, imports);
      "path" in d ==> r["path"] == PathText(d["path"])
    ensures var r := Attached(d, file, imports);
      forall k :: k in d && k != "path" && k != "incoming_imports" ==> r[k] == d[k]
    ensures var r := Attached(d, file, imports);
      !HasIncoming(file, imports) && "incoming_imports" in d ==> r["incoming_imports"] == d["incoming_imports"]
  {
  }

  /** A module's record gains an incoming table exactly when some module
      imports it, or imports a symbol from it. */
  lemma AttachedIncoming(info: Info, k: int)
    requires 0 <= k < |info| && "incoming_imports" !in info[k].1
    ensures var name := info[k].0;
      "incoming_imports" in Attached(info[k].1, name, Inverted(info)) <==>
      exists n :: 0 <= n < |Pairs(info)| && ImportKey(Pairs(info)[n].1, ModuleNames(info)).0 == name
  {
    AttachedFields(info[k].1, info[k].0, Inverted(info));
    InvertedHas(info, info[k].0);
  }

  lemma InvertedHas(info: Info, name: string)
    ensures HasIncoming(name, Inverted(info)) <==>
      exists n :: 0 <= n < |Pairs(info)| && ImportKey(Pairs(info)[n].1, ModuleNames(info)).0 == name
  {
    var pairs, modules := Pairs(info), ModuleNames(info);
    var m := AddAll(map[], pairs, modules);
    assert Inverted(info) == m;
    AddAllRoots(pairs, modules, name);
    if HasIncoming(name, m) {
      var k :| 0 <= k < |pairs| && ImportKey(pairs[k].1, modules).0 == name;
      assert 0 <= k < |Pairs(info)| && ImportKey(Pairs(info)[k].1, ModuleNames(info)).0 == name;
    }
    if exists n :: 0 <= n < |Pairs(info)| && ImportKey(Pairs(info)[n].1, ModuleNames(info)).0 == name {
      var n :| 0 <= n < |Pairs(info)| && ImportKey(Pairs(info)[n].1, ModuleNames(info)).0 == name;
      assert 0 <= n < |pairs| && ImportKey(pairs[n].1, modules).0 == name;
      assert HasIncoming(name, m);
    }
  }

  /** One module's record, a dictionary the helper updates in place. The
      records are the very dictionaries `AllFiles.info` holds, so the update
      is seen through the cached info too. */
  class ModuleRecord {
    var fields: Record

    constructor (fields: Record)
      ensures this.fields == fields
    {
      this.fields := fields;
    }

    /** The inner `asdict(file, d)`; `ok` is false where `d["path"]` raises
      `KeyError`. */
    method Attach(file: string, imports: Imports) returns (ok: bool)
      modifies this
      ensures ok <==> "path" in old(fields)
      ensures fields == Attached(old(fields), file, imports)
    {
      if file in imports && imports[file] != map[] {
        fields := fields["incoming_imports" := Incoming(imports[file])];
      }
      if "path" !in fields {
        return false;
      }
      fields := fields["path" := PathText(fields["path"])];
      return true;
    }
  }

  /** `{k: asdict(k, v) for k, v in self.info.items()}`: every record is
      updated in turn; at the first record without a path the comprehension
      raises, leaving the records before it updated, that record with its
      table only, and the records after it untouched; `stop` is where it
      raised. */
  method AsDict(modules: seq<(string, ModuleRecord)>, imports: Imports) returns (ok: bool, ghost stop: nat)
    requires forall i, j :: 0 <= i < j < |modules| ==> modules[i].1 != modules[j].1
    modifies set i | 0 <= i < |modules| :: modules[i].1
    ensures ok <==> forall i :: 0 <= i < |modules| ==> "path" in old(modules[i].1.fields)
    ensures ok ==> forall i :: 0 <= i < |modules| ==>
      modules[i].1.fields == Attached(old(modules[i].1.fields), modules[i].0, imports)
    ensures !ok ==> stop < |modules| && "path" !in old(modules[stop].1.fields)
    ensures !ok ==> forall i :: 0 <= i < stop ==> "path" in old(modules[i].1.fields)
    ensures !ok ==> forall i :: 0 <= i <= stop < |modules| ==>
      modules[i].1.fields == Attached(old(modules[i].1.fields), modules[i].0, imports)
    ensures !ok ==> forall i :: stop < i < |modules| ==> modules[i].1.fields == old(modules[i].1.fields)
  {
    var i := 0;
    while i < |modules|
      invariant 0 <= i <= |modules|
      invariant forall k :: 0 <= k < i ==> "path" in old(modules[k].1.fields)
      invariant forall k :: 0 <= k < i ==> modules[k].1.fields == Attached(old(modules[k].1.fields), modules[k].0, imports)
      invariant forall k :: i <= k < |modules| ==> modules[k].1.fields == old(modules[k].1.fields)
    {
      var attached := modules[i].1.Attach(modules[i].0, imports);
      if !attached {
        return false, i;
      }
      i := i + 1;
    }
    return true, i;
  }
}
