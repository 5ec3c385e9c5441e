# Multi-linter core: scope metrics, import parsing, incoming-import index

This project is a Dafny model of three sequential pieces of PyTorch's
multi-linter (`tools/linter/adapters`). Each piece works on in-memory token
lists and strings.

- **Per-scope token metrics** (`python_info.dfy`, module `PythonInfo`):
  - `Ignores` counts the codes of `# mypy: `, `# noqa: ` and
    `# type: ignore[` suppression comments. `apply_line` adds a line's codes
    and `update` adds another counter set pointwise.
  - `ScopeInfo.apply_token` folds one token into a scope's counters.
  - `FileInfo.make` walks each block's token range with the cursor-and-stack
    loop `fill`. It skips pending child blocks and applies the other tokens.
  - `asdict` serialises the result and drops default values.

  `Ignores`, `ScopeInfo` and `FileInfo` are classes whose methods update
  their fields in place. Each method is proved equal to a pure function on
  the corresponding value type: `IgnoreCounts`, `Stats` or `FileStats`. The
  counted properties are lemmas about those functions. A Python `Counter`
  is only ever incremented here, so it is a `multiset<string>`.
- **Import-line parsing and resolution** (`split_import.dfy`,
  `import_forms.dfy` and `multi_file.dfy`; modules `SplitImports`,
  `ImportForms` and `MultiFile`):
  - `_split_import` parses one import line.
  - `outgoing_imports` selects import lines (`get_import`), normalises them
    (`_join_tokens`) and resolves relative names (`to_absolute`).
  - `module_name` and `_parent_parts` map a path to a dotted name.

  These are pure functions. Python's string methods (`partition`, `split`,
  `strip`, `lstrip`, `join`, `sorted`) are written out in `strings.dfy`
  (module `Strings`).
- **Incoming-import inversion** (`multi_linter.dfy`, module `MultiLinter`):
  - `AllFiles.incoming_imports` files every module's outgoing imports under
    a root and a symbol.
  - `AllFiles.asdict` attaches that table to each module record.

  The method is proved equal to a fold over (importer, import) pairs. The
  fold's contents, size and order are then stated as lemmas.

`results.dfy` holds `Option` and `Result`. An `Err` stands for a failed
`assert`, or for an exception the linter lets escape. `tokens.dfy` holds
the token type that the tokenizer (not part of this model) delivers.

### Behaviour of the code that the model keeps

Some of what the scope engine does is easy to misread. The model does
exactly what the code does:

- `fill` never merges a child's statistics into its parent.
- `fill` never increments `block_count`.
- After skipping a child, the cursor moves to the child's dedent token, not
  one past it. That dedent token is then also applied to the parent, unless
  another pending child starts there (`DedentAppliedTwice`).
- The whole-file scope is filled over `[0, N)`, where `N` is the number of
  blocks, not the number of tokens. Its pending list is every block
  `0 .. N-1`, not only the top-level ones (`TopStats`,
  `TopSeesOnlyFirstTokens`).
- Every token, including INDENT, DEDENT and NEWLINE, adds to `token_count`
  and to one `op_count` entry.
- A relative import with more leading dots than the path has parent
  packages does not fail. It keeps no parent at all (`TooDeep`).
- `FileInfo.asdict` keeps `blocks` whenever the file has a block, even if
  every block's dict is empty. `line_start` is also dropped when it is `0`,
  because falsy values are pruned.

## Model

| member | source | states |
|---|---|---|
| PythonInfo.Codes | tools/linter/adapters/_linter/python_info.py:47-48 | the codes after a marker are never empty: either exactly the placeholder `(None)`, or trimmed non-empty codes that contain no `,` or `]` (the codes themselves are given by `CodesOfPieces`) |
| PythonInfo.MarkerCodes | tools/linter/adapters/_linter/python_info.py:44-47 | a line contributes no codes under a marker exactly when the marker does not occur in it |
| PythonInfo.CodesOfList | tools/linter/adapters/_linter/python_info.py:47-48 | codes listed with `, ` before a `]` are read back exactly, in order |
| PythonInfo.CodesOfPieces | tools/linter/adapters/_linter/python_info.py:47-48 | for any comma-separated list before `]`, spaced in any way: if some piece is non-blank, the codes are the stripped non-blank pieces in order; if every piece is blank, the result is the placeholder `(None)` |
| PythonInfo.CodesOfUnclosedPieces | tools/linter/adapters/_linter/python_info.py:47-48 | the same for a list with no `]` after it, where the whole rest of the line is the list |
| PythonInfo.NonBlankEmpty | tools/linter/adapters/_linter/python_info.py:48 | no piece is kept exactly when every piece strips to nothing |
| PythonInfo.NonBlankHas | tools/linter/adapters/_linter/python_info.py:48 | a code is kept exactly when it is non-empty and is the stripped form of some piece |
| PythonInfo.NoqaComment | tools/linter/adapters/_linter/python_info.py:42-50 | `# noqa: ` followed by a comma list (for example `E501,F401`) with some non-blank piece adds exactly the stripped non-blank codes to the `noqa` counter |
| PythonInfo.TypeIgnoreComment | tools/linter/adapters/_linter/python_info.py:14-18 | `# type: ignore[a, b]...` adds exactly the listed codes, once each, to the `type` counter |
| PythonInfo.EmptyTypeIgnoreComment | tools/linter/adapters/_linter/python_info.py:20-21 | `# type: ignore[]` adds the placeholder `(None)` once to the `type` counter |
| PythonInfo.Ignores.Update | tools/linter/adapters/_linter/python_info.py:37-40 | each of the three counters becomes the pointwise sum of the old counter and the other's |
| PythonInfo.Ignores.ApplyLine | tools/linter/adapters/_linter/python_info.py:42-50 | each counter grows by exactly the codes its marker contributes; a counter whose marker is absent is unchanged |
| PythonInfo.ScopeInfo.ApplyToken | tools/linter/adapters/_linter/python_info.py:86-102 | the new scope value is the old one with one token applied: the token count grows by one; `line_start` is set only when it is -1; `line_count` runs to the token's end line; one `op_count` entry is added; a keyword or a comment is counted |
| PythonInfo.ApplyAllCounts | tools/linter/adapters/_linter/python_info.py:87-95 | after any run of applied tokens, `token_count` has grown by the number of tokens and `op_count` by exactly one type name per token, so the two grow in step |
| PythonInfo.ApplyAllKeywordsAndComments | tools/linter/adapters/_linter/python_info.py:97-102 | `keyword_count` grows only by the texts of keyword NAME tokens; `comment_total_length` grows only by the lengths after `#` of COMMENT tokens |
| PythonInfo.ApplyAllLines | tools/linter/adapters/_linter/python_info.py:89-92 | `line_start` comes from the first token applied to an unstarted scope; `line_count` runs from there to the end line of the last token |
| PythonInfo.Trace | tools/linter/adapters/_linter/python_info.py:132-138 | the walk terminates (pending children, then distance to `end`) and applies only positions below `end` |
| PythonInfo.TraceWithoutKids | tools/linter/adapters/_linter/python_info.py:132-138 | with no children pending, every position of `[begin, end)` is applied exactly once, in increasing order |
| PythonInfo.TraceSkipsKid | tools/linter/adapters/_linter/python_info.py:133-135 | with a pending child starting inside the range, the positions before it are applied, then the walk resumes at the child's dedent position with the child popped |
| PythonInfo.DedentAppliedTwice | tools/linter/adapters/_linter/python_info.py:134 | the dedent token of a childless only child is applied both to the child and to its parent |
| PythonInfo.Fill | tools/linter/adapters/_linter/python_info.py:128-138 | the scope ends up with `children` equal to the given list and exactly the tokens of `Trace` applied, in order |
| PythonInfo.FileInfo.FillBlocks | tools/linter/adapters/_linter/python_info.py:142-144 | walking the blocks last to first, every block's scope is filled over `[begin, dedent + 1)` with its children and then given its name |
| PythonInfo.FileInfo.FillTop | tools/linter/adapters/_linter/python_info.py:146-148 | the whole-file scope is filled over `[0, N)` with the pending list `range(N)`, then named `(module)` and its children cleared |
| PythonInfo.FileInfo.Make | tools/linter/adapters/_linter/python_info.py:126-149 | returns one scope per block plus the whole-file scope, each equal to the pure function `MakeSpec` |
| PythonInfo.MakeKeepsStructure | tools/linter/adapters/_linter/python_info.py:140-149 | `make` returns exactly `len(blocks)` block scopes, each with its block's name and children and a zero block count; the whole-file scope is named `(module)` and has no children |
| PythonInfo.MakeOpCountsMatchTokens | tools/linter/adapters/_linter/python_info.py:87-95 | in every scope `make` builds, the total of `op_count` equals `token_count` |
| PythonInfo.LeafBlockCounts | tools/linter/adapters/_linter/python_info.py:143 | a block without children counts every token from its first through its dedent token |
| PythonInfo.TopSeesOnlyFirstTokens | tools/linter/adapters/_linter/python_info.py:140-146 | the whole-file scope depends only on the first `N` tokens, where `N` is the number of blocks |
| PythonInfo.SourceOrderFits | tools/linter/adapters/_linter/python_info.py:140-146 | blocks that start at strictly increasing token positions are no more numerous than the tokens, so the range `[0, N)` exists |
| PythonInfo.IgnoresAsDict | tools/linter/adapters/_linter/python_info.py:162-163 | the serialised `Ignores` is empty exactly when all three counters are empty |
| PythonInfo.ShownIff | tools/linter/adapters/_linter/python_info.py:109-111 | a field is kept exactly when it differs from its default and is not falsy (so `line_start` is dropped at -1 and at 0) |
| PythonInfo.ScopeAsDict | tools/linter/adapters/_linter/python_info.py:109-111 | the serialised scope holds exactly the fields that are not in `omit` and not default-valued, each with its pruned value |
| PythonInfo.FileAsDict | tools/linter/adapters/_linter/python_info.py:119-124 | the serialised file has `top` exactly when the top dict is non-empty, `blocks` exactly when there is a block, and nothing else |
| PythonInfo.EmptyScopeSerialisesEmpty | tools/linter/adapters/_linter/python_info.py:109-111 | a fresh `ScopeInfo` serialises to `{}` |
| PythonInfo.EmptyFileSerialisesEmpty | tools/linter/adapters/_linter/python_info.py:119-124 | a fresh `FileInfo` serialises to `{}` |
| SplitImports.Code | tools/linter/adapters/_linter/multi_file.py:96 | the text kept holds no `#`, and is the whole line when the line has none |
| SplitImports.SplitImport | tools/linter/adapters/_linter/multi_file.py:88-114 | a line with `*` in its code gives `[]`; otherwise it fails exactly when its clauses cannot be read; every name produced is non-empty (the names themselves are stated by `FromFormPieces`, `PlainFormPieces` and `ParenthesisedFromLine`) |
| SplitImports.ImportClausesFrom | tools/linter/adapters/_linter/multi_file.py:100-105 | a line `from m import rest` or `from . m import rest` yields source `m` or `.m` and symbols `rest`; any other word list before ` import ` is rejected |
| SplitImports.ImportClausesPlain | tools/linter/adapters/_linter/multi_file.py:106-108 | a line `import rest` without a later ` import ` yields an empty source and symbols `rest` |
| SplitImports.SplitImportDropsComment | tools/linter/adapters/_linter/multi_file.py:96 | text after the first `#` has no effect on the result |
| SplitImports.SymbolNamesListed | tools/linter/adapters/_linter/multi_file.py:111-113 | a names clause `a, b as c, ...` names the first word of each entry, in order |
| SplitImports.UnparenJoin | tools/linter/adapters/_linter/multi_file.py:111 | turning parentheses into spaces changes no comma, so the comma-separated pieces stay where they were |
| SplitImports.FirstWordsLStrip | tools/linter/adapters/_linter/multi_file.py:111-113 | whitespace stripped from the front of the clause changes no name |
| SplitImports.FirstWordsRStrip | tools/linter/adapters/_linter/multi_file.py:111-113 | whitespace stripped from the end of the clause changes no name |
| SplitImports.SymbolNamesUnstripped | tools/linter/adapters/_linter/multi_file.py:111-113 | the names are the first words of the comma-separated pieces once parentheses are spaces; the `strip()` plays no part |
| SplitImports.SymbolNamesOfPieces | tools/linter/adapters/_linter/multi_file.py:111-113 | for any comma-free pieces in any spacing and with any parentheses (`( a, b, )`, `a,b`), the names are the first words of the pieces with parentheses turned into spaces; blank pieces give none |
| SplitImports.FirstWordsHas | tools/linter/adapters/_linter/multi_file.py:113 | a name is produced exactly when it is the first word of some piece |
| SplitImports.FirstWordsCount | tools/linter/adapters/_linter/multi_file.py:113 | there are exactly as many names as pieces that have a word |
| SplitImports.FirstWordsAppend | tools/linter/adapters/_linter/multi_file.py:113-114 | the names of consecutive runs of pieces come out in the order of the pieces |
| SplitImports.FromFormPieces | tools/linter/adapters/_linter/multi_file.py:100-114 | `from m import <comma-free pieces joined by ",">`, in any spacing, gives the source plus its dot plus the first word of each non-blank piece, parentheses ignored; any other word list before ` import ` is rejected |
| SplitImports.PlainFormPieces | tools/linter/adapters/_linter/multi_file.py:106-114 | `import <comma-free pieces joined by ",">` gives the first word of each non-blank piece, parentheses ignored, with no prefix |
| ImportForms.ParenthesisedFromLine | tools/linter/adapters/_linter/multi_file.py:100-114 | the joined multi-line form `from m import ( a, b, )` gives `[m.a, m.b]` |
| SplitImports.FromFormLine | tools/linter/adapters/_linter/multi_file.py:100-114 | `from m import a, b` and `from . m import ...` give the source plus `.` (unless it ends in `.`) plus each first word; a source starting with another word, or of more words, is rejected |
| SplitImports.PlainFormLine | tools/linter/adapters/_linter/multi_file.py:106-114 | `import a, b as c` gives the first word of each entry, with no prefix |
| SplitImports.NoImportRejected | tools/linter/adapters/_linter/multi_file.py:106-108 | a non-empty line in which `import ` does not occur is rejected |
| SplitImports.QualifiedNoSource | tools/linter/adapters/_linter/multi_file.py:112-114 | with an empty source the names are kept as they are, with no dot |
| ImportForms.ImportName | tools/linter/adapters/_linter/multi_file.py:106-114 | `import m` gives `[m]`, dotted or not |
| ImportForms.FromImportName | tools/linter/adapters/_linter/multi_file.py:100-114 | `from m import x` gives `[m.x]`, and `from . import x` gives `[.x]` |
| ImportForms.RelativeSpellings | tools/linter/adapters/_linter/multi_file.py:104-105 | `from . m import ...` and `from .m import ...` give the same names `.m.a`, `.m.b`, ... |
| ImportForms.AliasedImport | tools/linter/adapters/_linter/multi_file.py:96-114 | `import m as a`, with or without a trailing comment, gives `[m]` |
| ImportForms.ImportMathVector | tools/test/test_multi_linter.py:23 | `import math` gives `["math"]` |
| ImportForms.ImportMathSqrtVector | tools/test/test_multi_linter.py:24 | `import math.sqrt` gives `["math.sqrt"]` |
| MultiFile.Kept | tools/linter/adapters/_linter/multi_file.py:52-53 | `d` leading dots keep the first `len(parents) - (d - 1)` parent parts, or none when `d - 1` exceeds the parents |
| MultiFile.ToAbsolute | tools/linter/adapters/_linter/multi_file.py:47-54 | a name without a leading dot is returned unchanged |
| MultiFile.RelativeName | tools/linter/adapters/_linter/multi_file.py:50-54 | a name with `d` leading dots is the kept parents and the dot-stripped rest, joined by `.` |
| MultiFile.OneDot | tools/linter/adapters/_linter/multi_file.py:52-54 | one leading dot resolves against all the parent packages |
| MultiFile.ClimbOne | tools/linter/adapters/_linter/multi_file.py:52-53 | one more dot with one more parent package resolves to the same name |
| MultiFile.TooDeep | tools/linter/adapters/_linter/multi_file.py:52-54 | with more dots than parent packages, the result is just the dot-stripped rest; no error is raised |
| MultiFile.ResolvedAbsolute | tools/linter/adapters/_linter/multi_file.py:47-54 | a resolved name does not start with a dot when something follows the dots and the parents are proper names |
| MultiFile.GetImport | tools/linter/adapters/_linter/multi_file.py:56-63 | after any INDENT tokens, a line is kept from its `from`/`import` NAME token on; any other line gives nothing |
| MultiFile.LineTableKeys | tools/linter/adapters/_linter/multi_file.py:84 | the line table has an entry for exactly the lines some token starts on |
| MultiFile.LineTableValues | tools/linter/adapters/_linter/multi_file.py:84 | each entry holds the physical line of the last token that starts on that line |
| MultiFile.Normalize | tools/linter/adapters/_linter/multi_file.py:85 | the result has no whitespace at either end, has the same words as the input, and is its words separated by single spaces |
| MultiFile.NormalizeIdempotent | tools/linter/adapters/_linter/multi_file.py:85 | normalising twice is normalising once |
| MultiFile.JoinTokensWords | tools/linter/adapters/_linter/multi_file.py:82-85 | the joined line is the words of the table's lines, in table order, separated by single spaces, and trimmed |
| MultiFile.ParentParts | tools/linter/adapters/_linter/multi_file.py:76-79 | fails exactly for an absolute path; otherwise the directory names, outermost first, with the file name after them making up the path's components |
| MultiFile.ModuleName | tools/linter/adapters/_linter/multi_file.py:28-33 | fails exactly for an absolute path |
| MultiFile.ModuleOfFile | tools/linter/adapters/_linter/multi_file.py:28-33 | `dirs/name.py` is named `dirs` joined by `.` plus `.name`, or just the directories for `__init__.py`; splitting the name at its dots gives the pieces back |
| MultiFile.Resolve | tools/linter/adapters/_linter/multi_file.py:47-79 | each name is resolved in place; only a relative name on an absolute path fails |
| MultiFile.LineImports | tools/linter/adapters/_linter/multi_file.py:65-67 | a non-import line gives no names; an import line whose split fails makes the whole result fail; otherwise the result is the resolution of the names split from the joined import tokens |
| MultiFile.OutgoingImports | tools/linter/adapters/_linter/multi_file.py:65-67 | the result is sorted and is a permutation of the resolved names of all lines, duplicates kept; it fails exactly when some line fails |
| MultiFile.ImportedOk | tools/linter/adapters/_linter/multi_file.py:65-67 | the imports are found exactly when every line's imports are |
| MultiFile.ImportedNames | tools/linter/adapters/_linter/multi_file.py:65-67 | a name is imported exactly when some line imports it |
| MultiFile.ImportedSkips | tools/linter/adapters/_linter/multi_file.py:56-65 | lines that are not import lines contribute nothing |
| MultiLinter.Outgoing | tools/linter/adapters/multi_linter.py:98 | a record without `outgoing_imports` contributes no imports |
| MultiLinter.ImportKeyParts | tools/linter/adapters/multi_linter.py:99-102 | a known module, or a name without a dot, is filed whole under `(module)`; any other name is its root, `.` and a dot-free symbol, split at its last dot |
| MultiLinter.Add | tools/linter/adapters/multi_linter.py:103 | exactly one importer is appended to the (root, symbol) list, which is created when missing; every other entry is unchanged |
| MultiLinter.IncomingImports | tools/linter/adapters/multi_linter.py:93-105 | the nested loops build exactly the fold of all (module, outgoing import) pairs, in info order |
| MultiLinter.InvertedLookup | tools/linter/adapters/multi_linter.py:97-103 | a (root, symbol) entry exists exactly when some pair is filed under it; it lists exactly those pairs' importers, in order; no root has an empty table |
| MultiLinter.MatchingImporters | tools/linter/adapters/multi_linter.py:97-103 | a module is listed under (root, symbol) exactly when one of its outgoing imports is filed there |
| MultiLinter.InvertedImportersKnown | tools/linter/adapters/multi_linter.py:97-103 | every module listed as an importer is a key of the info |
| MultiLinter.InvertedCounts | tools/linter/adapters/multi_linter.py:97-103 | the table holds as many entries as all modules have outgoing imports in total, duplicates kept |
| MultiLinter.PairsSorted | tools/linter/adapters/multi_linter.py:90-97 | with the info in module-name order, the importers of all pairs come in that order |
| MultiLinter.InvertedSorted | tools/linter/adapters/multi_linter.py:90-103 | every list of importers is sorted by module name |
| MultiLinter.PathText | tools/linter/adapters/multi_linter.py:61 | a path becomes its text and a string is unchanged |
| MultiLinter.AttachedFields | tools/linter/adapters/multi_linter.py:58-62 | the record gains `incoming_imports` exactly when the module has a non-empty table, holding that table; the path becomes text; every other field is unchanged |
| MultiLinter.AttachedIncoming | tools/linter/adapters/multi_linter.py:58-103 | a module's record gains `incoming_imports` exactly when some import is filed under that module's name |
| MultiLinter.ModuleRecord.Attach | tools/linter/adapters/multi_linter.py:58-62 | the record is updated in place to the attached record; it fails exactly when it has no `path` |
| MultiLinter.AsDict | tools/linter/adapters/multi_linter.py:64 | it succeeds exactly when every record has a path, and then every record is attached; otherwise it stops at the first record without a path, after attaching it and the records before it, and leaves the later records untouched |

## Left out

- Tokenisation and block discovery (`PythonFile`, `token_lines`, `tokens`, `blocks`): these are inputs. Tokens carry their kind, text, start and end line and physical line. Blocks carry begin, dedent, children and display name.
- PythonInfo.OpName: the `op_count` key of any token type other than NAME, COMMENT and INDENT comes from a table parameter. This stands in for `INVERSE_TOKEN_TYPES` and `token.tok_name`. `keyword.iskeyword` is also a parameter.
- PythonInfo.Fill: requires `end` to be within the tokens and every child index to name a block. The source would raise `IndexError` in those cases. Block discovery guarantees both (see `SourceOrderFits`).
- PythonInfo.FileInfo.Make: requires at least as many tokens as blocks, because of the `[0, N)` whole-file range. `SourceOrderFits` shows that blocks in source order always satisfy this.
- `ScopeInfo.update`: `make` never calls it. It also walks `vars(other)`, which includes `display_name` (a string) and `children` (a list). Both reach the `.items()` branch, so as written it cannot complete on a real `ScopeInfo`.
- `_asdata`'s handling of arbitrary types and its `TypeError` fallback are left out. `dataclasses.asdict`, `MultiFile.asdict` and `_property_fields` (the discovery of cached properties) are left out too. The serialisation model uses a fixed field list instead.
- `cached_property` and `@cache` memoisation: each memoised property is a function of the token lines and the path.
- PythonInfo.ScopeAsDict: dict key order (insertion order) is not modelled. Dicts are maps, and a `Counter` is a multiset.
- MultiLinter.IncomingImports: the insertion order of the outer and inner dict keys is not modelled, because they are maps. The order of each importer list is modelled.
- MultiLinter.PathText: `str()` of a value that is neither a path nor a string is not modelled. Such a value becomes the opaque `Other`; only the path and string cases are stated. The `path` field is always one of those two.
- `Info` is a sequence of (module name, record) pairs and may repeat a module name. `AllFiles.info` would raise `TypeError` on a repeat (multi_linter.py:90), because `sorted` then compares two dicts. That case, and every other failure of `AllFiles.info`, is left out together with its I/O.
- `double_underscore_all` and `_file_info`: neither is part of the core.
- `AllFiles.info`: globbing, file reading, stderr printing and exception handling are left out. Its result is the input `Info`, already in module-name order.
- `_metadata`, `_run` (a git subprocess), `default_json`, JSON output and `__main__` are left out.
- Errors are `Err` values with a short message, not Python's exception types and texts.
- `_linter/__init__.py`: import glue, a filesystem `ROOT` constant, `ParseError`, and `is_ignored_token`, which none of the modelled code uses.
- Five of the seven `SPLITS` pairs (tools/test/test_multi_linter.py:25-35) have no lemma of their own about the literal line. Each is an instance of `FromImportName`, `RelativeSpellings` or `AliasedImport`.
- The test file's golden-file comparisons: they depend on data files that are not part of this model.
