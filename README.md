# go-callvis: option parsing and the checks before the analysis

go-callvis draws the call graph of a Go program. Its `main` reads the
command-line options and calls `run`. `run` loads and builds the program,
resolves the `focus` package, collects the entry points for the pointer
analysis, and then runs the analysis and renders the graph. This project
models, in Dafny, the part of `main.go` that decides what the analysis is
given.

- **Option parsing** (`main`, lines 57-100), in module `Flags`. The `group`,
  `limit`, `ignore` and `tags` values are split at commas. Each piece is
  trimmed of white space, and blank pieces are skipped. Every `group` token
  must be `pkg` or `type`; any other token is a fatal error. The two Go
  library functions this relies on, `strings.Split` with a one-character
  separator and `strings.TrimSpace` (with `unicode.IsSpace`), are modelled
  in module `Text`.
- **What the loaded program offers** (module `Program`): the packages in
  the order `prog.AllPackages()` returns them, which the source does not
  fix, each with its import path and declared name. Two facts about
  each package come from the SSA library and are inputs here: whether
  `ssautil.MainPackages` selects it and whether `CreateTestMainPackage`
  builds a test driver for it. From these the module derives the entry
  points of lines 161-176.
- **Focus resolution** (lines 132-159), in module `Focus`:
  1. The value is first imported as a path.
  2. When that fails and the value has no `/`, the loaded packages are
     searched by name.
  3. No match keeps the import error. Several matches are an error. A
     single match is imported by its path.

  The importer `conf.Build.Import` is modelled as the set of paths it
  accepts.
- **`run` up to the analysis and the order of `main`** (lines 102-111,
  132-176), in module `Run`:
  1. Missing arguments are reported first. Then come load errors, focus
     errors, and a program without tests or main packages.
  2. An invalid `group` option stops `main` before `run` is reached at all.

The loops of the source that compute a result are Dafny methods with loop
invariants: `Flags.ParseList`, `Flags.ParseGroups`, `Focus.ResolveFocus` and
`Run.Run`. The printing loop of lines 149-151 never gets past its first
iteration (see "## Findings"), and is the loop-free function
`Focus.AmbiguityAsWritten`.
Each method is proved equal to a specification function (`Tokens`,
`GroupsOf`, `Resolve`, `RunSpec`). The lemmas then prove what the source
promises about those functions.

## Model

| member | source | states |
|---|---|---|
| Text.Split | main.go:60 | `strings.Split` always yields at least one piece, so the empty string yields one empty piece |
| Text.PushAppend | main.go:60 | one step of the split only touches the first piece, so appending later pieces commutes with it |
| Text.SplitLength | main.go:60 | there is exactly one more piece than there are commas |
| Text.SplitPiecesSepFree | main.go:60 | no piece contains the separator |
| Text.JoinSplit | main.go:60 | joining the pieces with the separator gives back the original value |
| Text.SplitJoin | main.go:60 | splitting a join of separator-free pieces gives back those pieces (the inverse direction) |
| Text.SplitNoSep | main.go:60 | a value without the separator is a single piece, itself |
| Text.SplitConcat | main.go:60 | splitting `a,b` gives the pieces of `a` followed by the pieces of `b` |
| Text.TrimSpace | main.go:61 | the result neither starts nor ends with a `unicode.IsSpace` character |
| Text.TrimSpaceSlice | main.go:61 | the result is a contiguous slice of the argument, and everything cut off on either side is white space |
| Text.TrimSpacePadded | main.go:61 | a non-empty trimmed word surrounded by white space trims to exactly that word |
| Text.TrimSpaceChars | main.go:61 | every character of the result occurs in the argument |
| Text.TrimSpaceIdempotent | main.go:61 | trimming twice equals trimming once |
| Text.TrimSpaceAllSpace | main.go:61 | a value made only of white space trims to the empty string |
| Flags.Clean | main.go:74-78 | keeping only the non-blank trimmed pieces never yields more tokens than pieces |
| Flags.CleanConcat | main.go:74-78 | cleaning works piece by piece: cleaning `a + b` is cleaning `a`, then `b` |
| Flags.CleanWellFormed | main.go:75 | every token kept is non-empty and trimmed |
| Flags.CleanMembers | main.go:75-76 | a string is a token exactly when it is non-empty and some piece trims to it |
| Flags.Tokens | main.go:74-76 | no contract of its own; the tokens of a list option, whose meaning `Flags.TokensMembers`, `Flags.TokensConcat` and `Flags.TokensWellFormed` state |
| Flags.TokensWellFormed | main.go:74-76 | no token of a list option is empty, padded with white space, or contains a comma |
| Flags.TokensSingle | main.go:74-76 | a value without commas gives its trim as the only token, or no token if it is blank |
| Flags.TokensOfEmpty | main.go:71 | the empty value gives no tokens, exactly like the skipped branch for an empty option |
| Flags.TokensConcat | main.go:74-76 | the tokens of `a,b` are the tokens of `a` followed by those of `b`, in order |
| Flags.TokensMembers | main.go:74-76 | a token is present exactly when some comma-separated piece trims to it |
| Flags.TokensSkipBlank | main.go:75 | a blank piece anywhere in the list is skipped: `a, ,b` gives the tokens of `a,b` |
| Flags.TokensWord | main.go:74-76 | a trimmed word without commas is exactly one token |
| Flags.TokensPadded | main.go:75 | white space around a single word does not change its token |
| Flags.TokensExamples | main.go:74-76 | `pkg,type`, `pkg,,type` and ` pkg , type ` all give the tokens `pkg`, `type` |
| Flags.ParseList | main.go:71-100 | the loop over pieces shared by `limit`, `ignore` and `tags` returns exactly the tokens of the value, in order |
| Flags.GroupOf | main.go:63-66 | the dimension recorded for a group token is the one whose name is that token |
| Flags.GroupsOf | main.go:60-68 | no contract of its own; the group outcome of a token list, whose meaning `Flags.GroupsOfMeaning` and `Flags.GroupOptionByPieces` state |
| Flags.GroupsOfMeaning | main.go:60-68 | the option is valid exactly when every token is `pkg` or `type`, and then a dimension is selected exactly when its name is among the tokens |
| Flags.GroupsOfBySet | main.go:60-68 | only which tokens occur matters: token lists with the same members give the same outcome |
| Flags.GroupsOfSnoc | main.go:66 | reading one more valid token adds its dimension to the set |
| Flags.GroupsRejectPiece | main.go:63-64 | one piece that trims to a non-empty unknown name makes the whole option invalid, wherever it occurs |
| Flags.GroupsAcceptPiece | main.go:65-66 | a piece that trims to `pkg` or `type` adds that dimension to what was read before it |
| Flags.ParseGroups | main.go:57-69 | the loop with its skip and its fatal exit returns exactly the group outcome of the value's tokens |
| Flags.GroupOptionByPieces | main.go:60-68 | the option is invalid exactly when some piece trims to a non-empty name other than `pkg` and `type`; otherwise a dimension is selected exactly when some piece trims to its name |
| Flags.GroupOrderIrrelevant | main.go:60-68 | `a,b` and `b,a` select the same grouping |
| Flags.GroupExamples | main.go:57-69 | the empty value groups by nothing; the three spellings of `pkg,type` group by both; `pkg,foo` is invalid |
| Flags.Configure | main.go:57-100 | the configuration is rejected exactly when the group option is invalid; otherwise each field holds the parsed tokens of its option |
| Program.MainPackages | main.go:172 | there are no more main entry points than loaded packages |
| Program.TestMains | main.go:163-167 | there are no more test drivers than loaded packages |
| Program.TestMainsConcat | main.go:163-167 | the test drivers of two package lists are those of the first followed by those of the second |
| Program.MainPackagesMembers | main.go:172 | a path is a main entry point exactly when a loaded main package has that path |
| Program.TestMainsMembers | main.go:163-167 | a path has a test driver exactly when a loaded package with that path has tests |
| Program.MainPackagesEmpty | main.go:172-173 | there are no main entry points exactly when no loaded package is a main package |
| Program.TestMainsEmpty | main.go:163-168 | there are no test drivers exactly when no loaded package has tests |
| Focus.PathsNamed | main.go:140-145 | the name search yields no more paths than there are loaded packages |
| Focus.PathsNamedConcat | main.go:141-145 | the search keeps the order of the package list: the paths found in `a + b` are those in `a`, then those in `b` |
| Focus.PathsNamedMembers | main.go:141-145 | a path is found exactly when a loaded package with that path has the focus name |
| Focus.PathsNamedTwo | main.go:141-148 | two packages with the name give at least two paths |
| Focus.PathsNamedLast | main.go:141-145 | a list whose last package has the name yields at least one path |
| Focus.Resolve | main.go:132-157 | there is no focus exactly when the value is empty; a resolved path is always one the importer accepts; an ambiguous outcome has at least two candidates |
| Focus.ResolveFocus | main.go:132-157 | the import attempt, the `/` check, the search loop and the re-import give exactly the outcome of `Resolve` |
| Focus.ResolveImportFirst | main.go:133-134 | a value the importer accepts is resolved to itself, whatever the loaded packages are named |
| Focus.ResolvePathNoSearch | main.go:135-138 | a value with `/` that fails to import keeps its import error, for any list of loaded packages |
| Focus.ResolveNoMatch | main.go:146-147 | a plain name that no package declares keeps the import error |
| Focus.ResolveAmbiguous | main.go:146-153 | two packages with the name make it ambiguous, and both of their paths are candidates |
| Focus.ResolveByNameUnique | main.go:140-156 | a name that fails to import is resolved only when exactly one package declares it, and then to that package's path |
| Focus.ResolveByNameSingle | main.go:140-156 | a plain name that fails to import and is declared by exactly one package is imported again by that package's path: resolved to it when the importer accepts it, and that path's import error otherwise |
| Focus.AmbiguousListsAll | main.go:148-152 | an ambiguous outcome lists the path of every package declared with the name, in the order of the package list |
| Focus.AmbiguousWorker | main.go:140-152 | two packages named `worker` make `worker` ambiguous, listing both paths in order |
| Focus.AmbiguityAsWritten | main.go:149-152 | no contract of its own; as written, the first candidate is printed and the process exits (see `Focus.AmbiguityAsWrittenLosesCandidates`) |
| Focus.AmbiguityAsWrittenLosesCandidates | main.go:148-152 | as written, fewer candidates are printed than were found, and the second is never shown |
| Focus.AmbiguousWorkerAsWritten | main.go:148-152 | as written, the two `worker` packages print only the first path, never the second |
| Run.EntryPoints | main.go:161-176 | test drivers in test mode and main packages otherwise, never more entry points than loaded packages; their meaning is stated by `Run.NoTestsExactly`, `Run.NoMainPackagesExactly` and `Run.ReadyEntryPoints` |
| Run.RunSpec | main.go:108-176 | missing arguments fail before anything else; when `run` reaches the analysis, it has at least one entry point and a focus that is absent or resolved |
| Run.Run | main.go:108-176 | the checks of `run`, with its test-driver loop, give exactly the outcome of `RunSpec` |
| Run.NoArgumentsFailsFirst | main.go:109-111 | without arguments `run` reports missing arguments, whatever the load, the focus and the mode |
| Run.NoTestsExactly | main.go:162-170 | in test mode, `run` fails with "no tests" exactly when there are arguments, the load succeeds, the focus resolves and no package has tests |
| Run.NoMainPackagesExactly | main.go:171-176 | otherwise, `run` fails with "no main packages" exactly when there are arguments, the load succeeds, the focus resolves and no package is a main package |
| Run.ReadyEntryPoints | main.go:161-176 | a successful `run` uses the resolved focus and the entry points of its mode; every entry point belongs to a loaded package of the kind the mode asks for, and every such package contributes its entry point |
| Run.MainPackagesNoTestMain | main.go:172 | main-package selection never yields a test driver |
| Run.TestMainsNoProgramMain | main.go:163-167 | the test-driver loop never yields a program's main package |
| Run.FocusErrorBeforeEntryPoints | main.go:132-176 | a focus that cannot be resolved is reported even when there are no entry points |
| Run.DefaultFocusTwoMains | main.go:22 | with the default focus `main`, two packages named `main` make `run` fail with the ambiguity error when `main` cannot be imported as a path |
| Run.Invoke | main.go:57-104 | an invalid group option stops the program before `run`, even without arguments; otherwise the result pairs the parsed configuration with the outcome of `RunSpec`; the configuration is not an input of `Run.Run`, since the checks modelled here do not depend on it |

## Left out

- Loading and building: `loader.Config.FromArgs`, `Load`, `ssautil.CreateProgram` and `prog.Build` are not modelled. Their result is the `Run.Load` input, either a failure or the list of packages.
- Entry-point facts: which packages `ssautil.MainPackages` selects and which get a test driver from `CreateTestMainPackage` are inputs (`isMain`, `hasTests`). The SSA library is not modelled.
- The importer: `conf.Build.Import` is a lookup in GOROOT and GOPATH. It is modelled as the set of paths it accepts, and its error text and the resolved `build.Package` are not modelled. Only the import path is kept.
- The analysis and the output: the pointer analysis (lines 179-188) and `printOutput` (lines 190-191) are not modelled. The file that defines `printOutput` is not part of this model. The model stops where the analysis would be given its entry points.
- Flag registration and parsing by the `flag` package, `-version`, `-debug`, `-minlen`, `-nodesep` and `-nostd` (lines 21-55): option values are inputs. `nostd` is only passed on to the output.
- Logging and timing: `logf` and the `time` measurements do not affect the outcome.
- Fatal exits: `log.Fatalln` and `log.Fatalf` end the process. They are modelled as error outcomes: `ConfigRejected`, `Launch.BadGroupOption`, and a `Failed` outcome of `run`, which line 103 turns into a fatal exit.
- Nil and empty values: Go distinguishes a nil slice from an empty one for `limit`, `ignore` and `tags`. Both are the empty sequence here. The same holds for `group`: lines 57-58 leave `groupBy` a nil map for an empty value, and make an empty non-nil map for a blank value such as `" , "`. Both are `GroupBy({})` here. `main.go` only hands these values to `printOutput` (lines 190-191), which is not modelled, and the tags to the build context. So whether anything tells nil and empty apart cannot be read from the modelled code.
- Package order: `prog.AllPackages()` (line 129) returns the packages in an order the source does not fix. The model takes that order as part of the `Run.Load` input. So "in the order of the package list" in `Focus.AmbiguousListsAll`, `Focus.AmbiguousWorker`, `Focus.PathsNamedConcat` and `Program.TestMains` means the order of that input. The source does not sort the candidates, so which path the as-written line 150 prints is not fixed either.
- Byte strings: Go strings, and so option values, may hold bytes that are not valid UTF-8, which `strings.Split` and `strings.TrimSpace` pass through unchanged. Option values here are sequences of Unicode characters, so such values are not modelled.
- Build tags: the parsed `tags` reach the build context, and through it the importer and the loader. Here they are only a field of `Config`; their effect on loading is part of the inputs.

## Findings

| source | as written | input that shows it | evidently intended | confidence | as-written member | corrected member |
|---|---|---|---|---|---|---|
| main.go:149-152 | each candidate is printed with `log.Fatalf`, which ends the process after the first line, so only the first candidate is shown and the error of line 152 is never returned | focus `worker`, not importable, with loaded packages `app/worker` and `lib/worker` both named `worker` | print every candidate (e.g. with `log.Printf`) and then return the "found 2 packages with name" error | high, not executed | Focus.AmbiguousWorkerAsWritten | Focus.AmbiguousListsAll |

The rest of the model uses the corrected behaviour. `Focus.Resolve` returns
`Ambiguous` with every candidate, and `Run.RunSpec` turns that into the
`FocusAmbiguous` error of line 152. `Focus.AmbiguityAsWritten` models the
behaviour as written; `Focus.AmbiguityAsWrittenLosesCandidates` and
`Focus.AmbiguousWorkerAsWritten` state what it loses.
