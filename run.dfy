/**
  The checks `run` makes before the pointer analysis (main.go:108-176), and
  the order in which `main` applies the option parsing and `run`
  (main.go:57-104). Loading and building the program is done by the Go
  tools' loader and SSA builder; here its outcome is an input.
 */
module Run {
  import opened Program
  import opened Focus
  import opened Flags

  /** What loading the packages named by the arguments produced. */
  datatype Load = LoadFailed | Loaded(pkgs: seq<Package>)

  /** The errors `run` returns before the analysis starts. */
  datatype RunError =
    | MissingArguments                                     // "missing arguments"
    | LoadError                                            // passed on from the loader
    | FocusNotFound(path: string)                          // passed on from the importer
    | FocusAmbiguous(name: string, candidates: seq<string>)  // "found N packages with name ..."
    | NoTests                                              // "no tests"
    | NoMainPackages                                       // "no main packages"

  /** Either an error, or the focus and the entry points the analysis is given. */
  datatype RunOutcome = Failed(error: RunError) | Ready(focus: FocusOutcome, mains: seq<EntryPoint>)

  /** The entry points of main.go:161-176: test drivers in test mode, main packages otherwise. */
  function EntryPoints(pkgs: seq<Package>, tests: bool): (mains: seq<EntryPoint>)
    ensures |mains| <= |pkgs|
  {
    if tests then TestMains(pkgs) else MainPackages(pkgs)
  }

  /**
    The early part of `run`: no arguments is an error before anything is
    loaded; then a load error, a focus that cannot be resolved, and an empty
    set of entry points are errors, in that order.
   */
  function RunSpec(args: seq<string>, focus: string, load: Load, importable: set<string>, tests: bool): (r: RunOutcome)
    ensures args == [] ==> r == Failed(MissingArguments)
    ensures r.Ready? ==> |r.mains| > 0 && (r.focus.NoFocus? || r.focus.Resolved?)
  {
    if args == [] then Failed(MissingArguments)
    else match load
      case LoadFailed => Failed(LoadError)
      case Loaded(pkgs) =>
        match Resolve(focus, pkgs, importable)
        case NotFound(path) => Failed(FocusNotFound(path))
        case Ambiguous(candidates) => Failed(FocusAmbiguous(focus, candidates))
        case resolved =>
          var mains := EntryPoints(pkgs, tests);
          if mains == [] then Failed(if tests then NoTests else NoMainPackages)
          else Ready(resolved, mains)
  }

  /**
    `run` up to the pointer analysis: the argument check, the focus
    resolution and, in test mode, the loop that collects a test driver for
    every package that has one.
   */
  method Run(args: seq<string>, focus: string, load: Load, importable: set<string>, tests: bool)
    returns (r: RunOutcome)
    ensures r == RunSpec(args, focus, load, importable, tests)
  {
    if |args| == 0 {
      return Failed(MissingArguments);
    }
    if load.LoadFailed? {
      return Failed(LoadError);
    }
    var pkgs := load.pkgs;
    var focusPkg := ResolveFocus(focus, pkgs, importable);
    if focusPkg.NotFound? {
      return Failed(FocusNotFound(focusPkg.path));
    } else if focusPkg.Ambiguous? {
      return Failed(FocusAmbiguous(focus, focusPkg.candidates));
    }
    var mains: seq<EntryPoint> := [];
    if tests {
      for i := 0 to |pkgs|
        invariant mains == TestMains(pkgs[..i])
      {
        TestMainsConcat(pkgs[..i], [pkgs[i]]);
        assert pkgs[..i + 1] == pkgs[..i] + [pkgs[i]];
        if pkgs[i].hasTests {
          mains := mains + [TestMain(pkgs[i].path)];
        }
      }
      assert pkgs[..|pkgs|] == pkgs;
      if mains == [] {
        return Failed(NoTests);
      }
    } else {
      mains := MainPackages(pkgs);
      if |mains| == 0 {
        return Failed(NoMainPackages);
      }
    }
    r := Ready(focusPkg, mains);
  }

  /** Without arguments `run` fails whatever would have been loaded. */
  lemma NoArgumentsFailsFirst(focus: string, load: Load, importable: set<string>, tests: bool)
    ensures RunSpec([], focus, load, importable, tests) == Failed(MissingArguments)
  {
  }

  /**
    In test mode, `run` fails with "no tests" exactly when the arguments are
    there, the packages load, the focus resolves, and no package has tests.
   */
  lemma NoTestsExactly(args: seq<string>, focus: string, load: Load, importable: set<string>)
    ensures RunSpec(args, focus, load, importable, true) == Failed(NoTests)
            <==> && args != [] && load.Loaded?
                 && (Resolve(focus, load.pkgs, importable).NoFocus? || Resolve(focus, load.pkgs, importable).Resolved?)
                 && forall i :: 0 <= i < |load.pkgs| ==> !load.pkgs[i].hasTests
  {
    if load.Loaded? {
      TestMainsEmpty(load.pkgs);
    }
  }

  /**
    Outside test mode, `run` fails with "no main packages" exactly when the
    arguments are there, the packages load, the focus resolves, and no
    package is a main package.
   */
  lemma NoMainPackagesExactly(args: seq<string>, focus: string, load: Load, importable: set<string>)
    ensures RunSpec(args, focus, load, importable, false) == Failed(NoMainPackages)
            <==> && args != [] && load.Loaded?
                 && (Resolve(focus, load.pkgs, importable).NoFocus? || Resolve(focus, load.pkgs, importable).Resolved?)
                 && forall i :: 0 <= i < |load.pkgs| ==> !load.pkgs[i].isMain
  {
    if load.Loaded? {
      MainPackagesEmpty(load.pkgs);
    }
  }

  /**
    When `run` gets as far as the analysis, the focus is the resolved one,
    the entry points are those of the mode, every entry point belongs to a
    loaded package of the right kind, and every such package contributes one.
   */
  lemma ReadyEntryPoints(args: seq<string>, focus: string, load: Load, importable: set<string>, tests: bool)
    requires RunSpec(args, focus, load, importable, tests).Ready?
    ensures load.Loaded?
    ensures RunSpec(args, focus, load, importable, tests).focus == Resolve(focus, load.pkgs, importable)
    ensures RunSpec(args, focus, load, importable, tests).mains == EntryPoints(load.pkgs, tests)
    ensures tests ==> forall i :: 0 <= i < |load.pkgs| && load.pkgs[i].hasTests ==>
              TestMain(load.pkgs[i].path) in RunSpec(args, focus, load, importable, tests).mains
    ensures !tests ==> forall i :: 0 <= i < |load.pkgs| && load.pkgs[i].isMain ==>
              ProgramMain(load.pkgs[i].path) in RunSpec(args, focus, load, importable, tests).mains
    ensures forall path :: TestMain(path) in RunSpec(args, focus, load, importable, tests).mains ==>
              tests && exists i :: 0 <= i < |load.pkgs| && load.pkgs[i].hasTests && load.pkgs[i].path == path
    ensures forall path :: ProgramMain(path) in RunSpec(args, focus, load, importable, tests).mains ==>
              !tests && exists i :: 0 <= i < |load.pkgs| && load.pkgs[i].isMain && load.pkgs[i].path == path
  {
    var mains := RunSpec(args, focus, load, importable, tests).mains;
    forall i | 0 <= i < |load.pkgs|
      ensures tests && load.pkgs[i].hasTests ==> TestMain(load.pkgs[i].path) in mains
      ensures !tests && load.pkgs[i].isMain ==> ProgramMain(load.pkgs[i].path) in mains
    {
      TestMainsMembers(load.pkgs, load.pkgs[i].path);
      MainPackagesMembers(load.pkgs, load.pkgs[i].path);
    }
    forall path | TestMain(path) in mains
      ensures tests && exists i :: 0 <= i < |load.pkgs| && load.pkgs[i].hasTests && load.pkgs[i].path == path
    {
      TestMainsMembers(load.pkgs, path);
      if !tests {
        MainPackagesNoTestMain(load.pkgs, path);
      }
    }
    forall path | ProgramMain(path) in mains
      ensures !tests && exists i :: 0 <= i < |load.pkgs| && load.pkgs[i].isMain && load.pkgs[i].path == path
    {
      MainPackagesMembers(load.pkgs, path);
      if tests {
        TestMainsNoProgramMain(load.pkgs, path);
      }
    }
  }

  /** `ssautil.MainPackages` yields no test drivers. */
  lemma {:induction false} MainPackagesNoTestMain(pkgs: seq<Package>, path: string)
    ensures TestMain(path) !in MainPackages(pkgs)
    decreases |pkgs|
  {
    if pkgs != [] {
      MainPackagesNoTestMain(pkgs[1..], path);
    }
  }

  /** The test-driver loop yields no program mains. */
  lemma {:induction false} TestMainsNoProgramMain(pkgs: seq<Package>, path: string)
    ensures ProgramMain(path) !in TestMains(pkgs)
    decreases |pkgs|
  {
    if pkgs != [] {
      TestMainsNoProgramMain(pkgs[1..], path);
    }
  }

  /**
    A focus that cannot be resolved is reported even when the program has
    no entry points: focus resolution comes before the entry-point check.
   */
  lemma FocusErrorBeforeEntryPoints(args: seq<string>, focus: string, pkgs: seq<Package>, importable: set<string>, tests: bool)
    requires args != []
    requires Resolve(focus, pkgs, importable).NotFound? || Resolve(focus, pkgs, importable).Ambiguous?
    ensures RunSpec(args, focus, Loaded(pkgs), importable, tests).Failed?
    ensures RunSpec(args, focus, Loaded(pkgs), importable, tests).error != NoTests
    ensures RunSpec(args, focus, Loaded(pkgs), importable, tests).error != NoMainPackages
  {
  }

  /** The value of the `focus` option when it is not given (main.go:22). */
  const DefaultFocus: string := "main"

  /**
    With the default focus, and no package importable as `main`, a program
    with two packages named `main` stops at the focus: the default name is
    ambiguous, whatever the entry points would have been.
   */
  lemma DefaultFocusTwoMains(args: seq<string>, pkgs: seq<Package>, importable: set<string>, tests: bool, i: nat, j: nat)
    requires args != [] && DefaultFocus !in importable
    requires i < j < |pkgs| && pkgs[i].name == DefaultFocus && pkgs[j].name == DefaultFocus
    ensures RunSpec(args, DefaultFocus, Loaded(pkgs), importable, tests)
            == Failed(FocusAmbiguous(DefaultFocus, PathsNamed(pkgs, DefaultFocus)))
  {
    assert '/' !in DefaultFocus;
    ResolveAmbiguous(DefaultFocus, pkgs, importable, i, j);
  }

  /** What the process does: stop on a bad group option, or run with the configuration. */
  datatype Launch = BadGroupOption | Launched(config: Config, run: RunOutcome)

  /**
    `main` after flag parsing (main.go:57-104): the options are read first,
    and an invalid group option stops the program before `run` is called, so
    even a missing argument list is not reported then.
   */
  method Invoke(groupValue: string, limitValue: string, ignoreValue: string, tagsValue: string,
                focus: string, args: seq<string>, load: Load, importable: set<string>, tests: bool)
    returns (r: Launch)
    ensures r.BadGroupOption? <==> GroupsOf(Tokens(groupValue)).InvalidGroupOption?
    ensures r.Launched? ==>
              && r.config == Config(GroupsOf(Tokens(groupValue)).groups, Tokens(limitValue),
                                    Tokens(ignoreValue), Tokens(tagsValue))
              && r.run == RunSpec(args, focus, load, importable, tests)
  {
    var parsed := Configure(groupValue, limitValue, ignoreValue, tagsValue);
    if parsed.ConfigRejected? {
      return BadGroupOption;
    }
    var outcome := Run(args, focus, load, importable, tests);
    r := Launched(parsed.config, outcome);
  }
}
