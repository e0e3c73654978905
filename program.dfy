/**
  What `run` learns about the loaded program (main.go:113-131, 161-176): the
  packages of the built program, in the order `prog.AllPackages()` returns
  them, which the source does not fix, and the entry points the pointer analysis starts from.
 */
module Program {

  /**
    A loaded package: its import path, its declared name, whether
    `ssautil.MainPackages` selects it and whether
    `prog.CreateTestMainPackage` builds a test driver for it. The last two
    are answers of the SSA library, taken here as given. The model does not
    tie `isMain` to the declared name: it does not assume that only packages
    named `main` (with a `main` function) are selected.
   */
  datatype Package = Package(path: string, name: string, isMain: bool, hasTests: bool)

  /** A root of the call graph: a program's main package or a package's test driver. */
  datatype EntryPoint = ProgramMain(pkg: string) | TestMain(pkg: string)

  /** `ssautil.MainPackages`: one entry point per main package, in the order of the package list. */
  function MainPackages(pkgs: seq<Package>): (mains: seq<EntryPoint>)
    ensures |mains| <= |pkgs|
  {
    if pkgs == [] then []
    else (if pkgs[0].isMain then [ProgramMain(pkgs[0].path)] else []) + MainPackages(pkgs[1..])
  }

  /**
    The test drivers of main.go:163-167: one per package that has tests, in
    the order of the package list.
   */
  function TestMains(pkgs: seq<Package>): (mains: seq<EntryPoint>)
    ensures |mains| <= |pkgs|
  {
    if pkgs == [] then []
    else (if pkgs[0].hasTests then [TestMain(pkgs[0].path)] else []) + TestMains(pkgs[1..])
  }

  /** The test drivers of two package lists, one after the other. */
  lemma {:induction false} TestMainsConcat(a: seq<Package>, b: seq<Package>)
    ensures TestMains(a + b) == TestMains(a) + TestMains(b)
    decreases |a|
  {
    if a == [] {
      assert a + b == b;
    } else {
      var head := if a[0].hasTests then [TestMain(a[0].path)] else [];
      assert (a + b)[0] == a[0];
      assert (a + b)[1..] == a[1..] + b;
      TestMainsConcat(a[1..], b);
      calc {
        TestMains(a + b);
        head + TestMains(a[1..] + b);
        head + (TestMains(a[1..]) + TestMains(b));
        (head + TestMains(a[1..])) + TestMains(b);
      }
    }
  }

  /** A package contributes a main entry point exactly when it is a main package. */
  lemma {:induction false} MainPackagesMembers(pkgs: seq<Package>, path: string)
    ensures ProgramMain(path) in MainPackages(pkgs)
            <==> exists i :: 0 <= i < |pkgs| && pkgs[i].isMain && pkgs[i].path == path
    decreases |pkgs|
  {
    if pkgs != [] {
      MainPackagesMembers(pkgs[1..], path);
      if exists i :: 0 <= i < |pkgs| && pkgs[i].isMain && pkgs[i].path == path {
        var i :| 0 <= i < |pkgs| && pkgs[i].isMain && pkgs[i].path == path;
        if i > 0 {
          assert pkgs[1..][i - 1] == pkgs[i];
        }
      }
      if exists i :: 0 <= i < |pkgs[1..]| && pkgs[1..][i].isMain && pkgs[1..][i].path == path {
        var i :| 0 <= i < |pkgs[1..]| && pkgs[1..][i].isMain && pkgs[1..][i].path == path;
        assert pkgs[i + 1] == pkgs[1..][i];
      }
    }
  }

  /** A package contributes a test driver exactly when it has tests. */
  lemma {:induction false} TestMainsMembers(pkgs: seq<Package>, path: string)
    ensures TestMain(path) in TestMains(pkgs)
            <==> exists i :: 0 <= i < |pkgs| && pkgs[i].hasTests && pkgs[i].path == path
    decreases |pkgs|
  {
    if pkgs != [] {
      TestMainsMembers(pkgs[1..], path);
      if exists i :: 0 <= i < |pkgs| && pkgs[i].hasTests && pkgs[i].path == path {
        var i :| 0 <= i < |pkgs| && pkgs[i].hasTests && pkgs[i].path == path;
        if i > 0 {
          assert pkgs[1..][i - 1] == pkgs[i];
        }
      }
      if exists i :: 0 <= i < |pkgs[1..]| && pkgs[1..][i].hasTests && pkgs[1..][i].path == path {
        var i :| 0 <= i < |pkgs[1..]| && pkgs[1..][i].hasTests && pkgs[1..][i].path == path;
        assert pkgs[i + 1] == pkgs[1..][i];
      }
    }
  }

  /** There is no main entry point exactly when no package is a main package. */
  lemma {:induction false} MainPackagesEmpty(pkgs: seq<Package>)
    ensures MainPackages(pkgs) == [] <==> forall i :: 0 <= i < |pkgs| ==> !pkgs[i].isMain
    decreases |pkgs|
  {
    if pkgs != [] {
      MainPackagesEmpty(pkgs[1..]);
      assert forall i :: 1 <= i < |pkgs| ==> pkgs[i] == pkgs[1..][i - 1];
    }
  }

  /** There is no test driver exactly when no package has tests. */
  lemma {:induction false} TestMainsEmpty(pkgs: seq<Package>)
    ensures TestMains(pkgs) == [] <==> forall i :: 0 <= i < |pkgs| ==> !pkgs[i].hasTests
    decreases |pkgs|
  {
    if pkgs != [] {
      TestMainsEmpty(pkgs[1..]);
      assert forall i :: 1 <= i < |pkgs| ==> pkgs[i] == pkgs[1..][i - 1];
    }
  }
}
