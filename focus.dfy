/**
  Resolution of the `focus` option to one package (main.go:132-159). The
  value is first given to the build context's importer as an import path.
  If that fails and the value holds no `/`, the loaded packages are searched
  for one whose declared name is the value: no match keeps the import error,
  several matches are an error that lists them, and a single match is
  imported by its path. The importer is a lookup in the file system and
  GOPATH; here it is the set of paths it would accept.
 */
module Focus {
  import opened Program

  /** The outcome of resolving the focus value. */
  datatype FocusOutcome =
    | NoFocus
    | Resolved(path: string)
    | NotFound(path: string)           // the path whose import failed
    | Ambiguous(candidates: seq<string>)

  /** The import paths of the packages declared with `name`, in the order of the package list. */
  function PathsNamed(pkgs: seq<Package>, name: string): (paths: seq<string>)
    ensures |paths| <= |pkgs|
  {
    if pkgs == [] then []
    else (if pkgs[0].name == name then [pkgs[0].path] else []) + PathsNamed(pkgs[1..], name)
  }

  /** The name search keeps the order of the package list: it works segment by segment. */
  lemma {:induction false} PathsNamedConcat(a: seq<Package>, b: seq<Package>, name: string)
    ensures PathsNamed(a + b, name) == PathsNamed(a, name) + PathsNamed(b, name)
    decreases |a|
  {
    if a == [] {
      assert a + b == b;
    } else {
      var head := if a[0].name == name then [a[0].path] else [];
      assert (a + b)[0] == a[0];
      assert (a + b)[1..] == a[1..] + b;
      PathsNamedConcat(a[1..], b, name);
      calc {
        PathsNamed(a + b, name);
        head + PathsNamed(a[1..] + b, name);
        head + (PathsNamed(a[1..], name) + PathsNamed(b, name));
        (head + PathsNamed(a[1..], name)) + PathsNamed(b, name);
      }
    }
  }

  /** A path is a candidate exactly when some package with that path has the name. */
  lemma {:induction false} PathsNamedMembers(pkgs: seq<Package>, name: string, path: string)
    ensures path in PathsNamed(pkgs, name)
            <==> exists i :: 0 <= i < |pkgs| && pkgs[i].name == name && pkgs[i].path == path
    decreases |pkgs|
  {
    if pkgs != [] {
      PathsNamedMembers(pkgs[1..], name, path);
      if exists i :: 0 <= i < |pkgs| && pkgs[i].name == name && pkgs[i].path == path {
        var i :| 0 <= i < |pkgs| && pkgs[i].name == name && pkgs[i].path == path;
        if i > 0 {
          assert pkgs[1..][i - 1] == pkgs[i];
        }
      }
      if exists i :: 0 <= i < |pkgs[1..]| && pkgs[1..][i].name == name && pkgs[1..][i].path == path {
        var i :| 0 <= i < |pkgs[1..]| && pkgs[1..][i].name == name && pkgs[1..][i].path == path;
        assert pkgs[i + 1] == pkgs[1..][i];
      }
    }
  }

  /** Two distinct packages with the name give at least two candidates. */
  lemma {:induction false} PathsNamedTwo(pkgs: seq<Package>, name: string, i: nat, j: nat)
    requires i < j < |pkgs| && pkgs[i].name == name && pkgs[j].name == name
    ensures |PathsNamed(pkgs, name)| >= 2
  {
    var front, middle, back := pkgs[..i + 1], pkgs[i + 1..j + 1], pkgs[j + 1..];
    assert pkgs == front + middle + back;
    PathsNamedConcat(front + middle, back, name);
    PathsNamedConcat(front, middle, name);
    PathsNamedLast(front, name);
    PathsNamedLast(middle, name);
  }

  /** A list whose last package has the name yields at least one candidate. */
  lemma PathsNamedLast(pkgs: seq<Package>, name: string)
    requires pkgs != [] && pkgs[|pkgs| - 1].name == name
    ensures |PathsNamed(pkgs, name)| >= 1
  {
    var n := |pkgs| - 1;
    PathsNamedConcat(pkgs[..n], [pkgs[n]], name);
    assert pkgs == pkgs[..n] + [pkgs[n]];
  }

  /**
    The decision of main.go:132-157, given the paths the importer accepts.
    It never picks among several packages, and only a path the importer
    accepts is resolved.
   */
  function Resolve(focus: string, pkgs: seq<Package>, importable: set<string>): (r: FocusOutcome)
    ensures r.NoFocus? <==> focus == ""
    ensures r.Resolved? ==> r.path in importable
    ensures r.Ambiguous? ==> |r.candidates| >= 2
  {
    if focus == "" then NoFocus
    else if focus in importable then Resolved(focus)
    else if '/' in focus then NotFound(focus)
    else
      var found := PathsNamed(pkgs, focus);
      if |found| == 0 then NotFound(focus)
      else if |found| > 1 then Ambiguous(found)
      else if found[0] in importable then Resolved(found[0])
      else NotFound(found[0])
  }

  /**
    Focus resolution as `run` performs it: the import is tried first, and
    only a plain name that fails to import leads to a scan of the packages
    that collects every path declared with that name.
   */
  method ResolveFocus(focus: string, pkgs: seq<Package>, importable: set<string>) returns (r: FocusOutcome)
    ensures r == Resolve(focus, pkgs, importable)
  {
    if focus == "" {
      return NoFocus;
    }
    if focus in importable {
      return Resolved(focus);
    }
    if '/' in focus {
      return NotFound(focus);
    }
    var foundPaths: seq<string> := [];
    for i := 0 to |pkgs|
      invariant foundPaths == PathsNamed(pkgs[..i], focus)
    {
      PathsNamedConcat(pkgs[..i], [pkgs[i]], focus);
      assert pkgs[..i + 1] == pkgs[..i] + [pkgs[i]];
      if pkgs[i].name == focus {
        foundPaths := foundPaths + [pkgs[i].path];
      }
    }
    assert pkgs[..|pkgs|] == pkgs;
    if |foundPaths| == 0 {
      return NotFound(focus);
    } else if |foundPaths| > 1 {
      return Ambiguous(foundPaths);
    }
    if foundPaths[0] in importable {
      r := Resolved(foundPaths[0]);
    } else {
      r := NotFound(foundPaths[0]);
    }
  }

  /** A value the importer accepts is resolved directly, whatever the packages are called. */
  lemma ResolveImportFirst(focus: string, pkgs: seq<Package>, importable: set<string>)
    requires focus != "" && focus in importable
    ensures Resolve(focus, pkgs, importable) == Resolved(focus)
  {
  }

  /**
    A value with a `/` that fails to import keeps the import error, and the
    packages are not searched: the outcome is the same for any package list.
   */
  lemma ResolvePathNoSearch(focus: string, pkgs: seq<Package>, other: seq<Package>, importable: set<string>)
    requires focus != "" && focus !in importable && '/' in focus
    ensures Resolve(focus, pkgs, importable) == NotFound(focus)
    ensures Resolve(focus, pkgs, importable) == Resolve(focus, other, importable)
  {
  }

  /** A plain name that no package declares keeps the import error. */
  lemma ResolveNoMatch(focus: string, pkgs: seq<Package>, importable: set<string>)
    requires focus != "" && focus !in importable && '/' !in focus
    requires forall i :: 0 <= i < |pkgs| ==> pkgs[i].name != focus
    ensures Resolve(focus, pkgs, importable) == NotFound(focus)
  {
    if PathsNamed(pkgs, focus) != [] {
      var path := PathsNamed(pkgs, focus)[0];
      PathsNamedMembers(pkgs, focus, path);
    }
  }

  /**
    Two packages declared with the name make a plain name ambiguous, and the
    candidates are every path declared with it, in the order of the package list.
   */
  lemma ResolveAmbiguous(focus: string, pkgs: seq<Package>, importable: set<string>, i: nat, j: nat)
    requires focus != "" && focus !in importable && '/' !in focus
    requires i < j < |pkgs| && pkgs[i].name == focus && pkgs[j].name == focus
    ensures Resolve(focus, pkgs, importable) == Ambiguous(PathsNamed(pkgs, focus))
    ensures pkgs[i].path in Resolve(focus, pkgs, importable).candidates
    ensures pkgs[j].path in Resolve(focus, pkgs, importable).candidates
  {
    PathsNamedTwo(pkgs, focus, i, j);
    PathsNamedMembers(pkgs, focus, pkgs[i].path);
    PathsNamedMembers(pkgs, focus, pkgs[j].path);
  }

  /**
    The name search never guesses: when a value that fails to import is
    resolved, exactly one package is declared with that name, and the
    result is its path.
   */
  lemma ResolveByNameUnique(focus: string, pkgs: seq<Package>, importable: set<string>, p: string)
    requires focus !in importable
    requires Resolve(focus, pkgs, importable) == Resolved(p)
    ensures PathsNamed(pkgs, focus) == [p]
    ensures exists i :: 0 <= i < |pkgs| && pkgs[i].name == focus && pkgs[i].path == p
    ensures forall i, j :: 0 <= i < j < |pkgs| ==> !(pkgs[i].name == focus && pkgs[j].name == focus)
  {
    PathsNamedMembers(pkgs, focus, p);
    forall i, j | 0 <= i < j < |pkgs|
      ensures !(pkgs[i].name == focus && pkgs[j].name == focus)
    {
      if pkgs[i].name == focus && pkgs[j].name == focus {
        PathsNamedTwo(pkgs, focus, i, j);
      }
    }
  }

  /** A list in which no package has the name yields no candidates. */
  lemma PathsNamedNone(pkgs: seq<Package>, name: string)
    requires forall i :: 0 <= i < |pkgs| ==> pkgs[i].name != name
    ensures PathsNamed(pkgs, name) == []
  {
    if PathsNamed(pkgs, name) != [] {
      PathsNamedMembers(pkgs, name, PathsNamed(pkgs, name)[0]);
    }
  }

  /**
    A plain name that fails to import and is declared by exactly one package
    is imported again by that package's path: the focus is that path when
    the importer accepts it, and otherwise the import error for that path.
   */
  lemma ResolveByNameSingle(focus: string, pkgs: seq<Package>, importable: set<string>, k: nat)
    requires focus != "" && focus !in importable && '/' !in focus
    requires k < |pkgs| && pkgs[k].name == focus
    requires forall i :: 0 <= i < |pkgs| && i != k ==> pkgs[i].name != focus
    ensures Resolve(focus, pkgs, importable)
            == if pkgs[k].path in importable then Resolved(pkgs[k].path) else NotFound(pkgs[k].path)
  {
    var front, back := pkgs[..k], pkgs[k + 1..];
    assert pkgs == front + [pkgs[k]] + back;
    assert forall i :: 0 <= i < |front| ==> front[i] == pkgs[i];
    assert forall i :: 0 <= i < |back| ==> back[i] == pkgs[k + 1 + i];
    PathsNamedNone(front, focus);
    PathsNamedNone(back, focus);
    PathsNamedConcat(front + [pkgs[k]], back, focus);
    PathsNamedConcat(front, [pkgs[k]], focus);
    assert PathsNamed([pkgs[k]], focus) == [pkgs[k].path];
  }

  /** An ambiguous outcome lists every package declared with the name. */
  lemma AmbiguousListsAll(focus: string, pkgs: seq<Package>, importable: set<string>)
    requires Resolve(focus, pkgs, importable).Ambiguous?
    ensures Resolve(focus, pkgs, importable).candidates == PathsNamed(pkgs, focus)
    ensures forall i :: 0 <= i < |pkgs| && pkgs[i].name == focus ==>
              pkgs[i].path in Resolve(focus, pkgs, importable).candidates
  {
    forall i | 0 <= i < |pkgs| && pkgs[i].name == focus
      ensures pkgs[i].path in PathsNamed(pkgs, focus)
    {
      PathsNamedMembers(pkgs, focus, pkgs[i].path);
    }
  }

  /**
    Two packages named `worker`, at `app/worker` and at `lib/worker`: the
    name is ambiguous and both paths are listed, in the order of the package list.
   */
  lemma AmbiguousWorker(a: Package, b: Package, importable: set<string>)
    requires a.name == "worker" && b.name == "worker"
    requires "worker" !in importable
    ensures Resolve("worker", [a, b], importable) == Ambiguous([a.path, b.path])
  {
    assert '/' !in "worker";
    assert [a, b][1..] == [b];
    assert [b][1..] == [];
    assert PathsNamed([b], "worker") == [b.path];
    assert PathsNamed([a, b], "worker") == [a.path, b.path];
  }

  /**
    What lines 149-152 do with the candidates as written: `log.Fatalf`
    prints one line and ends the process, so the loop stops after the first
    candidate and the error of line 152 is returned only when there are none.
   */
  datatype AmbiguityExit = ExitedAfterPrinting(printed: seq<string>) | ErrorReturned(count: nat)

  /** Lines 149-152 as written. */
  function AmbiguityAsWritten(foundPaths: seq<string>): (exit: AmbiguityExit)
  {
    if foundPaths == [] then ErrorReturned(0) else ExitedAfterPrinting([foundPaths[0]])
  }

  /**
    As written, an ambiguous name reports only its first candidate: every
    other candidate is missing from the output, and the error that says how
    many packages matched is never returned.
   */
  lemma AmbiguityAsWrittenLosesCandidates(foundPaths: seq<string>)
    requires |foundPaths| >= 2
    ensures AmbiguityAsWritten(foundPaths).ExitedAfterPrinting?
    ensures |AmbiguityAsWritten(foundPaths).printed| < |foundPaths|
    ensures foundPaths[1] != foundPaths[0] ==> foundPaths[1] !in AmbiguityAsWritten(foundPaths).printed
  {
  }

  /**
    The two `worker` packages as written: the name is ambiguous, yet the
    process ends after printing `a`'s path, and `b`'s path is never shown.
   */
  lemma AmbiguousWorkerAsWritten(a: Package, b: Package, importable: set<string>)
    requires a.name == "worker" && b.name == "worker" && a.path != b.path
    requires "worker" !in importable
    ensures Resolve("worker", [a, b], importable).Ambiguous?
    ensures AmbiguityAsWritten(Resolve("worker", [a, b], importable).candidates) == ExitedAfterPrinting([a.path])
    ensures b.path !in AmbiguityAsWritten(Resolve("worker", [a, b], importable).candidates).printed
  {
    AmbiguousWorker(a, b, importable);
  }
}
