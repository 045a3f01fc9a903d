/** Templates matched to files by base name. */
module Matching {
  import opened Config
  import Paths

  /** The first file with the base name of file i. */
  predicate IsFirst(files: seq<File>, i: nat)
    requires i < |files|
  {
    forall j :: 0 <= j < i ==> Paths.Base(files[j].path) != Paths.Base(files[i].path)
  }

  /** The paths that get a template: each template goes to the first file with its name. */
  function MatchedPaths(names: set<string>, files: seq<File>): set<string> {
    set i | 0 <= i < |files| && Paths.Base(files[i].path) in names && IsFirst(files, i) :: files[i].path
  }

  /** The two nested loops, for any order in which the template names are visited. */
  method MatchTemplates(names: seq<string>, files: seq<File>) returns (fileToTemplate: map<string, string>)
    ensures fileToTemplate.Keys == MatchedPaths(Elements(names), files)
    ensures forall path :: path in fileToTemplate ==> fileToTemplate[path] == Paths.Base(path)
  {
    fileToTemplate := map[];
    for k := 0 to |names|
      invariant fileToTemplate.Keys == MatchedPaths(Elements(names[..k]), files)
      invariant forall path :: path in fileToTemplate ==> fileToTemplate[path] == Paths.Base(path)
    {
      ghost var before := fileToTemplate.Keys;
      var hit := |files|;
      for i := 0 to |files|
        invariant hit == |files|
        invariant forall j :: 0 <= j < i ==> Paths.Base(files[j].path) != names[k]
      {
        if Paths.Base(files[i].path) == names[k] {
          fileToTemplate := fileToTemplate[files[i].path := names[k]];
          hit := i;
          break;
        }
      }
      MatchedByOneMore(names, k, files, hit);
    }
    assert names[..|names|] == names;
  }

  lemma MatchedByOneMore(names: seq<string>, k: nat, files: seq<File>, hit: nat)
    requires k < |names| && hit <= |files|
    requires hit < |files| ==> Paths.Base(files[hit].path) == names[k]
    requires forall j :: 0 <= j < hit ==> Paths.Base(files[j].path) != names[k]
    ensures MatchedPaths(Elements(names[..k + 1]), files) ==
      MatchedPaths(Elements(names[..k]), files) + if hit < |files| then {files[hit].path} else {}
  {
  }

  /** With distinct paths a file gets its template exactly when no earlier file has the same base name. */
  lemma MatchedIff(names: set<string>, files: seq<File>, i: nat)
    requires Distinct(PathsOf(files)) && i < |files|
    ensures files[i].path in MatchedPaths(names, files) <==>
      Paths.Base(files[i].path) in names && forall j :: 0 <= j < i ==> Paths.Base(files[j].path) != Paths.Base(files[i].path)
  {
    if files[i].path in MatchedPaths(names, files) {
      var k :| 0 <= k < |files| && Paths.Base(files[k].path) in names && IsFirst(files, k) && files[k].path == files[i].path;
      assert PathsOf(files)[k] == PathsOf(files)[i];
    }
  }

  ghost function Bases(files: seq<File>): seq<string> {
    seq(|files|, i requires 0 <= i < |files| => Paths.Base(files[i].path))
  }

  ghost predicate Complete(names: set<string>, files: seq<File>) {
    forall i :: 0 <= i < |files| ==> files[i].path in MatchedPaths(names, files)
  }

  lemma {:induction false} DistinctSize<T>(s: seq<T>)
    requires Distinct(s)
    ensures |Elements(s)| == |s|
  {
    if s != [] {
      var init := s[..|s| - 1];
      var last := s[|s| - 1];
      DistinctSize(init);
      assert Elements(s) == Elements(init) + {last};
    }
  }

  lemma SubsetOfSameSize<T>(a: set<T>, b: set<T>)
    requires a <= b && |a| == |b|
    ensures a == b
  {
    assert |b| == |a| + |b - a|;
  }

  predicate IsOnly(files: seq<File>, name: string, i: nat)
    requires i < |files|
  {
    forall j :: 0 <= j < |files| ==> (Paths.Base(files[j].path) == name <==> j == i)
  }

  ghost predicate ServesOneFile(files: seq<File>, name: string) {
    exists i :: 0 <= i < |files| && IsOnly(files, name, i)
  }

  /** With distinct paths and equal counts every file finds a template exactly when the base names are distinct and
      are the template names; then each template serves exactly one file. */
  lemma MatchingIsComplete(names: set<string>, files: seq<File>)
    requires Distinct(PathsOf(files)) && |names| == |files|
    ensures Complete(names, files) <==> Distinct(Bases(files)) && Elements(Bases(files)) == names
    ensures Complete(names, files) ==> forall n :: n in names ==> ServesOneFile(files, n)
  {
    var bases := Bases(files);
    if Complete(names, files) {
      forall i | 0 <= i < |files| ensures IsFirst(files, i) && bases[i] in names {
        assert files[i].path in MatchedPaths(names, files);
        var k :| 0 <= k < |files| && Paths.Base(files[k].path) in names && IsFirst(files, k) && files[k].path == files[i].path;
        assert PathsOf(files)[k] == PathsOf(files)[i];
        assert k == i;
      }
      DistinctSize(bases);
      SubsetOfSameSize(Elements(bases), names);
      forall n | n in names ensures ServesOneFile(files, n) {
        assert n in Elements(bases);
        var i :| 0 <= i < |bases| && bases[i] == n;
        forall j | 0 <= j < |files| ensures Paths.Base(files[j].path) == n <==> j == i {
          assert bases[j] == bases[i] <==> j == i;
        }
        assert IsOnly(files, n, i);
      }
    } else if Distinct(bases) && (Elements(bases)) == names {
      forall i | 0 <= i < |files| ensures files[i].path in MatchedPaths(names, files) {
        assert bases[i] in bases;
        forall j | 0 <= j < i ensures Paths.Base(files[j].path) != Paths.Base(files[i].path) {
          assert bases[j] != bases[i];
        }
      }
    }
  }
}
