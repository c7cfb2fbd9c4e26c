/** The start-up check of `check_required_packages`: which required packages cannot
    be imported. */
module Packages {

  const Required: seq<string> :=
    ["PyGithub", "python-dotenv", "watchdog", "schedule", "requests", "beautifulsoup4", "psutil"]

  /** The module imported to test a package: three distribution names differ from
      their module names, the rest are imported under their own name. */
  function ModuleName(package: string): (m: string)
    ensures package !in {"PyGithub", "python-dotenv", "beautifulsoup4"} ==> m == package
  {
    if package == "PyGithub" then "github"
    else if package == "python-dotenv" then "dotenv"
    else if package == "beautifulsoup4" then "bs4"
    else package
  }

  /** No two required packages are imported through the same module, so a missing
      module points to exactly one package. */
  lemma ModuleNamesDistinct(i: nat, j: nat)
    requires i < j < |Required|
    ensures ModuleName(Required[i]) != ModuleName(Required[j])
  {
  }

  /** `a` is `b` with some elements left out, the rest in their order. */
  ghost predicate IsSubsequence(a: seq<string>, b: seq<string>)
    decreases |b|
  {
    if b == [] then a == []
    else
      || (a != [] && a[|a| - 1] == b[|b| - 1] && IsSubsequence(a[..|a| - 1], b[..|b| - 1]))
      || IsSubsequence(a, b[..|b| - 1])
  }

  /** Extending both lists by the same element, or only the longer one, keeps a
      subsequence a subsequence. */
  lemma SubsequenceExtend(a: seq<string>, b: seq<string>, x: string)
    requires IsSubsequence(a, b)
    ensures IsSubsequence(a + [x], b + [x])
    ensures IsSubsequence(a, b + [x])
  {
    assert (a + [x])[..|a|] == a;
    assert (b + [x])[..|b|] == b;
  }

  /** The loop of `check_required_packages`. `importable` is the set of module names
      `importlib.import_module` finds; the result is the list handed to the install
      dialog, which is shown when it is non-empty. */
  method MissingPackages(importable: set<string>) returns (missing: seq<string>)
    ensures forall p :: p in missing <==> p in Required && ModuleName(p) !in importable
    ensures IsSubsequence(missing, Required)
    ensures missing == [] <==> forall i :: 0 <= i < |Required| ==> ModuleName(Required[i]) in importable
  {
    missing := [];
    for i := 0 to |Required|
      invariant forall p :: p in missing <==> p in Required[..i] && ModuleName(p) !in importable
      invariant IsSubsequence(missing, Required[..i])
    {
      var package := Required[i];
      assert Required[..i + 1] == Required[..i] + [package];
      SubsequenceExtend(missing, Required[..i], package);
      if ModuleName(package) !in importable {
        missing := missing + [package];
      }
    }
    assert Required[..|Required|] == Required;
    if missing != [] {
      assert missing[0] in missing;
    }
  }
}
