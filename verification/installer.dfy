/**
  The two package installers (system packages through dnf, Python packages
  through pip) and the lock file that memoises their last successful install.

  Both installers follow one algorithm, so one function models them, with the
  package family as a parameter. The lock files are a map from path to
  content holding the lock files that exist. `Variant.AsWritten` follows the
  installer as written: both families use the same lock path, and the stale
  removal names the newly requested packages. `Variant.Intended` gives each
  family its own lock path and removes the previously recorded packages.
 */
module Installer {
  import opened Strings
  import opened Runner

  datatype Family = Dnf | Pip

  datatype Verb = Install | Remove

  /** A shell command the installer issues: a tool, what it does and to which packages. */
  datatype Command = Command(tool: Family, verb: Verb, packages: string)

  datatype Variant = AsWritten | Intended

  /**
    The lock files: the one both installers use as written, and the one the
    dnf installer's variable name points to.
   */
  datatype LockFile = PythonLock | DnfLock

  function PathOf(f: LockFile): string
  {
    match f
    case PythonLock => "/extra_python_packages.lock"
    case DnfLock => "/extra_dnf_packages.lock"
  }

  /** Lock files that exist, with their content. */
  type Locks = map<LockFile, string>

  const Space: char := ' '

  function LockPath(v: Variant, tool: Family): (p: LockFile)
    ensures v == AsWritten ==> p == PythonLock
    ensures v == Intended ==> (p == DnfLock <==> tool == Dnf)
  {
    if v == Intended && tool == Dnf then DnfLock else PythonLock
  }

  /**
    The paths behind the lock files: as written both families write the same
    file; with the intended layout they write two different files.
   */
  lemma LockPathsOnDisk()
    ensures PathOf(LockPath(AsWritten, Dnf)) == PathOf(LockPath(AsWritten, Pip)) == "/extra_python_packages.lock"
    ensures PathOf(LockPath(Intended, Dnf)) == "/extra_dnf_packages.lock"
    ensures PathOf(LockPath(Intended, Dnf)) != PathOf(LockPath(Intended, Pip))
  {
    assert PathOf(DnfLock)[7] != PathOf(PythonLock)[7];
  }

  /** The shell text of a command; `python` is the running interpreter's path. */
  function CommandLine(c: Command, python: string): (line: string)
    // a dnf command starts with `dnf`, a pip command with the interpreter running pip as a module
    ensures c.tool == Dnf ==> |line| > 10 && line[..4] == "dnf "
    ensures c.tool == Pip ==> |line| > |python| + 8 && line[..|python| + 8] == python + " -m pip "
    // only a dnf install passes an option (`-y`, answering yes in advance) before its verb
    ensures c.tool == Dnf ==> (line[4] == '-' <==> c.verb == Install)
    ensures |line| > |c.packages|
    ensures line[|line| - |c.packages|..] == c.packages
    ensures line[|line| - |c.packages| - 1] == Space
  {
    var prefix :=
      match (c.tool, c.verb)
      case (Dnf, Install) => "dnf -y install"
      case (Dnf, Remove) => "dnf remove"
      case (Pip, Install) => python + " -m pip install"
      case (Pip, Remove) => python + " -m pip uninstall";
    prefix + [Space] + c.packages
  }

  /** The lock-file form of a package list: sorted, then joined with single spaces. */
  function Canonical(packages: seq<string>): string
  {
    Join(Sort(packages), Space)
  }

  /** Splitting the lock string of a non-empty list of space-free names at spaces gives the sorted list. */
  lemma {:induction false} CanonicalSplitsToSorted(packages: seq<string>)
    requires |packages| > 0
    requires forall i :: 0 <= i < |packages| ==> Space !in packages[i]
    ensures Split(Canonical(packages), Space) == Sort(packages)
  {
    NoSpaceSurvivesSort(packages);
    SplitJoin(Sort(packages), Space);
  }

  /** The package string the stale-removal command names. */
  function StaleSet(v: Variant, recorded: string, requested: string): string
  {
    if v == AsWritten then requested else recorded
  }

  /** Some install command among `cs` failed when `run` ran it. */
  predicate SomeInstallFailed(cs: seq<Command>, run: Command -> Completion)
  {
    exists c :: c in cs && c.verb == Install && !RunCommand(run(c)).succeeded
  }

  lemma SomeInstallFailedAppend(a: seq<Command>, b: seq<Command>, run: Command -> Completion)
    ensures SomeInstallFailed(a + b, run) <==> SomeInstallFailed(a, run) || SomeInstallFailed(b, run)
  {
    assert forall c :: c in a + b <==> c in a || c in b;
  }

  /** What one installer call did: its boolean result, the commands issued in order, and the lock files after it. */
  datatype Step = Step(ok: bool, issued: seq<Command>, locks: Locks)

  /**
    One installer call. `run` gives the completion of every command that is
    issued; only the install command's completion is consulted.
   */
  function InstallPackages(v: Variant, tool: Family, packages: seq<string>, locks: Locks,
                           run: Command -> Completion): (r: Step)
    // an empty list succeeds at once, without a command and without touching the lock
    ensures packages == [] ==> r == Step(true, [], locks)
    // the lock already records this list: success, no command, lock untouched
    ensures packages != [] && LockPath(v, tool) in locks && locks[LockPath(v, tool)] == Canonical(packages) ==>
              r == Step(true, [], locks)
    // the lock records another list: one removal, then one install, in that order
    ensures packages != [] && LockPath(v, tool) in locks && locks[LockPath(v, tool)] != Canonical(packages) ==>
              r.issued == [Command(tool, Remove, StaleSet(v, locks[LockPath(v, tool)], Canonical(packages))),
                           Command(tool, Install, Canonical(packages))]
    // no lock: exactly one install
    ensures packages != [] && LockPath(v, tool) !in locks ==>
              r.issued == [Command(tool, Install, Canonical(packages))]
    // the result is false exactly when an install command was issued and failed
    ensures !r.ok <==> |r.issued| > 0 && !RunCommand(run(r.issued[|r.issued| - 1])).succeeded
    ensures !r.ok <==> SomeInstallFailed(r.issued, run)
    ensures forall c :: c in r.issued ==> c.tool == tool
    ensures forall c :: c in r.issued && c.verb == Install ==> c == r.issued[|r.issued| - 1]
    // after a success the lock records this list; after a failure the locks are as they were
    ensures r.ok && packages != [] ==> LockPath(v, tool) in r.locks && r.locks[LockPath(v, tool)] == Canonical(packages)
    ensures !r.ok ==> r.locks == locks
    // no other lock file changes
    ensures r.locks == locks || r.locks == locks[LockPath(v, tool) := Canonical(packages)]
  {
    if packages == [] then
      Step(true, [], locks)
    else
      var requested := Canonical(packages);
      var path := LockPath(v, tool);
      if path in locks && locks[path] == requested then
        Step(true, [], locks)
      else
        var removal := if path in locks then [Command(tool, Remove, StaleSet(v, locks[path], requested))] else [];
        var install := Command(tool, Install, requested);
        var ok := RunCommand(run(install)).succeeded;
        Step(ok, removal + [install], if ok then locks[path := requested] else locks)
  }

  /** The lock string of a list does not depend on the list's order. */
  lemma {:induction false} CanonicalPermutation(p: seq<string>, q: seq<string>)
    requires multiset(p) == multiset(q)
    ensures Canonical(p) == Canonical(q)
  {
    SortPermutation(p, q);
  }

  /**
    For non-empty lists of names without spaces, two lists have the same lock
    string exactly when they hold the same names the same number of times.
   */
  lemma {:induction false} CanonicalMatchIffSamePackages(p: seq<string>, q: seq<string>)
    requires |p| > 0 && |q| > 0
    requires forall i :: 0 <= i < |p| ==> Space !in p[i]
    requires forall i :: 0 <= i < |q| ==> Space !in q[i]
    ensures Canonical(p) == Canonical(q) <==> multiset(p) == multiset(q)
  {
    if Canonical(p) == Canonical(q) {
      CanonicalSplitsToSorted(p);
      CanonicalSplitsToSorted(q);
      assert Sort(p) == Sort(q);
    }
    if multiset(p) == multiset(q) {
      CanonicalPermutation(p, q);
    }
  }

  lemma NoSpaceSurvivesSort(p: seq<string>)
    requires forall i :: 0 <= i < |p| ==> Space !in p[i]
    ensures forall i :: 0 <= i < |Sort(p)| ==> Space !in Sort(p)[i]
  {
    forall i | 0 <= i < |Sort(p)|
      ensures Space !in Sort(p)[i]
    {
      assert Sort(p)[i] in multiset(Sort(p));
    }
  }

  /**
    A name containing a space is not told apart from the names it is made
    of: the lock written for `["a b"]` also matches `["a", "b"]`.
   */
  lemma CanonicalMergesSpacedNames()
    ensures Canonical(["a b"]) == Canonical(["a", "b"])
    ensures multiset(["a b"]) != multiset(["a", "b"])
  {
    assert Below("a", "b");
    assert Sort(["b"]) == ["b"];
    assert Sort(["a", "b"]) == Insert("a", ["b"]) == ["a", "b"];
    assert "a b" !in multiset(["a", "b"]);
  }

  /** Permuting the requested list changes nothing about the call. */
  lemma {:induction false} PermutationInvariant(v: Variant, tool: Family, p: seq<string>, q: seq<string>, locks: Locks,
                             run: Command -> Completion)
    requires multiset(p) == multiset(q)
    ensures InstallPackages(v, tool, p, locks, run) == InstallPackages(v, tool, q, locks, run)
  {
    CanonicalPermutation(p, q);
    if p == [] {
      assert |multiset(q)| == 0;
    } else {
      assert |multiset(q)| == |multiset(p)| > 0;
    }
  }

  /** The removal command's completion never influences the call. */
  lemma RemovalOutcomeIgnored(v: Variant, tool: Family, packages: seq<string>, locks: Locks,
                              run1: Command -> Completion, run2: Command -> Completion)
    requires forall c: Command :: c.verb == Install ==> run1(c) == run2(c)
    ensures InstallPackages(v, tool, packages, locks, run1) == InstallPackages(v, tool, packages, locks, run2)
  {
  }

  /**
    Memoisation: after a successful call, calling again with the same
    packages in any order issues nothing and succeeds, whatever the commands
    would do.
   */
  lemma {:induction false} SecondCallIsQuiet(v: Variant, tool: Family, p: seq<string>, q: seq<string>, locks: Locks,
                          run1: Command -> Completion, run2: Command -> Completion)
    requires InstallPackages(v, tool, p, locks, run1).ok
    requires multiset(p) == multiset(q)
    ensures var after := InstallPackages(v, tool, p, locks, run1).locks;
            InstallPackages(v, tool, q, after, run2) == Step(true, [], after)
  {
    var after := InstallPackages(v, tool, p, locks, run1).locks;
    PermutationInvariant(v, tool, p, q, after, run2);
  }

  /**
    A failed call leaves the lock files as they were, so calling again with
    the same packages issues the same commands again rather than assuming
    they are installed.
   */
  lemma FailedCallRetries(v: Variant, tool: Family, packages: seq<string>, locks: Locks,
                          run1: Command -> Completion, run2: Command -> Completion)
    requires !InstallPackages(v, tool, packages, locks, run1).ok
    ensures var r := InstallPackages(v, tool, packages, locks, run1);
            InstallPackages(v, tool, packages, r.locks, run2).issued == r.issued
  {
  }

  /**
    As written, the stale removal names the requested packages, so with the
    lock recording `a` and `b` requested the tool is told to remove `b` and
    `a` is left installed.
   */
  lemma StaleRemovalNamesRequestedSet(run: Command -> Completion)
    ensures InstallPackages(AsWritten, Dnf, ["b"], map[PythonLock := "a"], run).issued
              == [Command(Dnf, Remove, "b"), Command(Dnf, Install, "b")]
  {
    var locks := map[PythonLock := "a"];
    assert Canonical(["b"]) == "b";
    assert LockPath(AsWritten, Dnf) == PythonLock && PythonLock in locks && locks[PythonLock] != "b";
  }

  /**
    As written, whatever the lock recorded, every removal command names the
    packages just requested.
   */
  lemma AsWrittenRemovalNamesRequestedSet(tool: Family, packages: seq<string>, locks: Locks,
                                          run: Command -> Completion)
    ensures var r := InstallPackages(AsWritten, tool, packages, locks, run);
            forall c :: c in r.issued && c.verb == Remove ==> c.packages == Canonical(packages)
  {
  }

  /** The text of the commands issued in the examples. */
  lemma ExampleCommandLines(python: string)
    ensures CommandLine(Command(Dnf, Install, "curl git"), python) == "dnf -y install curl git"
    ensures CommandLine(Command(Dnf, Remove, "curl git"), python) == "dnf remove curl git"
    ensures CommandLine(Command(Pip, Install, "requests"), python) == python + " -m pip install requests"
    ensures CommandLine(Command(Pip, Remove, "requests"), python) == python + " -m pip uninstall requests"
  {
    assert "dnf -y install" + [Space] + "curl git" == "dnf -y install curl git";
    assert "dnf remove" + [Space] + "curl git" == "dnf remove curl git";
    assert python + " -m pip install" + [Space] + "requests" == python + " -m pip install requests";
    assert python + " -m pip uninstall" + [Space] + "requests" == python + " -m pip uninstall requests";
  }

  /** With the intended removal, a stale lock's own packages are what is removed. */
  lemma IntendedRemovalNamesRecordedSet(tool: Family, packages: seq<string>, locks: Locks,
                                        run: Command -> Completion)
    requires packages != []
    requires LockPath(Intended, tool) in locks
    ensures var r := InstallPackages(Intended, tool, packages, locks, run);
            forall c :: c in r.issued && c.verb == Remove ==> c.packages == locks[LockPath(Intended, tool)]
  {
  }
}
