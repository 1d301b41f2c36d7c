/**
  The entry point: load the manifest, run the dnf installer and then the pip
  installer on the lock files left by the first, and decide the final
  message and the exit status. The `--no-pip` flag is an input.
 */
module Orchestrator {
  import opened Runner
  import opened Installer
  import opened Config

  /** How a run ends, by its last log message. */
  datatype Verdict =
    | Aborted              // nothing to install: the manifest is missing or invalid
    | Succeeded            // every installer that ran returned true
    | CompletedWithErrors  // some installer that ran returned false

  /** One start-up run: its verdict, which installers were called, the commands issued in order, and the lock files after it. */
  datatype Report = Report(verdict: Verdict, ranDnf: bool, ranPip: bool, issued: seq<Command>, locks: Locks)

  /** The process exit status: only an aborted run exits non-zero. */
  function ExitCode(b: Report): (r: int)
    ensures r != 0 <==> b.verdict == Aborted
    ensures r == 0 || r == 1
  {
    if b.verdict == Aborted then 1 else 0
  }

  /** No pip command comes before a dnf command. */
  ghost predicate DnfFirst(cs: seq<Command>)
  {
    forall i, j :: 0 <= i < j < |cs| && cs[j].tool == Dnf ==> cs[i].tool == Dnf
  }

  lemma DnfFirstAppend(a: seq<Command>, b: seq<Command>)
    requires forall c :: c in a ==> c.tool == Dnf
    requires forall c :: c in b ==> c.tool == Pip
    ensures DnfFirst(a + b)
  {
    forall k | 0 <= k < |a|
      ensures (a + b)[k].tool == Dnf
    {
      assert (a + b)[k] == a[k] && a[k] in a;
    }
    forall k | |a| <= k < |a + b|
      ensures (a + b)[k].tool == Pip
    {
      assert (a + b)[k] == b[k - |a|] && b[k - |a|] in b;
    }
  }

  /** `main`. */
  function Boot(v: Variant, m: Manifest, noPip: bool, locks: Locks, run: Command -> Completion): (b: Report)
    // exit status 1 exactly when the loader returned `(None, None)`, that is, when the manifest is unusable
    ensures ExitCode(b) == 1 <==> Load(m) == Loaded(None, None)
    ensures ExitCode(b) == 1 <==> !Usable(m)
    ensures b.verdict == Aborted ==> b.issued == [] && b.locks == locks && !b.ranDnf && !b.ranPip
    // the dnf installer is called exactly for a non-empty dnf list
    ensures b.ranDnf <==> Usable(m) && Load(m).dnf.value != []
    // the pip installer is called exactly for a non-empty pip list without `--no-pip`
    ensures b.ranPip <==> Usable(m) && Load(m).pip.value != [] && !noPip
    // a command is only issued by an installer that was called
    ensures forall c :: c in b.issued ==> (c.tool == Dnf ==> b.ranDnf) && (c.tool == Pip ==> b.ranPip)
    // all dnf commands come before all pip commands
    ensures DnfFirst(b.issued)
    // errors are reported exactly when an issued install command failed
    ensures b.verdict == CompletedWithErrors <==> SomeInstallFailed(b.issued, run)
    // after a load, the run is the dnf installer's call followed by the pip branch on the locks it left:
    // its commands, the final locks, and success exactly when both returned true
    ensures Usable(m) ==>
              var d := InstallPackages(v, Dnf, Load(m).dnf.value, locks, run);
              var p := PipStep(v, Load(m).pip.value, noPip, d.locks, run);
              b.issued == d.issued + p.issued && b.locks == p.locks && (b.verdict == Succeeded <==> d.ok && p.ok)
  {
    var loaded := Load(m);
    if loaded.dnf.None? && loaded.pip.None? then
      Report(Aborted, false, false, [], locks)
    else
      Dispatch(v, loaded.dnf.value, loaded.pip.value, noPip, locks, run)
  }

  /** The part of `main` after a successful load: both installer branches and the verdict. */
  function Dispatch(v: Variant, dnf: seq<string>, pip: seq<string>, noPip: bool, locks: Locks,
                    run: Command -> Completion): (b: Report)
    ensures b.verdict != Aborted
    ensures b.ranDnf <==> dnf != []
    ensures b.ranPip <==> pip != [] && !noPip
    ensures forall c :: c in b.issued ==> (c.tool == Dnf ==> b.ranDnf) && (c.tool == Pip ==> b.ranPip)
    ensures DnfFirst(b.issued)
    ensures b.verdict == CompletedWithErrors <==> SomeInstallFailed(b.issued, run)
    ensures var d := InstallPackages(v, Dnf, dnf, locks, run);
            var p := PipStep(v, pip, noPip, d.locks, run);
            b.issued == d.issued + p.issued && b.locks == p.locks && (b.verdict == Succeeded <==> d.ok && p.ok)
  {
    var d := DnfStep(v, dnf, locks, run);
    var p := PipStep(v, pip, noPip, d.locks, run);
    Combine(d, p, dnf != [], pip != [] && !noPip, run)
  }

  /** The report of a run whose two installer branches ended in `d` and `p`. */
  function Combine(d: Step, p: Step, ranDnf: bool, ranPip: bool, run: Command -> Completion): (b: Report)
    requires forall c :: c in d.issued ==> c.tool == Dnf
    requires forall c :: c in p.issued ==> c.tool == Pip
    requires !ranDnf ==> d.issued == []
    requires !ranPip ==> p.issued == []
    requires d.ok <==> !SomeInstallFailed(d.issued, run)
    requires p.ok <==> !SomeInstallFailed(p.issued, run)
    ensures b.verdict != Aborted
    ensures b.ranDnf == ranDnf && b.ranPip == ranPip
    ensures b.issued == d.issued + p.issued && b.locks == p.locks
    ensures b.verdict == Succeeded <==> d.ok && p.ok
    ensures forall c :: c in b.issued ==> (c.tool == Dnf ==> b.ranDnf) && (c.tool == Pip ==> b.ranPip)
    ensures DnfFirst(b.issued)
    ensures b.verdict == CompletedWithErrors <==> SomeInstallFailed(b.issued, run)
  {
    SomeInstallFailedAppend(d.issued, p.issued, run);
    DnfFirstAppend(d.issued, p.issued);
    assert forall c :: c in d.issued + p.issued <==> c in d.issued || c in p.issued;
    Report(if d.ok && p.ok then Succeeded else CompletedWithErrors, ranDnf, ranPip, d.issued + p.issued, p.locks)
  }

  /** The dnf branch of `main`: the installer is called only for a non-empty list. */
  function DnfStep(v: Variant, packages: seq<string>, locks: Locks, run: Command -> Completion): (r: Step)
    ensures r == InstallPackages(v, Dnf, packages, locks, run)
  {
    if packages != [] then InstallPackages(v, Dnf, packages, locks, run) else Step(true, [], locks)
  }

  /** The pip branch of `main`: the installer is called only for a non-empty list without `--no-pip`. */
  function PipStep(v: Variant, packages: seq<string>, noPip: bool, locks: Locks, run: Command -> Completion): (r: Step)
    ensures noPip ==> r == Step(true, [], locks)
    ensures !noPip ==> r == InstallPackages(v, Pip, packages, locks, run)
  {
    if packages != [] && !noPip then InstallPackages(v, Pip, packages, locks, run) else Step(true, [], locks)
  }

  /**
    With a lock file per family, a run in which everything succeeded makes
    the next run with the same manifest and flag quiet: no command is issued,
    whatever the commands would now do.
   */
  lemma SecondBootIsQuiet(m: Manifest, noPip: bool, locks: Locks,
                          run1: Command -> Completion, run2: Command -> Completion)
    requires Boot(Intended, m, noPip, locks, run1).verdict == Succeeded
    ensures var first := Boot(Intended, m, noPip, locks, run1);
            var second := Boot(Intended, m, noPip, first.locks, run2);
            second.verdict == Succeeded && second.issued == [] && second.locks == first.locks
  {
    var loaded := Load(m);
    var first := Boot(Intended, m, noPip, locks, run1);
    assert Usable(m);
    var d := InstallPackages(Intended, Dnf, loaded.dnf.value, locks, run1);
    var p := PipStep(Intended, loaded.pip.value, noPip, d.locks, run1);
    assert first.locks == p.locks;
    assert d.ok && p.ok;
    if loaded.dnf.value != [] {
      // the pip installer touches only its own lock file
      assert LockPath(Intended, Dnf) in p.locks && p.locks[LockPath(Intended, Dnf)] == Canonical(loaded.dnf.value);
    }
  }

  /** Every command succeeds. */
  ghost predicate AllSucceed(run: Command -> Completion)
  {
    forall c :: RunCommand(run(c)).succeeded
  }

  /** When every command succeeds, a run on a usable manifest succeeds. */
  lemma AllSucceedingRunSucceeds(v: Variant, m: Manifest, noPip: bool, locks: Locks, run: Command -> Completion)
    requires Usable(m)
    requires AllSucceed(run)
    ensures Boot(v, m, noPip, locks, run).verdict == Succeeded
  {
  }

  /** An empty mapping or an empty document installs nothing and exits 0. */
  lemma EmptyManifestInstallsNothing(v: Variant, noPip: bool, locks: Locks, run: Command -> Completion)
    ensures var b := Boot(v, Parsed(Mapping(map[])), noPip, locks, run);
            b.verdict == Succeeded && ExitCode(b) == 0 && b.issued == [] && b.locks == locks
    ensures var b := Boot(v, Parsed(Null), noPip, locks, run);
            b.verdict == Succeeded && ExitCode(b) == 0 && b.issued == [] && b.locks == locks
  {
  }

  /** A manifest whose dnf entry is a string rather than a list aborts with exit status 1 and issues nothing. */
  lemma ScalarFieldAborts(v: Variant, text: string, pip: Node, noPip: bool, locks: Locks, run: Command -> Completion)
    ensures var b := Boot(v, Parsed(Mapping(map[DnfKey := Scalar(text), PipKey := pip])), noPip, locks, run);
            ExitCode(b) == 1 && b.issued == [] && b.locks == locks
  {
  }

  /** The two lists of the start-up example: `curl` and `git` through dnf, `requests` through pip. */
  const ExampleDnf: seq<string> := ["curl", "git"]
  const ExamplePip: seq<string> := ["requests"]

  /** The manifest of the start-up example. */
  function ExampleManifest(): Manifest
  {
    ManifestOf(ExampleDnf, ExamplePip)
  }

  /** The example manifest loads both lists and hands them to the two installer branches. */
  lemma ExampleBoot(v: Variant, locks: Locks, run: Command -> Completion)
    ensures Boot(v, ExampleManifest(), false, locks, run) == Dispatch(v, ExampleDnf, ExamplePip, false, locks, run)
  {
    LoadManifestOf(ExampleDnf, ExamplePip);
  }

  lemma ExampleCanonicals()
    ensures Canonical(ExampleDnf) == "curl git"
    ensures Canonical(ExamplePip) == "requests"
  {
    assert Strings.Below("curl", "git");
    assert Strings.Sort(["git"]) == ["git"];
    assert Strings.Sort(["curl", "git"]) == Strings.Insert("curl", ["git"]) == ["curl", "git"];
    assert Strings.Sort(["requests"]) == ["requests"];
  }

  /**
    With one lock file per family, the example installs each family once
    and records each family's packages in its own lock file.
   */
  lemma IntendedExample(run: Command -> Completion)
    requires AllSucceed(run)
    ensures var b := Boot(Intended, ExampleManifest(), false, map[], run);
            && b.verdict == Succeeded
            && ExitCode(b) == 0
            && b.issued == [Command(Dnf, Install, "curl git"), Command(Pip, Install, "requests")]
            && b.locks == map[DnfLock := "curl git", PythonLock := "requests"]
  {
    var d, p := IntendedSteps(run);
    ExampleBoot(Intended, map[], run);
    AllSucceedingRunSucceeds(Intended, ExampleManifest(), false, map[], run);
  }

  /** The two installer calls of the example with one lock file per family. */
  lemma IntendedSteps(run: Command -> Completion) returns (d: Step, p: Step)
    requires AllSucceed(run)
    ensures d == InstallPackages(Intended, Dnf, ExampleDnf, map[], run)
    ensures d == Step(true, [Command(Dnf, Install, "curl git")], map[DnfLock := "curl git"])
    ensures p == PipStep(Intended, ExamplePip, false, d.locks, run)
    ensures p == Step(true, [Command(Pip, Install, "requests")], map[DnfLock := "curl git", PythonLock := "requests"])
  {
    d := IntendedDnfStep(run);
    p := IntendedPipStep(run);
  }

  lemma IntendedDnfStep(run: Command -> Completion) returns (d: Step)
    requires AllSucceed(run)
    ensures d == InstallPackages(Intended, Dnf, ExampleDnf, map[], run)
    ensures d == Step(true, [Command(Dnf, Install, "curl git")], map[DnfLock := "curl git"])
  {
    ExampleCanonicals();
    d := InstallPackages(Intended, Dnf, ExampleDnf, map[], run);
  }

  lemma IntendedPipStep(run: Command -> Completion) returns (p: Step)
    requires AllSucceed(run)
    ensures p == PipStep(Intended, ExamplePip, false, map[DnfLock := "curl git"], run)
    ensures p == Step(true, [Command(Pip, Install, "requests")], map[DnfLock := "curl git", PythonLock := "requests"])
  {
    ExampleCanonicals();
    p := InstallPackages(Intended, Pip, ExamplePip, map[DnfLock := "curl git"], run);
  }

  /**
    As written, both installers share one lock file. In the same example the
    pip installer finds the dnf packages recorded there, issues an uninstall
    (of its own packages) before installing, and overwrites the record; the
    next run then finds the pip packages recorded and reinstalls everything.
   */
  lemma SharedLockReinstallsEveryBoot(run: Command -> Completion)
    requires AllSucceed(run)
    ensures var first := Boot(AsWritten, ExampleManifest(), false, map[], run);
            var second := Boot(AsWritten, ExampleManifest(), false, first.locks, run);
            && first.verdict == Succeeded
            && first.issued == [Command(Dnf, Install, "curl git"),
                                Command(Pip, Remove, "requests"), Command(Pip, Install, "requests")]
            && first.locks == map[PythonLock := "requests"]
            && second.issued == [Command(Dnf, Remove, "curl git"), Command(Dnf, Install, "curl git"),
                                 Command(Pip, Remove, "requests"), Command(Pip, Install, "requests")]
            && second.locks == first.locks
  {
    ExampleBoot(AsWritten, map[], run);
    ExampleBoot(AsWritten, map[PythonLock := "requests"], run);
    SharedLockFirstIssued(run);
    SharedLockFirstLocks(run);
    AllSucceedingRunSucceeds(AsWritten, ExampleManifest(), false, map[], run);
    SharedLockSecondIssued(run);
    SharedLockSecondLocks(run);
  }

  /** The commands of the example's first start, as written. */
  lemma SharedLockFirstIssued(run: Command -> Completion)
    requires AllSucceed(run)
    ensures Dispatch(AsWritten, ExampleDnf, ExamplePip, false, map[], run).issued
            == [Command(Dnf, Install, "curl git"), Command(Pip, Remove, "requests"), Command(Pip, Install, "requests")]
  {
    var d, p := SharedLockFirstSteps(run);
  }

  /** The lock files after the example's first start, as written: only the pip list is recorded. */
  lemma SharedLockFirstLocks(run: Command -> Completion)
    requires AllSucceed(run)
    ensures Dispatch(AsWritten, ExampleDnf, ExamplePip, false, map[], run).locks == map[PythonLock := "requests"]
  {
    var d, p := SharedLockFirstSteps(run);
  }

  /** The commands of the example's second start, as written: both families are removed and reinstalled. */
  lemma SharedLockSecondIssued(run: Command -> Completion)
    requires AllSucceed(run)
    ensures Dispatch(AsWritten, ExampleDnf, ExamplePip, false, map[PythonLock := "requests"], run).issued
            == [Command(Dnf, Remove, "curl git"), Command(Dnf, Install, "curl git"),
                Command(Pip, Remove, "requests"), Command(Pip, Install, "requests")]
  {
    var _, p := SharedLockFirstSteps(run);
    var d := SharedLockSecondDnfStep(run);
  }

  /** The lock files after the example's second start, as written: the same as after the first. */
  lemma SharedLockSecondLocks(run: Command -> Completion)
    requires AllSucceed(run)
    ensures Dispatch(AsWritten, ExampleDnf, ExamplePip, false, map[PythonLock := "requests"], run).locks
            == map[PythonLock := "requests"]
  {
    var _, p := SharedLockFirstSteps(run);
    var d := SharedLockSecondDnfStep(run);
  }

  /** The two installer calls of the example's first start, as written: the pip installer overwrites the dnf record. */
  lemma SharedLockFirstSteps(run: Command -> Completion) returns (d: Step, p: Step)
    requires AllSucceed(run)
    ensures d == InstallPackages(AsWritten, Dnf, ExampleDnf, map[], run)
    ensures d == Step(true, [Command(Dnf, Install, "curl git")], map[PythonLock := "curl git"])
    ensures p == PipStep(AsWritten, ExamplePip, false, d.locks, run)
    ensures p == Step(true, [Command(Pip, Remove, "requests"), Command(Pip, Install, "requests")],
                      map[PythonLock := "requests"])
  {
    d := SharedLockFirstDnfStep(run);
    p := SharedLockFirstPipStep(run);
  }

  lemma SharedLockFirstDnfStep(run: Command -> Completion) returns (d: Step)
    requires AllSucceed(run)
    ensures d == InstallPackages(AsWritten, Dnf, ExampleDnf, map[], run)
    ensures d == Step(true, [Command(Dnf, Install, "curl git")], map[PythonLock := "curl git"])
  {
    ExampleCanonicals();
    d := InstallPackages(AsWritten, Dnf, ExampleDnf, map[], run);
  }

  lemma SharedLockFirstPipStep(run: Command -> Completion) returns (p: Step)
    requires AllSucceed(run)
    ensures p == InstallPackages(AsWritten, Pip, ExamplePip, map[PythonLock := "curl git"], run)
    ensures p == Step(true, [Command(Pip, Remove, "requests"), Command(Pip, Install, "requests")],
                      map[PythonLock := "requests"])
  {
    ExampleCanonicals();
    p := InstallPackages(AsWritten, Pip, ExamplePip, map[PythonLock := "curl git"], run);
  }

  /** The dnf call of the example's second start, as written: it finds the pip list recorded. */
  lemma SharedLockSecondDnfStep(run: Command -> Completion) returns (d: Step)
    requires AllSucceed(run)
    ensures d == InstallPackages(AsWritten, Dnf, ExampleDnf, map[PythonLock := "requests"], run)
    ensures d == Step(true, [Command(Dnf, Remove, "curl git"), Command(Dnf, Install, "curl git")],
                      map[PythonLock := "curl git"])
  {
    ExampleCanonicals();
    d := InstallPackages(AsWritten, Dnf, ExampleDnf, map[PythonLock := "requests"], run);
  }
}
