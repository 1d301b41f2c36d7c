# Package installer for VHPC containers — a Dafny model

`package-installer.py` runs once when a container starts. It reads the manifest
`/packages.yml`, installs the listed system packages with `dnf` and the listed
Python packages with `pip`, and records each successful install in a lock file
so that the next start can skip work that is already done.

This project models the decision core of that script, with all I/O taken out:

- **Strings** (`strings.dfy`): Python's order on `str` (`Below`), `sorted` on a
  list of names (`Sort`, an insertion sort, with a proof that every sorted
  arrangement of the same names is the same sequence), `" ".join` (`Join`) and
  `str.split` (`Split`). `Split` undoes `Join` only on non-empty lists whose
  names contain no space: `Join([])` and `Join([""])` are both empty, and
  `["a b"]` and `["a", "b"]` join to the same text.
- **Runner** (`runner.dfy`): `run_command`. A command's completion (exit status
  and captured streams, or a timeout) is an input; the model fixes how it becomes
  the `(succeeded, stdout, stderr)` triple.
- **Installer** (`installer.dfy`): `install_dnf_packages` and
  `install_python_packages`, one function with the package family as a
  parameter. The lock files that exist are a map from lock file to content;
  `PathOf` gives each lock file's path. A call returns its
  boolean result, the commands it issued in order, and the lock files after it.
  The outcome of each issued command comes from a function `run` passed in;
  only the install command's outcome is ever consulted.
- **Config** (`config.dfy`): `load_packages_config`, from what the filesystem and
  the YAML parser report (`Manifest`) to the pair of optional package lists.
- **Orchestrator** (`orchestrator.dfy`): `main`, from the manifest, the
  `--no-pip` flag, the lock files and the command outcomes to the verdict, the
  exit status, which installers were called, the commands issued and the lock
  files left behind.

Two behaviours of the installer differ from what the script evidently means to
do (see "## Findings"). The model carries both through a `Variant` parameter.
`Variant.AsWritten` is the code: both installers use the lock path
`/extra_python_packages.lock`, and the stale-removal command names the newly
requested packages. `Variant.Intended` gives the dnf installer its own lock path
and removes the previously recorded packages. Every contract of
`InstallPackages` and `Boot` holds for both variants. The intent is read off the
script itself: the dnf installer's lock variable is named
`extra_dnf_packages_lock` (package-installer.py:44), and the removal is logged
as "Removing stale extra dnf packages." (package-installer.py:51, and the pip
counterpart at :85), that is, a removal of what the lock recorded.

## Model

| member | source | states |
|---|---|---|
| Strings.Sort | package-installer.py:41 | the result is sorted in Python's string order and holds exactly the input's names, each as often as in the input |
| Strings.SortedUnique | package-installer.py:41 | two sorted sequences holding the same names the same number of times are equal, so the lock string does not depend on the sorting algorithm |
| Strings.SplitJoin | package-installer.py:42 | joining a non-empty list of names without the separator and splitting at the separator gives the list back |
| Strings.JoinSeparators | package-installer.py:42 | the joined text contains the separator exactly when the list has two or more names or a name contains it; the first name starts the text |
| Strings.JoinForgetsEmptyList | package-installer.py:42 | the empty list and the list holding one empty name join to the same text |
| Runner.RunCommand | package-installer.py:23-32 | a command succeeds exactly when it exited with status 0; a timeout is a failure with empty output and the error text "Timeout" |
| Installer.LockPath | package-installer.py:44 | as written both families use the lock file `/extra_python_packages.lock`; the intended layout gives dnf a lock file of its own |
| Installer.LockPathsOnDisk | package-installer.py:78 | as written the dnf lock and the pip lock (:44 and :78) are the same path `/extra_python_packages.lock`; with the intended layout the dnf lock is `/extra_dnf_packages.lock`, a different file |
| Installer.CommandLine | package-installer.py:52-54 | a dnf command line starts with `dnf `, and only the install carries an option (`-y`) before its verb; a pip command line starts with the interpreter followed by ` -m pip ` (:73); every command line ends with a space and the package string it was built from |
| Installer.ExampleCommandLines | package-installer.py:73-88 | the example's commands render as `dnf -y install curl git`, `dnf remove curl git`, `<python> -m pip install requests` and `<python> -m pip uninstall requests` |
| Installer.InstallPackages | package-installer.py:35-96 | empty list: true, no command, locks untouched; lock equal to the sorted space-joined list: true, no command; lock different: one removal then one install; no lock: one install only; false exactly when the issued install failed; success records the list in the lock; failure leaves every lock as it was; no other lock file changes |
| Installer.CanonicalSplitsToSorted | package-installer.py:41-42 | the lock string of a non-empty list of names without spaces splits at spaces into the sorted list, so it records the list exactly |
| Installer.CanonicalPermutation | package-installer.py:41-42 | the lock string of a list is the same for every reordering of the list |
| Installer.CanonicalMatchIffSamePackages | package-installer.py:41-47 | for non-empty lists of names without spaces, the lock string matches exactly when the two lists hold the same names equally often |
| Installer.CanonicalMergesSpacedNames | package-installer.py:42-47 | a name containing a space is confused with the names it is made of: `["a b"]` and `["a", "b"]` have the same lock string |
| Installer.PermutationInvariant | package-installer.py:41-42 | reordering the requested list changes nothing about an installer call: result, commands and locks |
| Installer.RemovalOutcomeIgnored | package-installer.py:50-54 | two command environments that agree on install commands give the same call, so the removal's outcome never matters |
| Installer.SecondCallIsQuiet | package-installer.py:45-58 | after a successful call, calling again with the same names in any order issues nothing and succeeds, whatever the commands would do |
| Installer.FailedCallRetries | package-installer.py:59-62 | after a failed call the next call with the same list issues the same commands again |
| Installer.StaleRemovalNamesRequestedSet | package-installer.py:50-54 | as written, with `a` recorded and `b` requested, the commands are "remove b" then "install b" |
| Installer.AsWrittenRemovalNamesRequestedSet | package-installer.py:50-54 | as written, whatever the lock recorded, every removal command names the packages just requested (also the pip uninstall at :86) |
| Installer.IntendedRemovalNamesRecordedSet | package-installer.py:50-52 | with the intended removal, a removal command names exactly the packages the lock recorded |
| Config.Load | package-installer.py:99-137 | both lists load or neither does; missing file, directory, read or parse error, a non-mapping document, or a non-list value under either key give `(None, None)`; a null document gives two empty lists; an absent key gives an empty list; a present list is returned as it is |
| Config.LoadManifestOf | package-installer.py:119-130 | a manifest holding two lists under the two keys loads exactly those lists |
| Orchestrator.Boot | package-installer.py:154-181 | exit status 1 exactly when the loader returned `(None, None)`, and then nothing runs; after a load, the commands are the dnf installer's followed by the pip branch's (run on the locks the dnf installer left), the locks are those the pip branch left, and the run succeeds exactly when both returned true; the dnf installer runs exactly for a non-empty dnf list; the pip installer exactly for a non-empty pip list without `--no-pip`; dnf commands precede pip commands; errors are reported exactly when an issued install failed, and never change the exit status |
| Orchestrator.Dispatch | package-installer.py:167-179 | after a successful load nothing aborts; the commands, the final locks and the success flag are those of the dnf installer's call followed by the pip branch; the dnf installer runs exactly for a non-empty list, the pip installer exactly for a non-empty list without `--no-pip`; errors are reported exactly when an issued install failed |
| Orchestrator.Combine | package-installer.py:167-179 | the run succeeds exactly when both branches returned true; the commands are the dnf branch's followed by the pip branch's, and the locks are those the pip branch left |
| Orchestrator.ExitCode | package-installer.py:163-165 | the process exits non-zero, with status 1, exactly when the run was aborted; every other run returns normally (status 0) |
| Orchestrator.DnfStep | package-installer.py:169-171 | the dnf branch is exactly the installer call: the `if dnf_packages:` guard changes nothing, because the installer itself succeeds at once on an empty list |
| Orchestrator.PipStep | package-installer.py:172-174 | with `--no-pip` the pip branch issues nothing and leaves the locks alone; without it the branch is exactly the installer call |
| Orchestrator.AllSucceedingRunSucceeds | package-installer.py:167-177 | when every command succeeds, a run on a usable manifest ends with "completed successfully" |
| Orchestrator.SecondBootIsQuiet | package-installer.py:45-58 | with one lock file per family, a fully successful start makes the next start with the same manifest issue no command |
| Orchestrator.EmptyManifestInstallsNothing | package-installer.py:116-120 | an empty mapping or an empty document installs nothing, succeeds and exits 0 |
| Orchestrator.ScalarFieldAborts | package-installer.py:122-124 | a string under `dnf_packages` aborts with exit status 1 and issues nothing |
| Orchestrator.IntendedExample | package-installer.py:154-181 | with one lock per family, `curl git` via dnf and `requests` via pip on a fresh container issue exactly two installs and leave two lock files |
| Orchestrator.SharedLockReinstallsEveryBoot | package-installer.py:44-91 | as written, the same example issues a pip uninstall on the first start, and on the second start removes and reinstalls both families |

## Left out

- Process execution (`subprocess.run`, the shell, the 300-second timeout): a command's completion is an input; the timeout value is only a constant.
- YAML parsing: the parsed document is an input. Elements inside a list are taken to be strings; the loader never checks them, and a list with non-string elements (which would make `sorted` or `join` raise) is not modelled.
- Filesystem access: the manifest's status, and the lock files as a map from lock file to content, are inputs and outputs. A lock path that exists but cannot be read is not modelled.
- Logging text, `argparse` and `sys.executable`: `--no-pip` is a boolean input and the interpreter path is a parameter of `CommandLine`.
- Orchestrator.Boot: two error paths that end the real process with status 1 after a successful load are not modelled, so "exit status 1 exactly when the loader returned `(None, None)`" holds only without them: `write_text` on a lock file raising (package-installer.py:57, :91, for instance on a read-only root), and `subprocess.run` raising anything other than `TimeoutExpired` (:26-28, such as a decoding error of the captured output under `text=True`), since only `TimeoutExpired` is caught (:30).
- Runner.RunCommand: for the same reason a completion is only ever an exit or a timeout; an exception escaping `subprocess.run` is not a possible input.
- Installer.CommandLine: the removal commands carry no non-interactive flag (`-y`), so in the real system they may wait for a confirmation that never comes and end by timeout; the model records the text but not how the tools react to it.
- Installer.InstallPackages: the removal command is recorded as issued, but its effect on the system is not modelled; the install's outcome is whatever `run` says.

## Findings

| source | as written | input that shows it | evidently intended | confidence | as-written member | corrected member |
|---|---|---|---|---|---|---|
| package-installer.py:44 | the dnf installer's lock (variable `extra_dnf_packages_lock`) is the same file as the pip installer's, `/extra_python_packages.lock` | manifest with `dnf_packages: [curl, git]` and `python_packages: [requests]`, no lock files, every command succeeding: the first start issues a pip uninstall, and every later start removes and reinstalls both families | a lock file per family, so a second start with the same manifest issues nothing | high; not executed | Orchestrator.SharedLockReinstallsEveryBoot | Orchestrator.SecondBootIsQuiet |
| package-installer.py:52 | the stale-removal command names the newly requested packages (`packages_str`), not the lock's content (`old_packages_str`) | lock recording `a`, packages `[b]`: issues "dnf remove b" then "dnf -y install b", and `a` is never removed | remove the packages the lock recorded, as the log line "Removing stale extra dnf packages." (:51) announces | medium; not executed | Installer.StaleRemovalNamesRequestedSet | Installer.IntendedRemovalNamesRecordedSet |
