# klp-build build-service driver, modelled in Dafny

klp-build builds kernel livepatches for SUSE Linux Enterprise codestreams.
Its build-service driver (`ibs.py`) owns a private namespace of projects
(`home:<user>:<bsc>-klp-<codestream>`) on the remote build service. It
filters those projects by a codestream pattern, and it builds numbered work
lists of RPMs to download: kernel packages per codestream, and built
livepatches per project. It decides where each RPM is unpacked, classifies
download failures, polls build results round after round until every
project is finished, and lists the symbols a livepatch module needs that
the kernel does not define.

This project models that decision and bookkeeping logic and proves its
properties:

- `text.dfy` (`Text`): Python's `str.replace`, substring search,
  `startswith`/`endswith` and the decimal rendering of numbers.
- `selection.dfy` (`Selection`): `SelectBy`, the order-preserving filter
  that specifies every "loop, skip, append" list builder of the driver, with
  its membership, multiplicity, subsequence and distinctness lemmas.
- `naming.dfy` (`Naming`): the user name taken from the e-mail address, the
  project prefix, the codestream-to-project mapping and its inverse, and the
  release name `SLE15-SP2_Update_25`. The release name comes with a parser
  that reads it back, and with the `RELEASE=` marker.
- `packages.dfy` (`Packages`): the package table, the realtime and
  repository renaming of package names, where an RPM is unpacked, and how a
  download ends.
- `ibs.dfy` (`Ibs`): class `Ibs` holds the prefix and filter, and the
  `total` counter that `download` and `download_cs_data` update. Its methods
  filter names and projects and build both work lists. Each method is proved
  against a specification function of the service's answers.
- `status.dfy` (`BuildStatus`): the `status` poller, with ordered Python
  dictionaries, one round as two loops, and the whole run as a trace of the
  `finished_prj` list at the start of each round.
- `symbols.dfy` (`Symbols`): `find_missing_symbols`, after `nm` has run.

The build service's answers are parameters of the model. These are the
project search, the binary lists, the build results of each round and what
a package regex finds. Python's regex engine is a parameter `matches` as
well. The codestream data that the configuration supplies (the
`get_cs_tuple` tuple, `get_cs_archs` and `cs_is_rt`) are inputs.

Two behaviours of `ibs.py` that a reader might not expect are modelled as
the code has them:

- An RPM that is already on disk is still unpacked. `download_binary_rpms`
  only logs that it skips the download, and `download_and_extract` then
  extracts the file anyway (`Packages.DownloadAndExtract`,
  `Packages.RedownloadSkips`).
- A symbol counts as defined when `' ' + sym` occurs anywhere in the `nm`
  text. This is a prefix test, not an exact-name test, so a defined `foobar`
  hides a missing `foo` (`Symbols.PrefixCountsAsDefined`,
  `Symbols.FoobarHidesFoo`).

## Model

| member | source | states |
|---|---|---|
| Naming.ProjectPrefix | ibs.py:27 | The prefix starts with `home:{user}:` and ends with `{bsc}-klp`. |
| Naming.ProjectOf | ibs.py:467-468 | The project name is `{prefix}-` followed by the codestream with every `.` turned into `_`, character by character. |
| Naming.CodestreamOf | ibs.py:219-220 | The codestream has no `_` and is no longer than the project name. When the name does not contain `{prefix}-`, every `_` of it becomes `.` and nothing else changes. |
| Naming.FullCs | ibs.py:298-310 | The release name starts with `SLE` and ends with `_Update_{update}`. |
| Naming.UserName | ibs.py:26 | None exactly when no `@` follows a word character. Otherwise the whole run of word characters before the first such `@`. |
| Naming.CodestreamOfProjectOf | ibs.py:467-468 | `convert_prj_to_cs(cs_to_project(cs)) == cs` when `cs` has no `_` and its underscored form does not contain `{prefix}-`. |
| Naming.ProjectNameRoundTrip | ibs.py:219-220 | The round trip holds for every codestream without `_` and `-`, whatever the prefix. |
| Naming.UnderscoreCodestreamsCollide | ibs.py:467-468 | `15_2u25` and `15.2u25` map to the same project, which converts back to `15.2u25`. |
| Naming.FullCsServicePackExample | ibs.py:298-310 | (15, 2, 25, non-RT) gives `SLE15-SP2_Update_25`. |
| Naming.FullCsNoServicePackExample | ibs.py:303-304 | Service pack 0 leaves out `-SP`: (12, 0, 3) gives `SLE12_Update_3`. |
| Naming.FullCsRealtimeExample | ibs.py:306-307 | A realtime codestream gets `-RT` after the service pack: `SLE15-SP4-RT_Update_10`. |
| Naming.FullCsParses | ibs.py:299-310 | Every release name parses back to the tuple it was made from. |
| Naming.FullCsInjective | ibs.py:299-310 | Different tuples never get the same release name. |
| Naming.ReleaseVersionLine | ibs.py:538-539 | The marker line is `RELEASE=` followed by the release name, unchanged by the `EMBARGO` removal. |
| Naming.NoEmbargoInFullCs | ibs.py:538 | A release name never contains `EMBARGO`. |
| Packages.PackageName | ibs.py:159-167 | `.{repo}` is appended exactly when the repository is not `standard`, after the realtime renaming. |
| Packages.PackageNamesDistinct | ibs.py:156-167 | `kernel-default` and `kernel-source` never resolve to the same name, for any RT flag and repository. |
| Packages.RtPackageName | ibs.py:159-164 | The name changes exactly for `kernel-default` and `kernel-source` on a realtime codestream. A realtime codestream never keeps either of those names. |
| Packages.IsKernelBinaryRpm | ibs.py:116-117 | True exactly when one of `kernel-default-`, `kernel-rt-`, `kernel-default-extra-` or `kernel-rt-extra-` occurs followed by a digit. Such a name always contains `kernel-`. |
| Packages.KernelBinarySearch | ibs.py:116-117 | The four searches together are the same test as one match of the kernel-binary pattern somewhere in the name. |
| Packages.HasDigitAfter | ibs.py:116-117 | True exactly when the prefix occurs somewhere followed by a digit. |
| Packages.ExtractTarget | ibs.py:114-120 | Kernel-binary RPMs go to the per-architecture data directory, every other RPM to the per-codestream one. |
| Packages.KernelImageGoesToArchDir | ibs.py:116-118 | `kernel-default-5.3.18-24.ppc64le.rpm` is unpacked into the ppc64le directory. |
| Packages.DevelGoesToCsDir | ibs.py:119-120 | `kernel-default-devel-…` matches neither pattern and is unpacked into the codestream directory. |
| Packages.ExtraModulesGoToArchDir | ibs.py:117-118 | `kernel-default-extra-…` is unpacked into the architecture directory. |
| Packages.DownloadOutcome | ibs.py:207-217 | Ok iff transferred. Skipped iff `EEXIST`. Failed iff any other OSError, with the `download error on {prj}: {rpm}` message. |
| Packages.DownloadAndExtract | ibs.py:130-137 | The download outcome, then extraction exactly when the download did not raise and the name does not contain `kernel-macros`, into the routed directory. |
| Packages.RedownloadSkips | ibs.py:130-137 | An RPM already on disk is skipped and unpacked where a fresh download would be. |
| Packages.MacrosNeverExtracted | ibs.py:135-137 | A `kernel-macros` RPM is never unpacked, however the download ends. |
| Selection.SelectByMembers | ibs.py:222-234 | The filtered list holds exactly the input items that pass the test. |
| Selection.SelectByCount | ibs.py:222-234 | Each item appears as often as in the input if it passes, otherwise never. Nothing is added. |
| Selection.SelectBySubsequence | ibs.py:222-234 | The filtered list is a subsequence of the input, so nothing is reordered. |
| Selection.SelectByAll | ibs.py:223-224 | When every item passes, the result is the input. |
| Ibs.Ibs.constructor | ibs.py:22-56 | The prefix is `home:{user}:{bsc}-klp`, the filter is stored, and `total` starts at 0. |
| Ibs.Ibs.ApplyFilter | ibs.py:222-234 | The result is the order-preserving selection of the items whose codestream matches. Without a filter it is the input itself. |
| Ibs.Ibs.GetProjects | ibs.py:72-85 | The found projects whose codestream passes the filter, in the order found. |
| Ibs.Ibs.Download | ibs.py:386-416 | Items numbered 1..n, equal to the specification work list of the filtered projects, with `total == n`. |
| Ibs.Ibs.DownloadCsData | ibs.py:139-182 | Items numbered 1..n, equal to the specification work list of the codestreams, with `total == n`. |
| Ibs.IsLivepatchRpm | ibs.py:399-405 | A binary-list file is kept exactly when it ends with `{arch}.rpm` and contains no `preempt`. A kept file always ends with `.rpm`. |
| Ibs.ArchWorkComplete | ibs.py:399-412 | Every kept file of an architecture gets a work item. |
| Ibs.AppendLivepatchRpms | ibs.py:400-412 | Appends one numbered item per livepatch RPM of one architecture, continuing the numbering. |
| Ibs.AppendProjectRpms | ibs.py:396-412 | Appends the items of every architecture of one project, continuing the numbering. |
| Ibs.AppendKernelRpms | ibs.py:171-178 | Appends one numbered item per file the regex found, continuing the numbering. |
| Ibs.RepoPackageName | ibs.py:159-167 | The in-place renaming computes `PackageName`. |
| Ibs.AppendRuleRpms | ibs.py:156-178 | Appends the items of every package of one architecture under its resolved name. |
| Ibs.AppendCodestreamRpms | ibs.py:152-178 | Appends the items of the package table for the architectures the codestream supports. |
| Ibs.ArchWorkRpms | ibs.py:400-406 | The RPMs of one architecture are exactly the binary-list files ending in `{arch}.rpm` without `preempt`, in order. |
| Ibs.ArchWorkItems | ibs.py:400-412 | Each such item is a `devbuild`/`klp` download of a kept file into the codestream's per-architecture RPM directory. |
| Ibs.ProjectWorkItems | ibs.py:396-412 | Each item of a project is a livepatch RPM of one of its architectures. |
| Ibs.DownloadWorkItems | ibs.py:388-412 | Each `download` item is a livepatch RPM of one of the listed projects. |
| Ibs.DownloadedProjectsPassFilter | ibs.py:386-412 | Each `download` item comes from a found project whose codestream passes the filter. |
| Ibs.FileWorkRpms | ibs.py:171-178 | The items' RPMs are exactly the files the regex found, in order, each fetched into `kernel-rpms`. |
| Ibs.RuleWorkItems | ibs.py:156-178 | Each item is a file that the regex of one of the rules found. It is fetched under the rule's resolved package name into `kernel-rpms`. |
| Ibs.TableWorkItems | ibs.py:152-178 | Each item comes from a table architecture that the codestream supports. |
| Ibs.CsDataWorkItems | ibs.py:146-178 | Each item belongs to one of the codestreams, to a supported architecture of the table and to one of its rules. |
| Ibs.KernelSourceOnlyOnX86 | ibs.py:42-53 | Off x86_64 only ppc64le and s390x occur, and only the `kernel-default` package, under its resolved name. |
| BuildStatus.Put | ibs.py:430 | Assignment sets the value. A new key goes to the end and an existing key keeps its place. |
| BuildStatus.ArchCodes | ibs.py:428-430 | The dictionary has at most one entry per result, and the last result's architecture maps to the last result's code. |
| BuildStatus.ArchCodesLastWins | ibs.py:428-430 | The dictionary has exactly the reported architectures, each with the code of its last result. |
| BuildStatus.FinishedIff | ibs.py:437-444 | A project is finished iff the last code of each architecture is terminal. A project without results is finished. |
| BuildStatus.ItemsTerminal | ibs.py:437-441 | The logged entries are all terminal iff the project's states are. |
| BuildStatus.Collect | ibs.py:421-430 | A round keeps at most one entry per listed project. No finished project is kept, and each kept project holds the dictionary of its own results. |
| BuildStatus.CollectKeys | ibs.py:421-430 | A round collects exactly the listed projects not yet finished, each with the service's answer. |
| BuildStatus.Run | ibs.py:418-453 | A run makes at most one round per answer, and its final finished list extends the one it started from. |
| BuildStatus.RunNext | ibs.py:418-453 | The run continues after a round only when waiting and the round showed a project. The next round starts from the finished list plus the newly finished projects. |
| BuildStatus.RunLast | ibs.py:448-449 | The result is the last round's finished list plus its newly finished projects. A run cut short had `wait` off or an empty round. |
| BuildStatus.RunStep | ibs.py:448-449 | A round ends the run exactly when `wait` is off, nothing was shown or the answers ran out. Otherwise it hands its finished list to the next round. |
| BuildStatus.OneRoundWithoutWait | ibs.py:448-449 | Without `wait`, exactly one round is made. |
| BuildStatus.StartsGrow | ibs.py:444 | `finished_prj` only grows: each earlier list is a prefix of every later one. |
| BuildStatus.RoundKeepsDistinct | ibs.py:443-444 | A round never appends a project already in `finished_prj`, nor one twice. |
| BuildStatus.RunKeepsDistinct | ibs.py:418-453 | `finished_prj` never holds a project twice. |
| BuildStatus.FinishedNeverShown | ibs.py:423-424 | A project in `finished_prj` is not collected or reported in that round or any later one. |
| BuildStatus.DoneProjectLeaves | ibs.py:432-446 | A project reported with only terminal states is never reported again. |
| BuildStatus.CodesOf | ibs.py:428-430 | The loop builds the architecture dictionary of one project. |
| BuildStatus.CollectRound | ibs.py:421-430 | The first loop builds the round's dictionary, skipping finished projects. |
| BuildStatus.ProjectLine | ibs.py:437-441 | The entries in dictionary order, and `finished` iff every state is terminal. |
| BuildStatus.ReportRound | ibs.py:432-446 | One line per collected project in order, and `finished_prj` extended by the finished ones in order. |
| BuildStatus.ReportProject | ibs.py:432-446 | One pass of the second loop extends the lines and the finished list by one project. |
| BuildStatus.PollRound | ibs.py:421-446 | One round gives the new finished list, the round's lines, and whether any project was shown. |
| BuildStatus.Status | ibs.py:418-453 | The final `finished_prj` and every round's lines are those of the specification run. |
| Symbols.Unresolved | ibs.py:253 | A symbol fails the test exactly when `' ' + sym` occurs at no position of the defined-symbol text. |
| Symbols.FindMissingSymbols | ibs.py:249-256 | The undefined symbols whose `' ' + sym` does not occur in the kernel's text, in order. |
| Symbols.MissingSymbols | ibs.py:252-254 | A symbol is reported iff listed and not found after a blank. Duplicates are kept. |
| Symbols.PrefixCountsAsDefined | ibs.py:253 | A defined symbol that merely starts with `sym` hides a missing `sym`. |
| Symbols.NeverAfterBlank | ibs.py:253 | A symbol whose first character never follows a blank in the text is reported. |
| Symbols.FoobarHidesFoo | ibs.py:249-256 | With only `foobar` defined, `["foo", "bar"]` reports `["bar"]`. |

## Left out

- `do_work` (ibs.py:61-69) runs the work items on a thread pool. Concurrency is not modelled: the work lists are what would be dispatched. An empty list dispatches nothing.
- The build service's answers that the modelled operations read are parameters: the project search, the binary lists, the download results and the build results.
- Project deletion and the upload of project meta data fall outside the modelled core. `delete_project` (ibs.py:96-108) raises `ValueError` when the service answers with something other than a boolean, and swallows every `HTTPError`, not only a 404.
- Subprocess pipelines and filesystem work are not modelled: `rpm2cpio`/`cpio`, decompression, `make olddefconfig`, `nm`, `modinfo`, git, `tar-up.sh`, directory creation and removal, and writing `release-version.sh`.
- `nm` output parsing is not modelled. The undefined symbols and the defined-symbol text are inputs of `Symbols.FindMissingSymbols`.
- Logging text, `time.sleep(30)` and the progress lines `(i/total)` are not modelled. Only the numbering and `total` are.
- `natsorted` in `get_project_names` is not modelled. Each round's project names are given already sorted.
- `create_prj_meta`, `create_lp_package`, `push`, `prepare_tests`, `validate_livepatch_module`, `cleanup`, `delete_project(s)`, `delete_rpms` and `log` fall outside the modelled core. They drive the build service, subprocesses and the filesystem, and each also makes decisions that the model does not capture:
  - `prepare_tests` (ibs.py:335-357) skips an architecture the codestream lacks or whose RPM directory is missing, and raises when that directory holds more than one RPM. It leaves realtime codestreams out of the test list off x86_64.
  - `validate_livepatch_module` (ibs.py:259-270) finds the module file with a `livepatch-…` regex first and a `kgraft-patch-…` regex second.
  - `create_lp_package` (ibs.py:492-494) skips a codestream that has no git branch.
  - `push` (ibs.py:565-566) raises when the filter leaves no codestream.
  - `create_prj_meta` (ibs.py:483-485) lists the codestream's architectures in the project meta data.
- `config.py` and `templ.py` are not part of this model. They cover environment, directory and JSON checks, and template rendering.
- `get_cs_tuple`, `get_cs_archs`, `cs_is_rt` and `get_data_dir` are not part of this model. Their results are inputs: the `CsTuple`, `Codestream.archs`, `Codestream.rt` and the `ExtractDir` values.
- Naming.UserName: `\w` is taken as ASCII letters, digits and `_`. Python's Unicode word characters are not modelled. Where the source's `.group(1)` raises because nothing matched, the model returns None.
- Ibs.Ibs.constructor: takes the user name rather than the e-mail address. `UserName` states how the name is obtained.
- BuildStatus.Status: the `while True` loop runs over a finite sequence of per-round answers, so the model also stops when the answers run out.
- Packages.HasDigitAfter: only covers patterns without metacharacters. Python's `\d` matches every Unicode decimal digit, but the model accepts only the ASCII digits 0-9. The `(default|rt)` alternatives are spelled out in `IsKernelBinaryRpm`.
- Ibs.Ibs.DownloadCsData: the regex search of each binary list is a parameter `matched`. The `isinstance(file, str)` choice of the first group is part of it.
- Naming.NoEmbargoInFullCs: the tuple fields are non-negative integers, so a release name is built from `SLE`, digits, `-SP`, `-RT` and `_Update_`, and the `EMBARGO` removal never changes anything in the model. A configuration that put other text into the tuple is not modelled.
