/** Which kernel packages are fetched for a codestream, under which name the
    build service knows them, where each downloaded RPM is unpacked, and how a
    download ends. */
module Packages {
  import opened Text
  import opened Options

  /** A package to fetch and the regex that picks its RPMs out of the
      service's binary list. */
  datatype PackageRule = PackageRule(pkg: string, regex: string)

  datatype ArchRules = ArchRules(arch: string, rules: seq<PackageRule>)

  /** `self.cs_data` (ibs.py:42-53), in its order: sources and development
      packages only on x86_64, the kernel binaries on every architecture. */
  const CsData: seq<ArchRules> := [
    ArchRules("ppc64le", [PackageRule("kernel-default", "(kernel-default-[\\d\\.\\-]+.ppc64le.rpm)")]),
    ArchRules("s390x", [PackageRule("kernel-default", "(kernel-default-[\\d\\.\\-]+.s390x.rpm)")]),
    ArchRules("x86_64", [
      PackageRule("kernel-default",
        "(kernel-(default|rt)\\-(extra|(livepatch|kgraft)?\\-?devel)?\\-?[\\d\\.\\-]+.x86_64.rpm)"),
      PackageRule("kernel-source", "(kernel-(source|devel)(\\-rt)?\\-?[\\d\\.\\-]+.noarch.rpm)")])
  ]

  /** Realtime codestreams ship `kernel-rt` and `kernel-source-rt` instead of
      `kernel-default` and `kernel-source`. */
  function RtPackageName(pkg: string, rt: bool): (r: string)
    ensures r != pkg <==> rt && (pkg == "kernel-default" || pkg == "kernel-source")
    ensures rt ==> r != "kernel-default" && r != "kernel-source"
  {
    if rt && pkg == "kernel-default" then "kernel-rt"
    else if rt && pkg == "kernel-source" then "kernel-source-rt"
    else pkg
  }

  /** The name the package has in the codestream's repository
      (ibs.py:159-167): the realtime renaming, then `.{repo}` unless the
      repository is `standard`. */
  function PackageName(pkg: string, rt: bool, repo: string): (r: string)
    ensures repo == "standard" <==> r == RtPackageName(pkg, rt)
    ensures repo != "standard" ==>
              StartsWith(r, RtPackageName(pkg, rt)) && r[|RtPackageName(pkg, rt)|..] == "." + repo
  {
    var name := RtPackageName(pkg, rt);
    if repo != "standard" then
      assert |name + "." + repo| > |name|;
      name + "." + repo
    else
      name
  }

  /** The two packages of the table never end up with the same name, so the
      two binary-list queries of an x86_64 codestream never coincide. */
  lemma PackageNamesDistinct(rt: bool, repo: string)
    ensures PackageName("kernel-default", rt, repo) != PackageName("kernel-source", rt, repo)
  {
    var a, b := PackageName("kernel-default", rt, repo), PackageName("kernel-source", rt, repo);
    assert RtPackageName("kernel-default", rt)[7] != RtPackageName("kernel-source", rt)[7];
    assert a[7] == RtPackageName("kernel-default", rt)[7];
    assert b[7] == RtPackageName("kernel-source", rt)[7];
  }

  /** `pre` occurs at index `i` and a digit follows it. */
  predicate DigitAfterAt(s: string, pre: string, i: int)
  {
    OccursAt(s, pre, i) && i + |pre| < |s| && IsDigit(s[i + |pre|])
  }

  /** `re.search(pre + '\d+', s)` for a prefix without metacharacters. */
  function HasDigitAfter(s: string, pre: string): (r: bool)
    ensures r <==> exists i :: DigitAfterAt(s, pre, i)
    decreases |s|
  {
    if |s| <= |pre| then
      assert forall i :: !DigitAfterAt(s, pre, i);
      false
    else if s[..|pre|] == pre && IsDigit(s[|pre|]) then
      assert DigitAfterAt(s, pre, 0);
      true
    else
      var r := HasDigitAfter(s[1..], pre);
      assert forall i :: DigitAfterAt(s[1..], pre, i) ==> DigitAfterAt(s, pre, i + 1);
      assert forall i :: DigitAfterAt(s, pre, i) && i > 0 ==> DigitAfterAt(s[1..], pre, i - 1);
      r
  }

  /** The RPM holds a kernel image or its modules: it matches
      `kernel-(default|rt)-\d+` or `kernel-(default|rt)-extra-\d+`. */
  predicate IsKernelBinaryRpm(rpm: string)
    ensures IsKernelBinaryRpm(rpm) <==> exists i :: KernelBinaryAt(rpm, i)
    ensures IsKernelBinaryRpm(rpm) ==> Contains(rpm, "kernel-")
  {
    KernelBinarySearch(rpm);
    || HasDigitAfter(rpm, "kernel-default-")
    || HasDigitAfter(rpm, "kernel-rt-")
    || HasDigitAfter(rpm, "kernel-default-extra-")
    || HasDigitAfter(rpm, "kernel-rt-extra-")
  }

  /** The four searches together find a match exactly when there is one, and
      every match starts with `kernel-`. */
  lemma KernelBinarySearch(rpm: string)
    ensures (|| HasDigitAfter(rpm, "kernel-default-")
             || HasDigitAfter(rpm, "kernel-rt-")
             || HasDigitAfter(rpm, "kernel-default-extra-")
             || HasDigitAfter(rpm, "kernel-rt-extra-"))
            <==> exists i :: KernelBinaryAt(rpm, i)
    ensures (exists i :: KernelBinaryAt(rpm, i)) ==> Contains(rpm, "kernel-")
  {
    if HasDigitAfter(rpm, "kernel-default-") {
      var i :| DigitAfterAt(rpm, "kernel-default-", i);
      assert KernelBinaryAt(rpm, i);
    } else if HasDigitAfter(rpm, "kernel-rt-") {
      var i :| DigitAfterAt(rpm, "kernel-rt-", i);
      assert KernelBinaryAt(rpm, i);
    } else if HasDigitAfter(rpm, "kernel-default-extra-") {
      var i :| DigitAfterAt(rpm, "kernel-default-extra-", i);
      assert KernelBinaryAt(rpm, i);
    } else if HasDigitAfter(rpm, "kernel-rt-extra-") {
      var i :| DigitAfterAt(rpm, "kernel-rt-extra-", i);
      assert KernelBinaryAt(rpm, i);
    }
    forall i | KernelBinaryAt(rpm, i) ensures OccursAt(rpm, "kernel-", i) {
      KernelBinaryAtOccurs(rpm, i);
    }
  }

  /** Every match starts with `kernel-`. */
  lemma KernelBinaryAtOccurs(rpm: string, i: int)
    requires KernelBinaryAt(rpm, i)
    ensures OccursAt(rpm, "kernel-", i)
  {
    if DigitAfterAt(rpm, "kernel-default-", i) {
      OccursPrefix(rpm, "kernel-default-", i, 7);
    } else if DigitAfterAt(rpm, "kernel-rt-", i) {
      OccursPrefix(rpm, "kernel-rt-", i, 7);
    } else if DigitAfterAt(rpm, "kernel-default-extra-", i) {
      OccursPrefix(rpm, "kernel-default-extra-", i, 7);
    } else {
      OccursPrefix(rpm, "kernel-rt-extra-", i, 7);
    }
  }

  /** Where a string occurs, so do its prefixes. */
  lemma OccursPrefix(s: string, pre: string, i: int, k: nat)
    requires OccursAt(s, pre, i) && k <= |pre|
    ensures OccursAt(s, pre[..k], i)
  {
    assert s[i..i + k] == s[i..i + |pre|][..k];
  }

  /** A match of `kernel-(default|rt)-\d+` or `kernel-(default|rt)-extra-\d+`
      starts at index `i`. */
  predicate KernelBinaryAt(rpm: string, i: int)
  {
    || DigitAfterAt(rpm, "kernel-default-", i)
    || DigitAfterAt(rpm, "kernel-rt-", i)
    || DigitAfterAt(rpm, "kernel-default-extra-", i)
    || DigitAfterAt(rpm, "kernel-rt-extra-", i)
  }

  /** Where `extract_rpms` unpacks: the per-architecture data directory
      (`get_data_dir(cs, arch)`) or the per-codestream one (`get_data_dir(cs)`). */
  datatype ExtractDir = ArchDataDir(cs: string, arch: string) | CsDataDir(cs: string)

  /** ibs.py:116-120: kernel binaries go to the architecture's directory,
      everything else (sources, development files) to the codestream's. */
  function ExtractTarget(cs: string, arch: string, rpm: string): (d: ExtractDir)
    ensures d.cs == cs
    ensures d.ArchDataDir? <==> IsKernelBinaryRpm(rpm)
    ensures d.ArchDataDir? ==> d.arch == arch
  {
    if IsKernelBinaryRpm(rpm) then ArchDataDir(cs, arch) else CsDataDir(cs)
  }

  /** The kernel image RPM of an architecture goes to that architecture's directory. */
  lemma KernelImageGoesToArchDir()
    ensures ExtractTarget("15.2u25", "ppc64le", "kernel-default-5.3.18-24.ppc64le.rpm")
         == ArchDataDir("15.2u25", "ppc64le")
  {
    assert DigitAfterAt("kernel-default-5.3.18-24.ppc64le.rpm", "kernel-default-", 0);
  }

  /** Development files are shared by all architectures of a codestream. */
  lemma DevelGoesToCsDir(rpm: string)
    requires rpm == "kernel-default-devel-5.3.18-24.x86_64.rpm"
    ensures ExtractTarget("15.2u25", "x86_64", rpm) == CsDataDir("15.2u25")
  {
    DevelNameHasNoKernelPattern(rpm, "kernel-default-");
    DevelNameHasNoKernelPattern(rpm, "kernel-rt-");
    DevelNameHasNoKernelPattern(rpm, "kernel-default-extra-");
    DevelNameHasNoKernelPattern(rpm, "kernel-rt-extra-");
  }

  lemma DevelNameHasNoKernelPattern(rpm: string, pre: string)
    requires rpm == "kernel-default-devel-5.3.18-24.x86_64.rpm"
    requires pre in {"kernel-default-", "kernel-rt-", "kernel-default-extra-", "kernel-rt-extra-"}
    ensures !HasDigitAfter(rpm, pre)
  {
    assert forall i :: 0 < i < |rpm| ==> rpm[i] != 'k';
    assert rpm[15] == 'd' && rpm[7] == 'd' && rpm[20] == '-';
    NoMatchAfterStart(rpm, pre);
  }

  /** A pattern whose first character occurs in `s` only at index 0 can only
      be found there. */
  lemma NoMatchAfterStart(s: string, pre: string)
    requires |pre| > 0 && (forall i :: 0 < i < |s| ==> s[i] != pre[0])
    requires !DigitAfterAt(s, pre, 0)
    ensures !HasDigitAfter(s, pre)
  {
    forall i | DigitAfterAt(s, pre, i) ensures i == 0 {
      assert s[i] == s[i..i + |pre|][0] == pre[0];
    }
  }

  /** The extra-modules RPM goes there as well. */
  lemma ExtraModulesGoToArchDir()
    ensures ExtractTarget("15.2u25", "x86_64", "kernel-default-extra-5.3.18-24.x86_64.rpm")
         == ArchDataDir("15.2u25", "x86_64")
  {
    assert DigitAfterAt("kernel-default-extra-5.3.18-24.x86_64.rpm", "kernel-default-extra-", 0);
  }

  /** One unit of download work, the tuple `(i, cs, prj, repo, arch, pkg,
      rpm, dest)` handed to the worker pool; `i` counts from 1. */
  datatype WorkItem = WorkItem(
    index: nat, cs: string, prj: string, repo: string,
    arch: string, pkg: string, rpm: string, dest: RpmDir)

  /** Where an RPM is downloaded: `{data}/{cs}/kernel-rpms` for the kernel
      packages, `{bsc_path}/c/{cs}/{arch}/rpm` for the built livepatches. */
  datatype RpmDir = KernelRpms(cs: string) | LivepatchRpms(cs: string, arch: string)

  /** How `osc.build.download_binary` returned: normally, or with an OSError. */
  datatype Transfer = Transferred | OsError(errno: int)

  /** What `download_binary_rpms` makes of it. */
  datatype Outcome = Ok | Skipped | Failed(message: string)

  /** Linux's `errno.EEXIST`: the file is already there. */
  const EEXIST: int := 17

  /** ibs.py:210-217: an existing file is a skip, any other OSError becomes
      a `RuntimeError` naming the project and the RPM. */
  function DownloadOutcome(prj: string, rpm: string, t: Transfer): (o: Outcome)
    ensures o.Ok? <==> t.Transferred?
    ensures o.Skipped? <==> t == OsError(EEXIST)
    ensures o.Failed? <==> t.OsError? && t.errno != EEXIST
    ensures o.Failed? ==> o.message == "download error on " + prj + ": " + rpm
  {
    match t
    case Transferred => Ok
    case OsError(e) => if e == EEXIST then Skipped else Failed("download error on " + prj + ": " + rpm)
  }

  /** One dispatched unit of `download_and_extract`. */
  datatype Step = Step(outcome: Outcome, extractTo: Option<ExtractDir>)

  /** ibs.py:130-137: download, then (unless the download raised) unpack the
      RPM, except the `kernel-macros` one. An RPM already on disk is still
      unpacked. */
  function DownloadAndExtract(item: WorkItem, t: Transfer): (s: Step)
    ensures s.outcome == DownloadOutcome(item.prj, item.rpm, t)
    ensures s.extractTo.Some? <==> !s.outcome.Failed? && !Contains(item.rpm, "kernel-macros")
    ensures s.extractTo.Some? ==> s.extractTo.value == ExtractTarget(item.cs, item.arch, item.rpm)
  {
    var outcome := DownloadOutcome(item.prj, item.rpm, t);
    if outcome.Failed? || Contains(item.rpm, "kernel-macros") then Step(outcome, None)
    else Step(outcome, Some(ExtractTarget(item.cs, item.arch, item.rpm)))
  }

  /** Downloading again is harmless: when every file is already present each
      item is skipped, none fails, and all but `kernel-macros` are unpacked
      again into the same places. */
  lemma RedownloadSkips(item: WorkItem)
    ensures DownloadAndExtract(item, OsError(EEXIST)).outcome == Skipped
    ensures DownloadAndExtract(item, OsError(EEXIST)).extractTo
         == DownloadAndExtract(item, Transferred).extractTo
  {
  }

  /** The `kernel-macros` RPM is never unpacked, however its download ends. */
  lemma MacrosNeverExtracted(item: WorkItem, t: Transfer)
    requires StartsWith(item.rpm, "kernel-macros")
    ensures DownloadAndExtract(item, t).extractTo == None
  {
    assert OccursAt(item.rpm, "kernel-macros", 0);
  }
}
