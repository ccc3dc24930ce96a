/** The build driver object: its project namespace and codestream filter,
    the `total` of the work list it last built, and the methods that filter
    projects and build the download work lists. The build service's answers
    (search results, binary lists) and Python's regex engine are parameters. */
module Ibs {
  import opened Text
  import opened Selection
  import opened Naming
  import opened Packages

  /** A project the search on the build service found: its name and the
      architectures of its repository (`repository/arch`). */
  datatype RemoteProject = RemoteProject(name: string, archs: seq<string>)

  /** What the configuration says about a codestream: its identifier, the
      upstream project and repository it builds from, its architectures
      (`get_cs_archs`) and whether it is realtime (`cs_is_rt`). */
  datatype Codestream = Codestream(cs: string, project: string, repo: string, archs: seq<string>, rt: bool)

  /** `re.match(pattern, s)` succeeds; the regex engine is not modelled. */
  type Matcher = (string, string) -> bool

  /** The test of `apply_filter` and `get_projects`: without a filter every
      name passes, otherwise the codestream the name converts to must match it. */
  function NameFilter(prefix: string, filter: string, matches: Matcher): string -> bool
  {
    name => filter == "" || matches(filter, CodestreamOf(prefix, name))
  }

  /** The same test on a found project's name. */
  function ProjectFilter(prefix: string, filter: string, matches: Matcher): RemoteProject -> bool
  {
    (p: RemoteProject) => NameFilter(prefix, filter, matches)(p.name)
  }

  /** `download` keeps a file of the binary list when it ends in
      `{arch}.rpm` and is not a `preempt` flavour. */
  predicate IsLivepatchRpm(arch: string, file: string)
    ensures IsLivepatchRpm(arch, file) <==> EndsWith(file, arch + ".rpm") && forall i :: !OccursAt(file, "preempt", i)
    ensures IsLivepatchRpm(arch, file) ==> EndsWith(file, ".rpm")
  {
    EndsWith(file, arch + ".rpm") && !Contains(file, "preempt")
  }

  function LivepatchRpmFilter(arch: string): string -> bool
  {
    file => IsLivepatchRpm(arch, file)
  }

  /** A work list with its numbering erased, to compare with the lists below. */
  function Unnumbered(items: seq<WorkItem>): (r: seq<WorkItem>)
    ensures |r| == |items|
  {
    seq(|items|, k requires 0 <= k < |items| => items[k].(index := 0))
  }

  lemma UnnumberedAppend(items: seq<WorkItem>, it: WorkItem)
    ensures Unnumbered(items + [it]) == Unnumbered(items) + [it.(index := 0)]
  {
  }

  function Rpms(items: seq<WorkItem>): (r: seq<string>)
    ensures |r| == |items|
  {
    seq(|items|, k requires 0 <= k < |items| => items[k].rpm)
  }

  /** The `download` items of one architecture of one project. */
  function ArchWork(prj: string, cs: string, arch: string, files: seq<string>): (r: seq<WorkItem>)
    ensures |r| <= |files|
  {
    if files == [] then []
    else
      var last := files[|files| - 1];
      ArchWork(prj, cs, arch, files[..|files| - 1])
      + if IsLivepatchRpm(arch, last)
        then [WorkItem(0, prj, prj, "devbuild", arch, "klp", last, LivepatchRpms(cs, arch))]
        else []
  }

  /** The `download` items of the first `archs` of project `p`. */
  function ProjectWork(prefix: string, p: RemoteProject, archs: seq<string>,
                       binaries: (string, string) -> seq<string>): (r: seq<WorkItem>)
  {
    if archs == [] then []
    else
      var arch := archs[|archs| - 1];
      ProjectWork(prefix, p, archs[..|archs| - 1], binaries)
      + ArchWork(p.name, CodestreamOf(prefix, p.name), arch, binaries(p.name, arch))
  }

  /** The `download` items of a list of projects. */
  function DownloadWork(prefix: string, ps: seq<RemoteProject>,
                        binaries: (string, string) -> seq<string>): (r: seq<WorkItem>)
  {
    if ps == [] then []
    else DownloadWork(prefix, ps[..|ps| - 1], binaries) + ProjectWork(prefix, ps[|ps| - 1], ps[|ps| - 1].archs, binaries)
  }

  /** The `download_cs_data` items for the files the regex found for one package. */
  function FileWork(c: Codestream, arch: string, pkg: string, files: seq<string>): (r: seq<WorkItem>)
    ensures |r| == |files|
  {
    if files == [] then []
    else
      FileWork(c, arch, pkg, files[..|files| - 1])
      + [WorkItem(0, c.cs, c.project, c.repo, arch, pkg, files[|files| - 1], KernelRpms(c.cs))]
  }

  /** The `download_cs_data` items for the packages `rules` of one architecture. */
  function RuleWork(c: Codestream, arch: string, rules: seq<PackageRule>,
                    matched: (string, string, string, string, string) -> seq<string>): (r: seq<WorkItem>)
  {
    if rules == [] then []
    else
      var rule := rules[|rules| - 1];
      var pkg := PackageName(rule.pkg, c.rt, c.repo);
      RuleWork(c, arch, rules[..|rules| - 1], matched)
      + FileWork(c, arch, pkg, matched(rule.regex, c.project, c.repo, arch, pkg))
  }

  /** The `download_cs_data` items of one codestream for the architectures of
      `table` that the codestream supports. */
  function TableWork(c: Codestream, table: seq<ArchRules>,
                     matched: (string, string, string, string, string) -> seq<string>): (r: seq<WorkItem>)
  {
    if table == [] then []
    else
      var ar := table[|table| - 1];
      TableWork(c, table[..|table| - 1], matched)
      + if ar.arch in c.archs then RuleWork(c, ar.arch, ar.rules, matched) else []
  }

  /** The `download_cs_data` items of a list of codestreams. */
  function CsDataWork(csList: seq<Codestream>,
                      matched: (string, string, string, string, string) -> seq<string>): (r: seq<WorkItem>)
  {
    if csList == [] then []
    else CsDataWork(csList[..|csList| - 1], matched) + TableWork(csList[|csList| - 1], CsData, matched)
  }

  /** A work list numbered 1, 2, ... in order. */
  ghost predicate NumberedFromOne(items: seq<WorkItem>)
  {
    forall k :: 0 <= k < |items| ==> items[k].index == k + 1
  }

  /** The innermost loop of `download` (ibs.py:400-412): the livepatch RPMs
      of one binary list, appended with the running number `i`. */
  method AppendLivepatchRpms(rpms: seq<WorkItem>, i: nat, prj: string, cs: string, arch: string,
                             ret: seq<string>) returns (rpms': seq<WorkItem>, i': nat)
    requires i == |rpms| + 1 && NumberedFromOne(rpms)
    ensures i' == |rpms'| + 1 && NumberedFromOne(rpms')
    ensures Unnumbered(rpms') == Unnumbered(rpms) + ArchWork(prj, cs, arch, ret)
  {
    rpms', i' := rpms, i;
    var rpmName := arch + ".rpm";
    for f := 0 to |ret|
      invariant i' == |rpms'| + 1 && NumberedFromOne(rpms')
      invariant Unnumbered(rpms') == Unnumbered(rpms) + ArchWork(prj, cs, arch, ret[..f])
    {
      assert ret[..f + 1][..f] == ret[..f];
      var rpm := ret[f];
      if !EndsWith(rpm, rpmName) {
        continue;
      }
      if Contains(rpm, "preempt") {
        continue;
      }
      var it := WorkItem(i', prj, prj, "devbuild", arch, "klp", rpm, LivepatchRpms(cs, arch));
      UnnumberedAppend(rpms', it);
      rpms' := rpms' + [it];
      i' := i' + 1;
    }
    assert ret[..|ret|] == ret;
  }

  /** The innermost loop of `download_cs_data` (ibs.py:171-178): every RPM
      the regex found, appended with the running number `i`. */
  method AppendKernelRpms(rpms: seq<WorkItem>, i: nat, c: Codestream, arch: string, pkg: string,
                          ret: seq<string>) returns (rpms': seq<WorkItem>, i': nat)
    requires i == |rpms| + 1 && NumberedFromOne(rpms)
    ensures i' == |rpms'| + 1 && NumberedFromOne(rpms')
    ensures Unnumbered(rpms') == Unnumbered(rpms) + FileWork(c, arch, pkg, ret)
  {
    rpms', i' := rpms, i;
    for f := 0 to |ret|
      invariant i' == |rpms'| + 1 && NumberedFromOne(rpms')
      invariant Unnumbered(rpms') == Unnumbered(rpms) + FileWork(c, arch, pkg, ret[..f])
    {
      assert ret[..f + 1][..f] == ret[..f];
      var it := WorkItem(i', c.cs, c.project, c.repo, arch, pkg, ret[f], KernelRpms(c.cs));
      UnnumberedAppend(rpms', it);
      rpms' := rpms' + [it];
      i' := i' + 1;
    }
    assert ret[..|ret|] == ret;
  }

  /** The loop of `download` over the architectures of one project
      (ibs.py:396-412). */
  method AppendProjectRpms(rpms: seq<WorkItem>, i: nat, prefix: string, p: RemoteProject,
                           binaries: (string, string) -> seq<string>) returns (rpms': seq<WorkItem>, i': nat)
    requires i == |rpms| + 1 && NumberedFromOne(rpms)
    ensures i' == |rpms'| + 1 && NumberedFromOne(rpms')
    ensures Unnumbered(rpms') == Unnumbered(rpms) + ProjectWork(prefix, p, p.archs, binaries)
  {
    rpms', i' := rpms, i;
    var prj := p.name;
    var cs := CodestreamOf(prefix, prj);
    var archs := p.archs;
    for a := 0 to |archs|
      invariant i' == |rpms'| + 1 && NumberedFromOne(rpms')
      invariant Unnumbered(rpms') == Unnumbered(rpms) + ProjectWork(prefix, p, archs[..a], binaries)
    {
      var arch := archs[a];
      var ret := binaries(prj, arch);
      rpms', i' := AppendLivepatchRpms(rpms', i', prj, cs, arch, ret);
      assert archs[..a + 1][..a] == archs[..a];
    }
    assert archs[..|archs|] == archs;
  }

  /** The package name as `download_cs_data` rewrites it in place
      (ibs.py:159-167). */
  method RepoPackageName(pkg: string, rt: bool, repo: string) returns (name: string)
    ensures name == PackageName(pkg, rt, repo)
  {
    name := pkg;
    // realtime kernels have different package names
    if rt {
      if name == "kernel-default" {
        name := "kernel-rt";
      } else if name == "kernel-source" {
        name := "kernel-source-rt";
      }
    }
    if repo != "standard" {
      name := name + "." + repo;
    }
  }

  /** The loop of `download_cs_data` over the packages of one architecture
      of one codestream (ibs.py:156-178). */
  method AppendRuleRpms(rpms: seq<WorkItem>, i: nat, entry: Codestream, arch: string, rules: seq<PackageRule>,
                        matched: (string, string, string, string, string) -> seq<string>)
    returns (rpms': seq<WorkItem>, i': nat)
    requires i == |rpms| + 1 && NumberedFromOne(rpms)
    ensures i' == |rpms'| + 1 && NumberedFromOne(rpms')
    ensures Unnumbered(rpms') == Unnumbered(rpms) + RuleWork(entry, arch, rules, matched)
  {
    rpms', i' := rpms, i;
    for r := 0 to |rules|
      invariant i' == |rpms'| + 1 && NumberedFromOne(rpms')
      invariant Unnumbered(rpms') == Unnumbered(rpms) + RuleWork(entry, arch, rules[..r], matched)
    {
      var pkg := RepoPackageName(rules[r].pkg, entry.rt, entry.repo);
      var ret := matched(rules[r].regex, entry.project, entry.repo, arch, pkg);
      rpms', i' := AppendKernelRpms(rpms', i', entry, arch, pkg, ret);
      assert rules[..r + 1][..r] == rules[..r];
    }
    assert rules[..|rules|] == rules;
  }

  /** The loop of `download_cs_data` over the package table for one
      codestream, skipping the architectures it does not support
      (ibs.py:152-178). */
  method AppendCodestreamRpms(rpms: seq<WorkItem>, i: nat, entry: Codestream,
                              matched: (string, string, string, string, string) -> seq<string>)
    returns (rpms': seq<WorkItem>, i': nat)
    requires i == |rpms| + 1 && NumberedFromOne(rpms)
    ensures i' == |rpms'| + 1 && NumberedFromOne(rpms')
    ensures Unnumbered(rpms') == Unnumbered(rpms) + TableWork(entry, CsData, matched)
  {
    rpms', i' := rpms, i;
    for a := 0 to |CsData|
      invariant i' == |rpms'| + 1 && NumberedFromOne(rpms')
      invariant Unnumbered(rpms') == Unnumbered(rpms) + TableWork(entry, CsData[..a], matched)
    {
      var arch := CsData[a].arch;
      assert CsData[..a + 1][..a] == CsData[..a];
      if arch !in entry.archs {
        continue;
      }
      rpms', i' := AppendRuleRpms(rpms', i', entry, arch, CsData[a].rules, matched);
    }
    assert CsData[..|CsData|] == CsData;
  }

  /** A `download` work item for project `p`: an architecture of the
      project, a file of that architecture's binary list that passes the
      livepatch test, fetched from `devbuild`/`klp` into the codestream's
      per-architecture RPM directory. */
  ghost predicate LivepatchItem(prefix: string, p: RemoteProject, binaries: (string, string) -> seq<string>,
                                it: WorkItem)
  {
    && it.arch in p.archs
    && it.rpm in binaries(p.name, it.arch)
    && IsLivepatchRpm(it.arch, it.rpm)
    && it == WorkItem(0, p.name, p.name, "devbuild", it.arch, "klp", it.rpm,
                      LivepatchRpms(CodestreamOf(prefix, p.name), it.arch))
  }

  /** Completeness of the file test: the RPMs of one architecture's items are
      exactly the files of its binary list that pass it, in order. */
  lemma {:induction false} ArchWorkRpms(prj: string, cs: string, arch: string, files: seq<string>)
    ensures Rpms(ArchWork(prj, cs, arch, files)) == SelectBy(files, LivepatchRpmFilter(arch))
  {
    if files != [] {
      ArchWorkRpms(prj, cs, arch, files[..|files| - 1]);
      var init := ArchWork(prj, cs, arch, files[..|files| - 1]);
      var last := files[|files| - 1];
      if IsLivepatchRpm(arch, last) {
        var it := WorkItem(0, prj, prj, "devbuild", arch, "klp", last, LivepatchRpms(cs, arch));
        assert Rpms(init + [it]) == Rpms(init) + [last];
      } else {
        assert ArchWork(prj, cs, arch, files) == init;
      }
    }
  }

  /** Every file of the binary list that passes the test gives an item. */
  lemma ArchWorkComplete(prj: string, cs: string, arch: string, files: seq<string>, f: string)
    requires f in files && IsLivepatchRpm(arch, f)
    ensures exists it :: it in ArchWork(prj, cs, arch, files) && it.rpm == f
  {
    SelectByMembers(files, LivepatchRpmFilter(arch));
    assert LivepatchRpmFilter(arch)(f);
    assert f in SelectBy(files, LivepatchRpmFilter(arch));
    ArchWorkRpms(prj, cs, arch, files);
    var items := ArchWork(prj, cs, arch, files);
    assert f in Rpms(items);
    var k :| 0 <= k < |items| && Rpms(items)[k] == f;
    assert items[k] in items && items[k].rpm == f;
  }

  lemma {:induction false} ArchWorkItems(prj: string, cs: string, arch: string, files: seq<string>)
    ensures forall it :: it in ArchWork(prj, cs, arch, files) ==>
              && it.rpm in files && IsLivepatchRpm(arch, it.rpm)
              && it == WorkItem(0, prj, prj, "devbuild", arch, "klp", it.rpm, LivepatchRpms(cs, arch))
  {
    if files != [] {
      ArchWorkItems(prj, cs, arch, files[..|files| - 1]);
      assert files == files[..|files| - 1] + [files[|files| - 1]];
    }
  }

  lemma {:induction false} ProjectWorkItems(prefix: string, p: RemoteProject, archs: seq<string>,
                                            binaries: (string, string) -> seq<string>)
    requires forall a :: a in archs ==> a in p.archs
    ensures forall it :: it in ProjectWork(prefix, p, archs, binaries) ==> LivepatchItem(prefix, p, binaries, it)
  {
    if archs != [] {
      var arch := archs[|archs| - 1];
      ProjectWorkItems(prefix, p, archs[..|archs| - 1], binaries);
      ArchWorkItems(p.name, CodestreamOf(prefix, p.name), arch, binaries(p.name, arch));
    }
  }

  /** Soundness of `download`'s work list: every item is a livepatch RPM of
      one of the projects, for one of its architectures. */
  lemma {:induction false} DownloadWorkItems(prefix: string, ps: seq<RemoteProject>,
                                             binaries: (string, string) -> seq<string>)
    ensures forall it :: it in DownloadWork(prefix, ps, binaries) ==>
              exists p :: p in ps && LivepatchItem(prefix, p, binaries, it)
  {
    if ps != [] {
      var p := ps[|ps| - 1];
      DownloadWorkItems(prefix, ps[..|ps| - 1], binaries);
      ProjectWorkItems(prefix, p, p.archs, binaries);
      forall it | it in DownloadWork(prefix, ps, binaries)
        ensures exists q :: q in ps && LivepatchItem(prefix, q, binaries, it)
      {
        if it in DownloadWork(prefix, ps[..|ps| - 1], binaries) {
          var q :| q in ps[..|ps| - 1] && LivepatchItem(prefix, q, binaries, it);
          assert q in ps;
        } else {
          assert LivepatchItem(prefix, p, binaries, it);
        }
      }
    }
  }

  /** Every item `download` hands out belongs to a project the search found
      whose codestream passes the user's filter. */
  lemma DownloadedProjectsPassFilter(prefix: string, filter: string, matches: Matcher,
                                     found: seq<RemoteProject>, binaries: (string, string) -> seq<string>,
                                     it: WorkItem)
    requires it in DownloadWork(prefix, SelectBy(found, ProjectFilter(prefix, filter, matches)), binaries)
    ensures exists p :: && p in found
                        && (filter == "" || matches(filter, CodestreamOf(prefix, p.name)))
                        && LivepatchItem(prefix, p, binaries, it)
  {
    var kept := SelectBy(found, ProjectFilter(prefix, filter, matches));
    DownloadWorkItems(prefix, kept, binaries);
    SelectByMembers(found, ProjectFilter(prefix, filter, matches));
    var p :| p in kept && LivepatchItem(prefix, p, binaries, it);
    assert ProjectFilter(prefix, filter, matches)(p);
    assert NameFilter(prefix, filter, matches)(p.name);
  }

  /** A work item of `download_cs_data` for codestream `c`: a file the regex
      of `rule` found for architecture `arch`, fetched under the package's
      resolved name into the codestream's `kernel-rpms` directory. */
  ghost predicate KernelItem(c: Codestream, arch: string, rule: PackageRule,
                             matched: (string, string, string, string, string) -> seq<string>, it: WorkItem)
  {
    var pkg := PackageName(rule.pkg, c.rt, c.repo);
    && it.rpm in matched(rule.regex, c.project, c.repo, arch, pkg)
    && it == WorkItem(0, c.cs, c.project, c.repo, arch, pkg, it.rpm, KernelRpms(c.cs))
  }

  /** Every file the regex found is downloaded, in the order found. */
  lemma {:induction false} FileWorkRpms(c: Codestream, arch: string, pkg: string, files: seq<string>)
    ensures Rpms(FileWork(c, arch, pkg, files)) == files
    ensures forall it :: it in FileWork(c, arch, pkg, files) ==>
              it.rpm in files && it == WorkItem(0, c.cs, c.project, c.repo, arch, pkg, it.rpm, KernelRpms(c.cs))
  {
    if files != [] {
      var init := files[..|files| - 1];
      FileWorkRpms(c, arch, pkg, init);
      var it := WorkItem(0, c.cs, c.project, c.repo, arch, pkg, files[|files| - 1], KernelRpms(c.cs));
      assert Rpms(FileWork(c, arch, pkg, init) + [it]) == Rpms(FileWork(c, arch, pkg, init)) + [it.rpm];
      assert files == init + [files[|files| - 1]];
    }
  }

  lemma {:induction false} RuleWorkItems(c: Codestream, arch: string, rules: seq<PackageRule>,
                                         matched: (string, string, string, string, string) -> seq<string>)
    ensures forall it :: it in RuleWork(c, arch, rules, matched) ==>
              exists rule :: rule in rules && KernelItem(c, arch, rule, matched, it)
  {
    if rules != [] {
      var rule := rules[|rules| - 1];
      var pkg := PackageName(rule.pkg, c.rt, c.repo);
      RuleWorkItems(c, arch, rules[..|rules| - 1], matched);
      FileWorkRpms(c, arch, pkg, matched(rule.regex, c.project, c.repo, arch, pkg));
      forall it | it in RuleWork(c, arch, rules, matched)
        ensures exists r :: r in rules && KernelItem(c, arch, r, matched, it)
      {
        if it in RuleWork(c, arch, rules[..|rules| - 1], matched) {
          var r :| r in rules[..|rules| - 1] && KernelItem(c, arch, r, matched, it);
          assert r in rules;
        } else {
          assert KernelItem(c, arch, rule, matched, it);
        }
      }
    }
  }

  lemma {:induction false} TableWorkItems(c: Codestream, table: seq<ArchRules>,
                                          matched: (string, string, string, string, string) -> seq<string>)
    ensures forall it :: it in TableWork(c, table, matched) ==>
              it.arch in c.archs && exists ar, rule :: ar in table && rule in ar.rules && ar.arch == it.arch
                                                    && KernelItem(c, ar.arch, rule, matched, it)
  {
    if table != [] {
      var ar := table[|table| - 1];
      TableWorkItems(c, table[..|table| - 1], matched);
      RuleWorkItems(c, ar.arch, ar.rules, matched);
      forall it | it in TableWork(c, table, matched)
        ensures it.arch in c.archs && exists a, rule :: a in table && rule in a.rules && a.arch == it.arch
                                                     && KernelItem(c, a.arch, rule, matched, it)
      {
        if it in TableWork(c, table[..|table| - 1], matched) {
          var a, rule :| a in table[..|table| - 1] && rule in a.rules && a.arch == it.arch
                         && KernelItem(c, a.arch, rule, matched, it);
          assert a in table;
        } else {
          var rule :| rule in ar.rules && KernelItem(c, ar.arch, rule, matched, it);
          assert ar in table;
        }
      }
    }
  }

  /** Soundness of `download_cs_data`'s work list: every item belongs to one
      of the codestreams and to an architecture both the codestream and the
      package table have, and is a file the regex of a package of that
      architecture found. */
  lemma {:induction false} CsDataWorkItems(csList: seq<Codestream>,
                                           matched: (string, string, string, string, string) -> seq<string>)
    ensures forall it :: it in CsDataWork(csList, matched) ==>
              exists c, ar, rule :: c in csList && ar in CsData && rule in ar.rules
                                    && it.arch == ar.arch && it.arch in c.archs
                                    && KernelItem(c, ar.arch, rule, matched, it)
  {
    if csList != [] {
      var c := csList[|csList| - 1];
      CsDataWorkItems(csList[..|csList| - 1], matched);
      TableWorkItems(c, CsData, matched);
      forall it | it in CsDataWork(csList, matched)
        ensures exists c', ar, rule :: c' in csList && ar in CsData && rule in ar.rules
                                       && it.arch == ar.arch && it.arch in c'.archs
                                       && KernelItem(c', ar.arch, rule, matched, it)
      {
        if it in CsDataWork(csList[..|csList| - 1], matched) {
          var c', ar, rule :| c' in csList[..|csList| - 1] && ar in CsData && rule in ar.rules
                              && it.arch == ar.arch && it.arch in c'.archs
                              && KernelItem(c', ar.arch, rule, matched, it);
          assert c' in csList;
        } else {
          assert c in csList;
        }
      }
    }
  }

  /** Sources and development packages are fetched for x86_64 only: on the
      other architectures every item is a `kernel-default` (or `kernel-rt`)
      RPM. */
  lemma KernelSourceOnlyOnX86(csList: seq<Codestream>,
                              matched: (string, string, string, string, string) -> seq<string>, it: WorkItem)
    requires it in CsDataWork(csList, matched) && it.arch != "x86_64"
    ensures it.arch == "ppc64le" || it.arch == "s390x"
    ensures exists c :: c in csList && it.cs == c.cs && it.pkg == PackageName("kernel-default", c.rt, c.repo)
  {
    CsDataWorkItems(csList, matched);
    var c, ar, rule :| c in csList && ar in CsData && rule in ar.rules
                       && it.arch == ar.arch && it.arch in c.archs
                       && KernelItem(c, ar.arch, rule, matched, it);
    NonX86Rules(ar, rule);
    assert it.cs == c.cs;
  }

  /** Only `kernel-default` is fetched for the architectures other than x86_64. */
  lemma NonX86Rules(ar: ArchRules, rule: PackageRule)
    requires ar in CsData && rule in ar.rules && ar.arch != "x86_64"
    ensures rule.pkg == "kernel-default" && (ar.arch == "ppc64le" || ar.arch == "s390x")
  {
  }

  class Ibs {
    /** `home:{user}:{bsc}-klp` */
    const prefix: string
    /** The user's codestream regex; empty when none was given. */
    const filter: string
    /** Number of items of the last work list, for the `(i/total)` progress lines. */
    var total: nat

    constructor(user: string, bsc: string, filter: string)
      ensures prefix == ProjectPrefix(user, bsc) && this.filter == filter && total == 0
    {
      prefix := ProjectPrefix(user, bsc);
      this.filter := filter;
      total := 0;
    }

    /** `apply_filter`: the items whose codestream matches the filter, in
        order; the input itself when there is no filter. */
    method ApplyFilter(items: seq<string>, matches: Matcher) returns (r: seq<string>)
      ensures r == SelectBy(items, NameFilter(prefix, filter, matches))
      ensures filter == "" ==> r == items
    {
      if filter == "" {
        SelectByAll(items, NameFilter(prefix, filter, matches));
        return items;
      }
      r := [];
      for k := 0 to |items|
        invariant r == SelectBy(items[..k], NameFilter(prefix, filter, matches))
      {
        SelectByStep(items, k, NameFilter(prefix, filter, matches));
        var cmpItem := CodestreamOf(prefix, items[k]);
        if !matches(filter, cmpItem) {
          continue;
        }
        r := r + [items[k]];
      }
      assert items[..|items|] == items;
    }

    /** The filtering loop of `get_projects` over the projects the search
        under the prefix found. */
    method GetProjects(found: seq<RemoteProject>, matches: Matcher) returns (prjs: seq<RemoteProject>)
      ensures prjs == SelectBy(found, ProjectFilter(prefix, filter, matches))
    {
      prjs := [];
      for k := 0 to |found|
        invariant prjs == SelectBy(found[..k], ProjectFilter(prefix, filter, matches))
      {
        SelectByStep(found, k, ProjectFilter(prefix, filter, matches));
        var cs := CodestreamOf(prefix, found[k].name);
        assert ProjectFilter(prefix, filter, matches)(found[k]) == NameFilter(prefix, filter, matches)(found[k].name);
        assert NameFilter(prefix, filter, matches)(found[k].name) <==> filter == "" || matches(filter, cs);
        if filter != "" && !matches(filter, cs) {
          continue;
        }
        prjs := prjs + [found[k]];
      }
      assert found[..|found|] == found;
    }

    /** `download`: one item per livepatch RPM of every architecture of every
        project, numbered from 1; `total` becomes their number. The binary
        list of a project and architecture is `binaries(prj, arch)`. */
    method Download(found: seq<RemoteProject>, matches: Matcher,
                    binaries: (string, string) -> seq<string>) returns (rpms: seq<WorkItem>)
      modifies this
      ensures Unnumbered(rpms)
           == DownloadWork(prefix, SelectBy(found, ProjectFilter(prefix, filter, matches)), binaries)
      ensures NumberedFromOne(rpms)
      ensures total == |rpms|
    {
      var prjs := GetProjects(found, matches);
      rpms := [];
      var i := 1;
      for p := 0 to |prjs|
        invariant i == |rpms| + 1
        invariant NumberedFromOne(rpms)
        invariant Unnumbered(rpms) == DownloadWork(prefix, prjs[..p], binaries)
      {
        rpms, i := AppendProjectRpms(rpms, i, prefix, prjs[p], binaries);
        assert prjs[..p + 1][..p] == prjs[..p];
      }
      assert prjs[..|prjs|] == prjs;
      total := |rpms|;
    }

    /** `download_cs_data` up to the dispatch: for every codestream, every
        architecture of the package table it supports and every package of
        that architecture, one item per RPM the package's regex picks out of
        the binary list, numbered from 1; `total` becomes their number.
        `matched(regex, prj, repo, arch, pkg)` is what the regex finds. */
    method DownloadCsData(csList: seq<Codestream>,
                          matched: (string, string, string, string, string) -> seq<string>)
      returns (rpms: seq<WorkItem>)
      modifies this
      ensures Unnumbered(rpms) == CsDataWork(csList, matched)
      ensures NumberedFromOne(rpms)
      ensures total == |rpms|
    {
      rpms := [];
      var i := 1;
      for c := 0 to |csList|
        invariant i == |rpms| + 1
        invariant NumberedFromOne(rpms)
        invariant Unnumbered(rpms) == CsDataWork(csList[..c], matched)
      {
        rpms, i := AppendCodestreamRpms(rpms, i, csList[c], matched);
        assert csList[..c + 1][..c] == csList[..c];
      }
      assert csList[..|csList|] == csList;
      total := |rpms|;
    }
  }
}
