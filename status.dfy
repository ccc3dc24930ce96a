/** The build-status poller: round after round it asks the build service for
    the results of every livepatch project not yet finished, reports one line
    per project and remembers the projects whose every architecture has
    reached a terminal state, so they are not shown again. */
module BuildStatus {
  import opened Selection

  /** The build states after which the service does no more work. */
  const Terminal: set<string> := {"succeeded", "unresolvable", "failed"}

  /** A Python dictionary with string keys: `keys` in insertion order. */
  datatype Dict<V> = Dict(keys: seq<string>, values: map<string, V>)

  predicate Distinct(s: seq<string>)
  {
    forall i, j :: 0 <= i < j < |s| ==> s[i] != s[j]
  }

  /** Every key is listed exactly once. */
  ghost predicate ValidDict<V>(d: Dict<V>)
  {
    && Distinct(d.keys)
    && (forall i :: 0 <= i < |d.keys| ==> d.keys[i] in d.values)
    && (forall k :: k in d.values ==> k in d.keys)
  }

  function EmptyDict<V>(): (d: Dict<V>)
    ensures ValidDict(d) && d.keys == []
  {
    Dict([], map[])
  }

  /** `d[k] = v`: a new key goes to the end, an existing one keeps its place. */
  function Put<V>(d: Dict<V>, k: string, v: V): (r: Dict<V>)
    ensures r.values == d.values[k := v]
    ensures k in d.values ==> r.keys == d.keys
    ensures k !in d.values ==> r.keys == d.keys + [k]
  {
    if k in d.values then Dict(d.keys, d.values[k := v]) else Dict(d.keys + [k], d.values[k := v])
  }

  /** Assignment keeps every key listed exactly once. */
  lemma PutValid<V>(d: Dict<V>, k: string, v: V)
    requires ValidDict(d)
    ensures ValidDict(Put(d, k, v))
  {
  }

  /** The `result` entry of one architecture: `arch` and `status/@code`. */
  datatype ArchStatus = ArchStatus(arch: string, code: string)

  /** `prjs[prj]`: the code of every architecture, the last result of an
      architecture overwriting earlier ones. */
  function ArchCodes(rs: seq<ArchStatus>): (r: Dict<string>)
    ensures |r.keys| <= |rs|
    ensures rs != [] ==> rs[|rs| - 1].arch in r.values && r.values[rs[|rs| - 1].arch] == rs[|rs| - 1].code
  {
    if rs == [] then EmptyDict()
    else Put(ArchCodes(rs[..|rs| - 1]), rs[|rs| - 1].arch, rs[|rs| - 1].code)
  }

  lemma {:induction false} ArchCodesValid(rs: seq<ArchStatus>)
    ensures ValidDict(ArchCodes(rs))
  {
    if rs != [] {
      ArchCodesValid(rs[..|rs| - 1]);
      PutValid(ArchCodes(rs[..|rs| - 1]), rs[|rs| - 1].arch, rs[|rs| - 1].code);
    }
  }

  /** Every state of the project is terminal. */
  predicate AllTerminal(d: Dict<string>)
  {
    forall k :: k in d.values ==> d.values[k] in Terminal
  }

  /** `rs[i]` is the last result the service gave for its architecture. */
  predicate IsLast(rs: seq<ArchStatus>, i: int)
    requires 0 <= i < |rs|
  {
    forall j :: i < j < |rs| ==> rs[j].arch != rs[i].arch
  }

  /** The dictionary holds, for each architecture the service reported, the
      code of its last result. */
  lemma {:induction false} ArchCodesLastWins(rs: seq<ArchStatus>)
    ensures forall a :: a in ArchCodes(rs).values <==> exists i :: 0 <= i < |rs| && rs[i].arch == a
    ensures forall i :: 0 <= i < |rs| && IsLast(rs, i) ==> ArchCodes(rs).values[rs[i].arch] == rs[i].code
  {
    if rs != [] {
      var init := rs[..|rs| - 1];
      ArchCodesLastWins(init);
      forall i | 0 <= i < |rs| && IsLast(rs, i)
        ensures ArchCodes(rs).values[rs[i].arch] == rs[i].code
      {
        if i < |rs| - 1 {
          assert init[i] == rs[i];
          assert IsLast(init, i);
        }
      }
      forall a | a in ArchCodes(rs).values
        ensures exists i :: 0 <= i < |rs| && rs[i].arch == a
      {
        if a != rs[|rs| - 1].arch {
          var i :| 0 <= i < |init| && init[i].arch == a;
          assert rs[i].arch == a;
        }
      }
      forall a | exists i :: 0 <= i < |rs| && rs[i].arch == a
        ensures a in ArchCodes(rs).values
      {
        var i :| 0 <= i < |rs| && rs[i].arch == a;
        if i < |rs| - 1 {
          assert init[i].arch == a;
        }
      }
    }
  }

  /** A project is finished exactly when the last result of each of its
      architectures is terminal; a project without results is finished. */
  lemma FinishedIff(rs: seq<ArchStatus>)
    ensures AllTerminal(ArchCodes(rs)) <==> forall i :: 0 <= i < |rs| && IsLast(rs, i) ==> rs[i].code in Terminal
    ensures rs == [] ==> AllTerminal(ArchCodes(rs))
  {
    ArchCodesLastWins(rs);
    var d := ArchCodes(rs);
    if forall i :: 0 <= i < |rs| && IsLast(rs, i) ==> rs[i].code in Terminal {
      forall a | a in d.values ensures d.values[a] in Terminal {
        var i :| 0 <= i < |rs| && rs[i].arch == a;
        var j := LastIndex(rs, i);
        assert d.values[rs[j].arch] == rs[j].code;
      }
    }
  }

  /** The index of the last result for the architecture of `rs[i]`. */
  lemma LastIndex(rs: seq<ArchStatus>, i: nat) returns (j: nat)
    requires i < |rs|
    ensures i <= j < |rs| && rs[j].arch == rs[i].arch && IsLast(rs, j)
    decreases |rs| - i
  {
    if IsLast(rs, i) {
      j := i;
    } else {
      var k :| i < k < |rs| && rs[k].arch == rs[i].arch;
      j := LastIndex(rs, k);
    }
  }

  /** The first loop of a round (ibs.py:421-430): every listed project not
      yet finished, with the codes the service returned for it. */
  function Collect(names: seq<string>, finished: seq<string>, builds: string -> seq<ArchStatus>)
    : (r: Dict<Dict<string>>)
    ensures |r.keys| <= |names|
    ensures forall p :: p in r.values ==> p !in finished && r.values[p] == ArchCodes(builds(p))
  {
    if names == [] then EmptyDict()
    else
      var last := names[|names| - 1];
      var d := Collect(names[..|names| - 1], finished, builds);
      if last in finished then d else Put(d, last, ArchCodes(builds(last)))
  }

  /** Finished projects are neither queried nor kept; every other listed
      project is, with the service's answer for it. */
  lemma {:induction false} CollectKeys(names: seq<string>, finished: seq<string>, builds: string -> seq<ArchStatus>)
    ensures forall p :: p in Collect(names, finished, builds).values <==> p in names && p !in finished
    ensures forall p :: p in Collect(names, finished, builds).values ==>
              Collect(names, finished, builds).values[p] == ArchCodes(builds(p))
  {
    if names != [] {
      CollectKeys(names[..|names| - 1], finished, builds);
      assert names == names[..|names| - 1] + [names[|names| - 1]];
    }
  }

  /** The round's dictionary and each project's dictionary list every key once. */
  lemma {:induction false} CollectValid(names: seq<string>, finished: seq<string>, builds: string -> seq<ArchStatus>)
    ensures ValidDict(Collect(names, finished, builds))
    ensures forall p :: p in Collect(names, finished, builds).values ==> ValidDict(Collect(names, finished, builds).values[p])
  {
    if names != [] {
      var last := names[|names| - 1];
      CollectValid(names[..|names| - 1], finished, builds);
      if last !in finished {
        ArchCodesValid(builds(last));
        PutValid(Collect(names[..|names| - 1], finished, builds), last, ArchCodes(builds(last)));
      }
    }
  }

  /** The test of the second loop (ibs.py:437-444). */
  function Done(prjs: Dict<Dict<string>>): string -> bool
  {
    p => p in prjs.values && AllTerminal(prjs.values[p])
  }

  /** The projects a round adds to `finished_prj`, in the round's order. */
  function NewlyFinished(prjs: Dict<Dict<string>>): (r: seq<string>)
    ensures |r| <= |prjs.keys|
    ensures forall i :: 0 <= i < |r| ==> r[i] in prjs.values && AllTerminal(prjs.values[r[i]])
  {
    SelectBy(prjs.keys, Done(prjs))
  }

  /** One logged line: the project and its `arch: code` entries. */
  datatype Line = Line(prj: string, st: seq<ArchStatus>)

  /** The `arch: code` entries of a project, in the dictionary's order. */
  function Items(d: Dict<string>): (st: seq<ArchStatus>)
    ensures |st| == |d.keys|
    ensures forall i :: 0 <= i < |st| ==> st[i].arch == d.keys[i]
    ensures ValidDict(d) ==> forall i :: 0 <= i < |st| ==> st[i].code == d.values[d.keys[i]]
  {
    seq(|d.keys|, i requires 0 <= i < |d.keys| =>
      ArchStatus(d.keys[i], if d.keys[i] in d.values then d.values[d.keys[i]] else ""))
  }

  /** A line shows only terminal states exactly when its project is finished. */
  lemma ItemsTerminal(d: Dict<string>)
    requires ValidDict(d)
    ensures AllTerminal(d) <==> forall s :: s in Items(d) ==> s.code in Terminal
  {
    if forall s :: s in Items(d) ==> s.code in Terminal {
      forall a | a in d.values ensures d.values[a] in Terminal {
        var k :| 0 <= k < |d.keys| && d.keys[k] == a;
        assert Items(d)[k] in Items(d);
      }
    }
  }

  /** The lines of a round, one per collected project, in order. */
  function Lines(prjs: Dict<Dict<string>>): (ls: seq<Line>)
    ensures |ls| == |prjs.keys|
  {
    LinesOf(prjs.keys, prjs.values)
  }

  function LinesOf(keys: seq<string>, values: map<string, Dict<string>>): (ls: seq<Line>)
    ensures |ls| == |keys|
  {
    if keys == [] then []
    else
      var p := keys[|keys| - 1];
      LinesOf(keys[..|keys| - 1], values) + [Line(p, if p in values then Items(values[p]) else [])]
  }

  /** One more key adds its line at the end. */
  lemma LinesOfStep(keys: seq<string>, values: map<string, Dict<string>>, k: nat)
    requires k < |keys| && keys[k] in values
    ensures LinesOf(keys[..k + 1], values) == LinesOf(keys[..k], values) + [Line(keys[k], Items(values[keys[k]]))]
  {
    assert keys[..k + 1][..k] == keys[..k];
  }

  /** What the build service answers in one round: the project list
      (`get_project_names`) and each project's results (`build.get`). */
  datatype Round = Round(names: seq<string>, builds: string -> seq<ArchStatus>)

  /** The finished projects at the end, and `finished_prj` as each round
      found it. */
  datatype Outcome = Outcome(finished: seq<string>, starts: seq<seq<string>>)

  /** `status` (ibs.py:418-453) over the answers of successive rounds: it
      stops after a round when `wait` is off or the round found no unfinished
      project, and also when the answers run out. */
  function Run(wait: bool, finished: seq<string>, rounds: seq<Round>): (r: Outcome)
    ensures |r.starts| <= |rounds|
    ensures finished <= r.finished
    decreases |rounds|
  {
    if rounds == [] then Outcome(finished, [])
    else
      var prjs := Collect(rounds[0].names, finished, rounds[0].builds);
      var finished' := finished + NewlyFinished(prjs);
      if !wait || prjs.keys == [] then Outcome(finished', [finished])
      else
        var rest := Run(wait, finished', rounds[1..]);
        Outcome(rest.finished, [finished] + rest.starts)
  }

  /** The projects round `i` of a run showed, with their codes (its `prjs`). */
  function Shown(rounds: seq<Round>, r: Outcome, i: nat): (d: Dict<Dict<string>>)
    requires i < |r.starts| <= |rounds|
    ensures |d.keys| <= |rounds[i].names|
    ensures forall p :: p in d.values ==> p !in r.starts[i]
  {
    Collect(rounds[i].names, r.starts[i], rounds[i].builds)
  }

  /** The first round starts from the `finished_prj` the run was given. */
  lemma RunFirst(wait: bool, finished: seq<string>, rounds: seq<Round>)
    requires rounds != []
    ensures |Run(wait, finished, rounds).starts| > 0
    ensures Run(wait, finished, rounds).starts[0] == finished
  {
  }

  /** The run goes on after round `i` only when waiting and round `i` showed
      some project; round `i + 1` then starts from round `i`'s
      `finished_prj` with the projects round `i` found finished appended. */
  lemma {:induction false} RunNext(wait: bool, finished: seq<string>, rounds: seq<Round>, i: nat)
    requires i + 1 < |Run(wait, finished, rounds).starts|
    ensures wait && Shown(rounds, Run(wait, finished, rounds), i).keys != []
    ensures Run(wait, finished, rounds).starts[i + 1]
         == Run(wait, finished, rounds).starts[i] + NewlyFinished(Shown(rounds, Run(wait, finished, rounds), i))
    decreases i
  {
    var prjs := Collect(rounds[0].names, finished, rounds[0].builds);
    var finished' := finished + NewlyFinished(prjs);
    var rest := Run(wait, finished', rounds[1..]);
    var r := Run(wait, finished, rounds);
    assert r.starts == [finished] + rest.starts;
    if i == 0 {
      RunFirst(wait, finished', rounds[1..]);
    } else {
      RunNext(wait, finished', rounds[1..], i - 1);
      assert rounds[1..][i - 1] == rounds[i];
    }
  }

  /** The last round gives the result, and it is the last because the
      answers ran out, `wait` is off, or it showed no project. */
  lemma {:induction false} RunLast(wait: bool, finished: seq<string>, rounds: seq<Round>)
    requires rounds != []
    ensures var r := Run(wait, finished, rounds);
            && r.finished == r.starts[|r.starts| - 1] + NewlyFinished(Shown(rounds, r, |r.starts| - 1))
            && (|r.starts| < |rounds| ==> !wait || Shown(rounds, r, |r.starts| - 1).keys == [])
    decreases |rounds|
  {
    var prjs := Collect(rounds[0].names, finished, rounds[0].builds);
    var finished' := finished + NewlyFinished(prjs);
    if wait && prjs.keys != [] && |rounds| > 1 {
      RunLast(wait, finished', rounds[1..]);
      var rest := Run(wait, finished', rounds[1..]);
      var r := Run(wait, finished, rounds);
      assert r.starts == [finished] + rest.starts;
      assert rounds[1..][|rest.starts| - 1] == rounds[|r.starts| - 1];
    }
  }

  /** Without `wait` the poller makes exactly one round. */
  lemma OneRoundWithoutWait(finished: seq<string>, rounds: seq<Round>)
    requires rounds != []
    ensures |Run(false, finished, rounds).starts| == 1
  {
  }

  /** `finished_prj` only grows, round after round. */
  lemma {:induction false} StartsGrow(wait: bool, finished: seq<string>, rounds: seq<Round>, i: nat, j: nat)
    requires i <= j < |Run(wait, finished, rounds).starts|
    ensures |Run(wait, finished, rounds).starts[i]| <= |Run(wait, finished, rounds).starts[j]|
    ensures Run(wait, finished, rounds).starts[j][..|Run(wait, finished, rounds).starts[i]|]
         == Run(wait, finished, rounds).starts[i]
    decreases j - i
  {
    var r := Run(wait, finished, rounds);
    if i < j {
      StartsGrow(wait, finished, rounds, i, j - 1);
      RunNext(wait, finished, rounds, j - 1);
      assert r.starts[j][..|r.starts[j - 1]|] == r.starts[j - 1];
      assert r.starts[j][..|r.starts[i]|] == r.starts[j - 1][..|r.starts[i]|];
    }
  }

  /** A round's new finished projects are new and distinct. */
  lemma RoundKeepsDistinct(names: seq<string>, finished: seq<string>, builds: string -> seq<ArchStatus>)
    requires Distinct(finished)
    ensures Distinct(finished + NewlyFinished(Collect(names, finished, builds)))
  {
    var prjs := Collect(names, finished, builds);
    CollectKeys(names, finished, builds);
    CollectValid(names, finished, builds);
    SelectByDistinct(prjs.keys, Done(prjs));
    SelectByMembers(prjs.keys, Done(prjs));
    var s := finished + NewlyFinished(prjs);
    forall i, j | 0 <= i < j < |s| ensures s[i] != s[j] {
      if j >= |finished| {
        assert s[j] in NewlyFinished(prjs);
        assert s[j] in prjs.values;
      }
    }
  }

  /** `finished_prj` never lists a project twice. */
  lemma {:induction false} RunKeepsDistinct(wait: bool, finished: seq<string>, rounds: seq<Round>)
    requires Distinct(finished)
    ensures Distinct(Run(wait, finished, rounds).finished)
    decreases |rounds|
  {
    if rounds != [] {
      RoundKeepsDistinct(rounds[0].names, finished, rounds[0].builds);
      var prjs := Collect(rounds[0].names, finished, rounds[0].builds);
      if wait && prjs.keys != [] {
        RunKeepsDistinct(wait, finished + NewlyFinished(prjs), rounds[1..]);
      }
    }
  }

  /** A project finished before a round is neither queried nor shown in it
      or in any later round. */
  lemma FinishedNeverShown(wait: bool, finished: seq<string>, rounds: seq<Round>, i: nat, j: nat, p: string)
    requires i <= j < |Run(wait, finished, rounds).starts|
    requires p in Run(wait, finished, rounds).starts[i]
    ensures p !in Shown(rounds, Run(wait, finished, rounds), j).values
  {
    var r := Run(wait, finished, rounds);
    StartsGrow(wait, finished, rounds, i, j);
    var k :| 0 <= k < |r.starts[i]| && r.starts[i][k] == p;
    assert r.starts[j][k] == p;
    CollectKeys(rounds[j].names, r.starts[j], rounds[j].builds);
  }

  /** A project shown with only terminal states is not shown in any later
      round. */
  lemma DoneProjectLeaves(wait: bool, finished: seq<string>, rounds: seq<Round>, i: nat, j: nat, p: string)
    requires i < j < |Run(wait, finished, rounds).starts|
    requires p in Shown(rounds, Run(wait, finished, rounds), i).values
    requires AllTerminal(Shown(rounds, Run(wait, finished, rounds), i).values[p])
    ensures p !in Shown(rounds, Run(wait, finished, rounds), j).values
  {
    var r := Run(wait, finished, rounds);
    var prjs := Shown(rounds, r, i);
    RunNext(wait, finished, rounds, i);
    CollectValid(rounds[i].names, r.starts[i], rounds[i].builds);
    JoinsFinished(prjs, p);
    assert p in r.starts[i + 1];
    FinishedNeverShown(wait, finished, rounds, i + 1, j, p);
  }

  /** A shown project whose states are all terminal is added to `finished_prj`. */
  lemma JoinsFinished(prjs: Dict<Dict<string>>, p: string)
    requires ValidDict(prjs) && p in prjs.values && AllTerminal(prjs.values[p])
    ensures p in NewlyFinished(prjs)
  {
    SelectByMembers(prjs.keys, Done(prjs));
  }

  /** One more key adds that project to the finished ones exactly when all
      its states are terminal. */
  lemma FinishedStep(prjs: Dict<Dict<string>>, k: nat, done: bool)
    requires k < |prjs.keys| && prjs.keys[k] in prjs.values
    requires done == AllTerminal(prjs.values[prjs.keys[k]])
    ensures SelectBy(prjs.keys[..k + 1], Done(prjs))
         == SelectBy(prjs.keys[..k], Done(prjs)) + if done then [prjs.keys[k]] else []
  {
    SelectByStep(prjs.keys, k, Done(prjs));
  }

  /** `prjs[prj][arch] = code` for every result of a project (ibs.py:428-430). */
  method CodesOf(results: seq<ArchStatus>) returns (codes: Dict<string>)
    ensures codes == ArchCodes(results)
  {
    codes := EmptyDict();
    for k := 0 to |results|
      invariant codes == ArchCodes(results[..k])
    {
      assert results[..k + 1][..k] == results[..k];
      codes := Put(codes, results[k].arch, results[k].code);
    }
    assert results[..|results|] == results;
  }

  /** The first loop of a round (ibs.py:421-430). */
  method CollectRound(names: seq<string>, finished: seq<string>, builds: string -> seq<ArchStatus>)
    returns (prjs: Dict<Dict<string>>)
    ensures prjs == Collect(names, finished, builds)
  {
    prjs := EmptyDict();
    for k := 0 to |names|
      invariant prjs == Collect(names[..k], finished, builds)
    {
      assert names[..k + 1][..k] == names[..k];
      var prj := names[k];
      if prj in finished {
        continue;
      }
      var codes := CodesOf(builds(prj));
      prjs := Put(prjs, prj, codes);
    }
    assert names[..|names|] == names;
  }

  /** The line of one project and whether it is finished (ibs.py:433-441). */
  method ProjectLine(codes: Dict<string>) returns (st: seq<ArchStatus>, finished: bool)
    requires ValidDict(codes)
    ensures st == Items(codes)
    ensures finished <==> AllTerminal(codes)
  {
    st := [];
    finished := true;
    for k := 0 to |codes.keys|
      invariant st == Items(codes)[..k]
      invariant finished <==> forall m :: 0 <= m < k ==> codes.values[codes.keys[m]] in Terminal
    {
      var v := codes.values[codes.keys[k]];
      st := st + [ArchStatus(codes.keys[k], v)];
      if v !in Terminal {
        finished := false;
      }
    }
    assert forall a :: a in codes.values ==> exists m :: 0 <= m < |codes.keys| && codes.keys[m] == a;
  }

  /** The second loop of a round (ibs.py:432-446): one line per project and
      the finished ones appended to `finished_prj`. */
  method ReportRound(prjs: Dict<Dict<string>>, finished: seq<string>)
    returns (finished': seq<string>, lines: seq<Line>)
    requires forall p :: p in prjs.keys ==> p in prjs.values && ValidDict(prjs.values[p])
    ensures finished' == finished + NewlyFinished(prjs)
    ensures lines == Lines(prjs)
  {
    finished', lines := finished, [];
    for k := 0 to |prjs.keys|
      invariant finished' == finished + SelectBy(prjs.keys[..k], Done(prjs))
      invariant lines == LinesOf(prjs.keys[..k], prjs.values)
    {
      assert prjs.keys[k] in prjs.keys;
      finished', lines := ReportProject(prjs, k, finished, finished', lines);
    }
    assert prjs.keys[..|prjs.keys|] == prjs.keys;
  }

  /** One pass of the second loop: the line of `prjs.keys[k]`, and the
      project appended to `finished_prj` when it is finished. */
  method ReportProject(prjs: Dict<Dict<string>>, k: nat, finished: seq<string>,
                       finished': seq<string>, lines: seq<Line>)
    returns (finished'': seq<string>, lines': seq<Line>)
    requires k < |prjs.keys| && prjs.keys[k] in prjs.values && ValidDict(prjs.values[prjs.keys[k]])
    requires finished' == finished + SelectBy(prjs.keys[..k], Done(prjs))
    requires lines == LinesOf(prjs.keys[..k], prjs.values)
    ensures finished'' == finished + SelectBy(prjs.keys[..k + 1], Done(prjs))
    ensures lines' == LinesOf(prjs.keys[..k + 1], prjs.values)
  {
    var prj := prjs.keys[k];
    var st, done := ProjectLine(prjs.values[prj]);
    FinishedStep(prjs, k, done);
    LinesOfStep(prjs.keys, prjs.values, k);
    finished'' := if done then finished' + [prj] else finished';
    lines' := lines + [Line(prj, st)];
  }

  /** The lines logged by the first `n` rounds of a run. */
  function Reports(rounds: seq<Round>, run: Outcome, n: nat): (ls: seq<seq<Line>>)
    requires n <= |run.starts| <= |rounds|
    ensures |ls| == n
  {
    if n == 0 then [] else Reports(rounds, run, n - 1) + [Lines(Shown(rounds, run, n - 1))]
  }

  /** Round `i` logged one line per project it showed. */
  lemma {:induction false} ReportsAt(rounds: seq<Round>, run: Outcome, n: nat, i: nat)
    requires i < n <= |run.starts| <= |rounds|
    ensures Reports(rounds, run, n)[i] == Lines(Shown(rounds, run, i))
    decreases n
  {
    if i < n - 1 {
      ReportsAt(rounds, run, n - 1, i);
    }
  }

  /** Round `r` of a run ends the run exactly when `wait` is off, the round
      showed nothing or the answers run out; otherwise round `r + 1` starts
      from what round `r` left. */
  lemma RunStep(wait: bool, rounds: seq<Round>, r: nat)
    requires r < |Run(wait, [], rounds).starts|
    ensures var run := Run(wait, [], rounds);
            var next := run.starts[r] + NewlyFinished(Shown(rounds, run, r));
            if wait && Shown(rounds, run, r).keys != [] && r + 1 < |rounds|
            then r + 1 < |run.starts| && run.starts[r + 1] == next
            else |run.starts| == r + 1 && run.finished == next
  {
    var run := Run(wait, [], rounds);
    RunLast(wait, [], rounds);
    if r + 1 < |run.starts| {
      RunNext(wait, [], rounds, r);
    }
  }

  /** One round of `status` (ibs.py:421-446): the projects it shows, their
      lines, and `finished_prj` afterwards. */
  method PollRound(round: Round, finished: seq<string>)
    returns (finished': seq<string>, lines: seq<Line>, shown: bool)
    ensures finished' == finished + NewlyFinished(Collect(round.names, finished, round.builds))
    ensures lines == Lines(Collect(round.names, finished, round.builds))
    ensures shown <==> Collect(round.names, finished, round.builds).keys != []
  {
    var prjs := CollectRound(round.names, finished, round.builds);
    CollectValid(round.names, finished, round.builds);
    finished', lines := ReportRound(prjs, finished);
    shown := prjs.keys != [];
  }

  /** `status` (ibs.py:418-453), one iteration per round of answers: the
      lines logged in each round are those of the projects `Run` shows. */
  method Status(wait: bool, rounds: seq<Round>) returns (finished: seq<string>, reports: seq<seq<Line>>)
    ensures finished == Run(wait, [], rounds).finished
    ensures |reports| == |Run(wait, [], rounds).starts|
    ensures reports == Reports(rounds, Run(wait, [], rounds), |Run(wait, [], rounds).starts|)
  {
    ghost var run := Run(wait, [], rounds);
    finished, reports := [], [];
    if rounds != [] {
      RunFirst(wait, [], rounds);
    }
    var r := 0;
    while r < |rounds|
      invariant 0 <= r <= |rounds|
      invariant r < |rounds| ==> r < |run.starts| && finished == run.starts[r]
      invariant r == |rounds| ==> |run.starts| == r && finished == run.finished
      invariant r <= |run.starts| && reports == Reports(rounds, run, r)
      decreases |rounds| - r
    {
      ghost var prjs := Shown(rounds, run, r);
      var lines, shown;
      finished, lines, shown := PollRound(rounds[r], finished);
      RunStep(wait, rounds, r);
      reports := reports + [lines];
      assert reports == Reports(rounds, run, r + 1);
      if !wait || !shown {
        return;
      }
      r := r + 1;
    }
  }
}
