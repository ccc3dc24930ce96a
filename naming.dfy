/** How the build driver names things: the user name taken from the e-mail
    address, the private project namespace on the build service, the mapping
    between codestream identifiers (`15.2u25`) and project names
    (`home:<user>:bsc<N>-klp-15_2u25`), and the release names
    (`SLE15-SP2_Update_25`) written into the `RELEASE=` marker. */
module Naming {
  import opened Text
  import opened Options

  /** `\w` of the user-name regex, restricted to ASCII. */
  predicate IsWordChar(c: char)
  {
    'a' <= c <= 'z' || 'A' <= c <= 'Z' || '0' <= c <= '9' || c == '_'
  }

  /** Index `k` holds an `@` right after a word character: the places where
      `(\w+)@` can end. */
  predicate AtAfterWord(s: string, k: int)
  {
    0 < k < |s| && s[k] == '@' && IsWordChar(s[k - 1])
  }

  /** The first such index at or after `from`. */
  function FirstAtAfterWord(s: string, from: nat): (r: Option<nat>)
    ensures r.Some? ==> from <= r.value && AtAfterWord(s, r.value)
    ensures r.Some? ==> forall j :: from <= j < r.value ==> !AtAfterWord(s, j)
    ensures r.None? ==> forall j :: from <= j ==> !AtAfterWord(s, j)
    decreases |s| - from
  {
    if from >= |s| then None
    else if AtAfterWord(s, from) then Some(from)
    else FirstAtAfterWord(s, from + 1)
  }

  /** Where the run of word characters that ends at `end` begins. */
  function WordStart(s: string, end: nat): (r: nat)
    requires end <= |s|
    ensures r <= end && (r == 0 || !IsWordChar(s[r - 1]))
    ensures forall i :: r <= i < end ==> IsWordChar(s[i])
  {
    if end == 0 || !IsWordChar(s[end - 1]) then end else WordStart(s, end - 1)
  }

  /** `u` is the whole run of word characters standing right before the `@`
      at index `k`. */
  predicate UserBefore(s: string, u: string, k: int)
  {
    && AtAfterWord(s, k)
    && 0 < |u| <= k
    && s[k - |u|..k] == u
    && (forall i :: 0 <= i < |u| ==> IsWordChar(u[i]))
    && (k == |u| || !IsWordChar(s[k - |u| - 1]))
  }

  /** `re.search('(\w+)@', email).group(1)`, ibs.py:26; None where the
      source's `.group` call fails because nothing matched. The leftmost match
      is the word run before the first `@` that follows a word character. */
  function UserName(email: string): (r: Option<string>)
    ensures r.None? <==> forall k :: !AtAfterWord(email, k)
    ensures r.Some? ==> exists k :: UserBefore(email, r.value, k)
                                    && forall j :: j < k ==> !AtAfterWord(email, j)
  {
    match FirstAtAfterWord(email, 0)
    case None => None
    case Some(k) =>
      var u := email[WordStart(email, k)..k];
      assert UserBefore(email, u, k);
      Some(u)
  }

  /** `home:{user}:{bsc}-klp`, the namespace of every project the tool owns (ibs.py:27). */
  function ProjectPrefix(user: string, bsc: string): (r: string)
    ensures StartsWith(r, "home:" + user + ":") && EndsWith(r, bsc + "-klp")
  {
    "home:" + user + ":" + bsc + "-klp"
  }

  /** `cs_to_project`: the project that builds codestream `cs`. */
  function ProjectOf(prefix: string, cs: string): (r: string)
    ensures |r| == |prefix| + 1 + |cs| && StartsWith(r, prefix + "-")
    ensures forall i :: 0 <= i < |cs| ==> r[|prefix| + 1 + i] == if cs[i] == '.' then '_' else cs[i]
  {
    prefix + "-" + ReplaceChar(cs, '.', '_')
  }

  /** `convert_prj_to_cs`: every `{prefix}-` is removed, then every `_`
      becomes `.`. */
  function CodestreamOf(prefix: string, prj: string): (r: string)
    ensures '_' !in r && |r| <= |prj|
    ensures !Contains(prj, prefix + "-") ==> r == ReplaceChar(prj, '_', '.')
  {
    var stripped := ReplaceAll(prj, prefix + "-", "");
    assert !Contains(prj, prefix + "-") ==> stripped == prj by {
      if !Contains(prj, prefix + "-") {
        ReplaceAllAbsent(prj, prefix + "-", "");
      }
    }
    ReplaceChar(stripped, '_', '.')
  }

  /** The project name of a codestream converts back to the codestream when
      the codestream has no `_` and, once its dots are turned into
      underscores, does not contain `{prefix}-`. */
  lemma CodestreamOfProjectOf(prefix: string, cs: string)
    requires '_' !in cs
    requires !Contains(ReplaceChar(cs, '.', '_'), prefix + "-")
    ensures CodestreamOf(prefix, ProjectOf(prefix, cs)) == cs
  {
    var pat, t := prefix + "-", ReplaceChar(cs, '.', '_');
    assert ProjectOf(prefix, cs) == pat + t;
    assert (pat + t)[..|pat|] == pat && (pat + t)[|pat|..] == t;
    ReplaceAllAbsent(t, pat, "");
    assert ReplaceAll(pat + t, pat, "") == t;
    ReplaceCharInverse(cs, '.', '_');
  }

  /** Codestream identifiers are digits, dots and letters: for any of them
      without `_` and `-` the round trip holds, whatever the prefix. */
  lemma ProjectNameRoundTrip(prefix: string, cs: string)
    requires '_' !in cs && '-' !in cs
    ensures CodestreamOf(prefix, ProjectOf(prefix, cs)) == cs
  {
    var t := ReplaceChar(cs, '.', '_');
    if Contains(t, prefix + "-") {
      ContainsChar(t, prefix + "-", '-');
      assert false;
    }
    CodestreamOfProjectOf(prefix, cs);
  }

  /** A codestream with `_` in it cannot be told apart from the one with `.`
      instead: both get the same project. */
  lemma UnderscoreCodestreamsCollide(prefix: string)
    ensures ProjectOf(prefix, "15_2u25") == ProjectOf(prefix, "15.2u25")
    ensures CodestreamOf(prefix, ProjectOf(prefix, "15_2u25")) == "15.2u25"
  {
    assert ReplaceChar("15_2u25", '.', '_') == "15_2u25";
    assert ReplaceChar("15.2u25", '.', '_') == "15_2u25";
    ProjectNameRoundTrip(prefix, "15.2u25");
  }

  /** What `get_cs_tuple` gives for a codestream: SLE major version, service
      pack, update number and whether it is a realtime kernel. */
  datatype CsTuple = CsTuple(sle: nat, sp: nat, up: nat, rt: bool)

  /** `get_full_cs`: `SLE{sle}`, then `-SP{sp}` when the service pack is not
      0, `-RT` for realtime kernels, and `_Update_{up}`. */
  function FullCs(t: CsTuple): (r: string)
    ensures StartsWith(r, "SLE") && EndsWith(r, "_Update_" + NatToString(t.up))
  {
    "SLE" + NatToString(t.sle) + ServicePackPart(t.sp) + RtUpdatePart(t.rt, t.up)
  }

  /** `15.2u25` is released as `SLE15-SP2_Update_25`. */
  lemma FullCsServicePackExample()
    ensures FullCs(CsTuple(15, 2, 25, false)) == "SLE" + "15" + "-SP2" + "_Update_25"
  {
    assert NatToString(15) == "15";
    assert ServicePackPart(2) == "-SP2";
    assert NatToString(25) == "25";
    assert RtUpdatePart(false, 25) == "_Update_25";
  }

  /** Service pack 0 is left out of the name. */
  lemma FullCsNoServicePackExample()
    ensures FullCs(CsTuple(12, 0, 3, false)) == "SLE" + "12" + "_Update_3"
  {
    assert NatToString(12) == "12" && NatToString(3) == "3";
  }

  /** Realtime kernels carry `-RT` after the service pack. */
  lemma FullCsRealtimeExample()
    ensures FullCs(CsTuple(15, 4, 10, true)) == "SLE" + "15" + "-SP4" + "-RT_Update_10"
  {
    assert NatToString(15) == "15";
    assert ServicePackPart(4) == "-SP4";
    assert NatToString(10) == "10";
    assert RtUpdatePart(true, 10) == "-RT_Update_10";
  }

  /** The part of a release name after the service pack. */
  function RtUpdatePart(rt: bool, up: nat): string
  {
    (if rt then "-RT" else "") + "_Update_" + NatToString(up)
  }

  /** The service-pack part of a release name. */
  function ServicePackPart(sp: nat): string
  {
    if sp > 0 then "-SP" + NatToString(sp) else ""
  }

  /** An optional `-SP{digits}` at the front of `s`; a missing one reads as 0. */
  function ParseServicePack(s: string): Option<(nat, string)>
  {
    if StartsWith(s, "-SP") then
      var (d, rest) := SplitDigits(s[3..]);
      if d == [] then None else Some((DigitsValue(d), rest))
    else
      Some((0, s))
  }

  /** An optional `-RT`, then `_Update_{digits}` and nothing more. */
  function ParseRtUpdate(s: string): Option<(bool, nat)>
  {
    var rt := StartsWith(s, "-RT");
    var rest := if rt then s[3..] else s;
    if !StartsWith(rest, "_Update_") then None
    else
      var (up, tail) := SplitDigits(rest[8..]);
      if up == [] || tail != [] then None else Some((rt, DigitsValue(up)))
  }

  /** Reads a release name back into its tuple: the inverse of FullCs. */
  function ParseFullCs(s: string): Option<CsTuple>
  {
    if !StartsWith(s, "SLE") then None
    else
      var (sle, r1) := SplitDigits(s[3..]);
      if sle == [] then None
      else
        match ParseServicePack(r1)
        case None => None
        case Some((sp, r2)) =>
          match ParseRtUpdate(r2)
          case None => None
          case Some((rt, up)) => Some(CsTuple(DigitsValue(sle), sp, up, rt))
  }

  lemma ParseRtUpdateOf(rt: bool, up: nat)
    ensures ParseRtUpdate(RtUpdatePart(rt, up)) == Some((rt, up))
  {
    var d := NatToString(up);
    var tail := "_Update_" + d;
    var s := RtUpdatePart(rt, up);
    if rt {
      assert s == "-RT" + tail;
      assert s[..3] == "-RT" && s[3..] == tail;
    } else {
      assert s == tail && s[0] == '_';
    }
    assert tail[..8] == "_Update_" && tail[8..] == d;
    assert d + [] == d;
    SplitDigitsPrefix(d, []);
    DigitsValueOfNatToString(up);
  }

  lemma ParseServicePackOf(sp: nat, rest: string)
    requires rest != [] && (rest[0] == '_' || (|rest| > 1 && rest[0] == '-' && rest[1] == 'R'))
    ensures ParseServicePack(ServicePackPart(sp) + rest) == Some((sp, rest))
  {
    if sp > 0 {
      var n := NatToString(sp);
      var s := ServicePackPart(sp) + rest;
      assert s == "-SP" + (n + rest);
      assert s[..3] == "-SP" && s[3..] == n + rest;
      SplitDigitsPrefix(n, rest);
      DigitsValueOfNatToString(sp);
    } else {
      assert ServicePackPart(sp) + rest == rest;
      assert !StartsWith(rest, "-SP") by {
        if |rest| >= 3 && rest[0] == '-' { assert rest[..3][1] == 'R'; }
      }
    }
  }

  /** Every release name reads back as the tuple it was made from. */
  lemma FullCsParses(t: CsTuple)
    ensures ParseFullCs(FullCs(t)) == Some(t)
  {
    var a := NatToString(t.sle);
    var r2 := RtUpdatePart(t.rt, t.up);
    var r1 := ServicePackPart(t.sp) + r2;
    var s := FullCs(t);
    assert s == "SLE" + (a + r1);
    assert s[..3] == "SLE" && s[3..] == a + r1;
    assert r2[0] == '_' || (r2[0] == '-' && r2[1] == 'R');
    ParseServicePackOf(t.sp, r2);
    assert r1[0] == '-' || r1[0] == '_';
    SplitDigitsPrefix(a, r1);
    DigitsValueOfNatToString(t.sle);
    ParseRtUpdateOf(t.rt, t.up);
  }

  /** Two tuples with the same release name are the same tuple. */
  lemma FullCsInjective(t1: CsTuple, t2: CsTuple)
    requires FullCs(t1) == FullCs(t2)
    ensures t1 == t2
  {
    FullCsParses(t1);
    FullCsParses(t2);
  }

  /** The `RELEASE=` line written to `scripts/release-version.sh`: the release
      name with every `EMBARGO` removed. A release name made from numbers
      never contains `EMBARGO`, so the line carries it unchanged. */
  function ReleaseVersionLine(t: CsTuple): (r: string)
    ensures r == "RELEASE=" + FullCs(t)
  {
    NoEmbargoInFullCs(t);
    ReplaceAllAbsent(FullCs(t), "EMBARGO", "");
    "RELEASE=" + ReplaceAll(FullCs(t), "EMBARGO", "")
  }

  lemma NoEmbargoInFullCs(t: CsTuple)
    ensures !Contains(FullCs(t), "EMBARGO")
  {
    var s := FullCs(t);
    forall i | 0 <= i < |NatToString(t.sle)| ensures NatToString(t.sle)[i] != 'M' {
      assert IsDigit(NatToString(t.sle)[i]);
    }
    forall i | 0 <= i < |NatToString(t.sp)| ensures NatToString(t.sp)[i] != 'M' {
      assert IsDigit(NatToString(t.sp)[i]);
    }
    forall i | 0 <= i < |NatToString(t.up)| ensures NatToString(t.up)[i] != 'M' {
      assert IsDigit(NatToString(t.up)[i]);
    }
    assert 'M' !in s;
    if Contains(s, "EMBARGO") {
      ContainsChar(s, "EMBARGO", 'M');
    }
  }
}
