/** The check that a livepatch module only needs symbols the kernel defines:
    the module's undefined symbols (the names `nm --undefined-only` lists)
    against the text `nm --defined-only` prints for the kernel image. */
module Symbols {
  import opened Text
  import opened Selection

  /** The test of `find_missing_symbols` (ibs.py:252-254): `' ' + sym` is not
      found in the defined-symbol text. It is a substring test, so a defined
      symbol that merely starts with `sym` counts as defining it. */
  function Unresolved(defined: string): (r: string -> bool)
    ensures forall sym :: r(sym) <==> forall i :: !OccursAt(defined, " " + sym, i)
  {
    sym => !Contains(defined, " " + sym)
  }

  /** `find_missing_symbols` after `nm` ran (ibs.py:249-256): the undefined
      symbols that fail the test, in the module's order. */
  method FindMissingSymbols(undefined: seq<string>, defined: string) returns (missing: seq<string>)
    ensures missing == SelectBy(undefined, Unresolved(defined))
  {
    missing := [];
    for k := 0 to |undefined|
      invariant missing == SelectBy(undefined[..k], Unresolved(defined))
    {
      SelectByStep(undefined, k, Unresolved(defined));
      var sym := undefined[k];
      if !Contains(defined, " " + sym) {
        missing := missing + [sym];
      }
    }
    assert undefined[..|undefined|] == undefined;
  }

  /** A symbol is reported exactly when the module needs it and the kernel
      text does not show it after a blank; a symbol the module lists twice
      is reported twice. */
  lemma MissingSymbols(undefined: seq<string>, defined: string, sym: string)
    ensures sym in SelectBy(undefined, Unresolved(defined))
        <==> sym in undefined && !Contains(defined, " " + sym)
    ensures multiset(SelectBy(undefined, Unresolved(defined)))[sym]
         == if Contains(defined, " " + sym) then 0 else multiset(undefined)[sym]
  {
    SelectByMembers(undefined, Unresolved(defined));
    SelectByCount(undefined, Unresolved(defined), sym);
  }

  /** A defined symbol whose name starts with `sym` hides a missing `sym`. */
  lemma {:induction false} PrefixCountsAsDefined(defined: string, sym: string, rest: string)
    requires Contains(defined, " " + sym + rest)
    ensures !Unresolved(defined)(sym)
  {
    var i :| OccursAt(defined, " " + sym + rest, i);
    var n := |" " + sym|;
    assert defined[i..i + n] == defined[i..i + n + |rest|][..n] == (" " + sym + rest)[..n] == " " + sym;
    assert OccursAt(defined, " " + sym, i);
  }

  /** A symbol whose first character never follows a blank of the text is
      reported. */
  lemma NeverAfterBlank(defined: string, sym: string)
    requires |sym| > 0
    requires forall i :: 0 <= i < |defined| - 1 && defined[i] == ' ' ==> defined[i + 1] != sym[0]
    ensures Unresolved(defined)(sym)
  {
    var pat := " " + sym;
    forall i ensures !OccursAt(defined, pat, i) {
      if 0 <= i && i + |pat| <= |defined| {
        if defined[i] == ' ' {
          assert defined[i..i + |pat|][1] != pat[1];
        } else {
          assert defined[i..i + |pat|][0] != pat[0];
        }
      }
    }
    assert !Contains(defined, pat);
  }

  /** With only `foobar` defined, `foo` passes as defined and `bar`, which
      never follows a blank, is reported. */
  lemma FoobarHidesFoo(defined: string, undefined: seq<string>)
    requires defined == " T foobar" && undefined == ["foo", "bar"]
    ensures SelectBy(undefined, Unresolved(defined)) == ["bar"]
  {
    assert " " + "foo" + "bar" == defined[2..];
    assert OccursAt(defined, " " + "foo" + "bar", 2);
    PrefixCountsAsDefined(defined, "foo", "bar");
    NeverAfterBlank(defined, "bar");
    assert SelectBy(undefined, Unresolved(defined)) == SelectBy(undefined[..1], Unresolved(defined)) + ["bar"];
  }
}
