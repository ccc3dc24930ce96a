/** The list-building loop the build driver writes again and again: walk a
    list, `continue` past the items a test rejects and append the others.
    SelectBy is the specification of every such loop; its lemmas say that it
    keeps exactly the accepted items, in order, with repetitions. */
module Selection {

  /** The items of `xs` that `keep` accepts, in their original order. */
  function SelectBy<T>(xs: seq<T>, keep: T -> bool): (r: seq<T>)
    ensures |r| <= |xs|
    ensures forall i :: 0 <= i < |r| ==> keep(r[i])
  {
    if xs == [] then []
    else SelectBy(xs[..|xs| - 1], keep) + (if keep(xs[|xs| - 1]) then [xs[|xs| - 1]] else [])
  }

  /** One more loop iteration: the selection of a longer prefix extends the
      selection of the shorter one by the new item or by nothing. */
  lemma SelectByStep<T>(xs: seq<T>, i: nat, keep: T -> bool)
    requires i < |xs|
    ensures SelectBy(xs[..i + 1], keep)
         == SelectBy(xs[..i], keep) + (if keep(xs[i]) then [xs[i]] else [])
  {
    assert xs[..i + 1][..i] == xs[..i];
  }

  /** An item is selected exactly when it is in the input and accepted. */
  lemma {:induction false} SelectByMembers<T>(xs: seq<T>, keep: T -> bool)
    ensures forall x :: x in SelectBy(xs, keep) <==> x in xs && keep(x)
  {
    if xs != [] {
      var init := xs[..|xs| - 1];
      SelectByMembers(init, keep);
      assert xs == init + [xs[|xs| - 1]];
    }
  }

  /** Repetitions are kept: an accepted item is selected as many times as it
      occurs in the input, a rejected one never. */
  lemma {:induction false} SelectByCount<T>(xs: seq<T>, keep: T -> bool, x: T)
    ensures multiset(SelectBy(xs, keep))[x] == if keep(x) then multiset(xs)[x] else 0
  {
    if xs != [] {
      var init := xs[..|xs| - 1];
      SelectByCount(init, keep, x);
      assert xs == init + [xs[|xs| - 1]];
    }
  }

  /** When every item is accepted nothing is dropped. */
  lemma {:induction false} SelectByAll<T>(xs: seq<T>, keep: T -> bool)
    requires forall i :: 0 <= i < |xs| ==> keep(xs[i])
    ensures SelectBy(xs, keep) == xs
  {
    if xs != [] {
      var init := xs[..|xs| - 1];
      SelectByAll(init, keep);
      assert xs == init + [xs[|xs| - 1]];
    }
  }

  /** `idx` lists, in increasing order, positions of `b` holding the items of `a`. */
  ghost predicate Embeds<T>(a: seq<T>, b: seq<T>, idx: seq<nat>)
  {
    && |idx| == |a|
    && (forall k :: 0 <= k < |idx| ==> idx[k] < |b| && a[k] == b[idx[k]])
    && (forall k, l :: 0 <= k < l < |idx| ==> idx[k] < idx[l])
  }

  /** `a` is `b` with some items left out and none reordered. */
  ghost predicate IsSubsequence<T>(a: seq<T>, b: seq<T>)
  {
    exists idx :: Embeds(a, b, idx)
  }

  /** The selection keeps the input's order. */
  lemma {:induction false} SelectBySubsequence<T>(xs: seq<T>, keep: T -> bool)
    ensures IsSubsequence(SelectBy(xs, keep), xs)
  {
    if xs == [] {
      assert Embeds<T>([], [], []);
    } else {
      var init := xs[..|xs| - 1];
      SelectBySubsequence(init, keep);
      var idx: seq<nat> :| Embeds(SelectBy(init, keep), init, idx);
      if keep(xs[|xs| - 1]) {
        var idx': seq<nat> := idx + [|xs| - 1];
        assert SelectBy(xs, keep) == SelectBy(init, keep) + [xs[|xs| - 1]];
        assert Embeds(SelectBy(xs, keep), xs, idx');
      } else {
        assert Embeds(SelectBy(xs, keep), xs, idx);
      }
    }
  }

  /** Selecting from a list without repetitions gives a list without
      repetitions. */
  lemma {:induction false} SelectByDistinct<T>(xs: seq<T>, keep: T -> bool)
    requires forall i, j :: 0 <= i < j < |xs| ==> xs[i] != xs[j]
    ensures forall i, j :: 0 <= i < j < |SelectBy(xs, keep)| ==> SelectBy(xs, keep)[i] != SelectBy(xs, keep)[j]
  {
    if xs != [] {
      var init := xs[..|xs| - 1];
      SelectByDistinct(init, keep);
      SelectByMembers(init, keep);
      assert xs[|xs| - 1] !in init;
    }
  }
}
