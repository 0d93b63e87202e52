/**
  An insertion-ordered set without duplicates, as `java.util.LinkedHashSet`
  behaves: `add` appends an element that is absent and leaves the set alone
  when the element is already there, so every element keeps the position of
  its first insertion.
 */
module LinkedSet {

  /** No element occurs twice. */
  predicate Distinct<T(==)>(s: seq<T>) {
    forall i, j :: 0 <= i < j < |s| ==> s[i] != s[j]
  }

  /** The contents after `add(x)`. */
  function Insert<T(==)>(s: seq<T>, x: T): seq<T> {
    if x in s then s else s + [x]
  }

  /** The contents after adding every element of `xs`, in order. */
  function InsertAll<T(==)>(s: seq<T>, xs: seq<T>): seq<T>
    decreases |xs|
  {
    if xs == [] then s else Insert(InsertAll(s, xs[..|xs| - 1]), xs[|xs| - 1])
  }

  /** Adding `xs` and then `ys` is adding `xs + ys`. */
  lemma {:induction false} InsertAllConcat<T>(s: seq<T>, xs: seq<T>, ys: seq<T>)
    ensures InsertAll(s, xs + ys) == InsertAll(InsertAll(s, xs), ys)
    decreases |ys|
  {
    if ys == [] {
      assert xs + ys == xs;
    } else {
      var ys' := ys[..|ys| - 1];
      assert (xs + ys)[..|xs + ys| - 1] == xs + ys';
      InsertAllConcat(s, xs, ys');
    }
  }

  /** An element is in the result exactly when it was there before or was added. */
  lemma {:induction false} InsertAllMembers<T>(s: seq<T>, xs: seq<T>, x: T)
    ensures x in InsertAll(s, xs) <==> x in s || x in xs
    decreases |xs|
  {
    if xs != [] {
      var xs' := xs[..|xs| - 1];
      InsertAllMembers(s, xs', x);
      assert xs == xs' + [xs[|xs| - 1]];
    }
  }

  /** Adding never creates a duplicate. */
  lemma {:induction false} InsertAllDistinct<T>(s: seq<T>, xs: seq<T>)
    requires Distinct(s)
    ensures Distinct(InsertAll(s, xs))
    decreases |xs|
  {
    if xs != [] {
      InsertAllDistinct(s, xs[..|xs| - 1]);
    }
  }

  /**
    What was in the set stays where it was: the old contents are a prefix of
    the new ones, so an element keeps its first-insertion position.
   */
  lemma {:induction false} InsertAllKeepsPrefix<T>(s: seq<T>, xs: seq<T>)
    ensures |s| <= |InsertAll(s, xs)| && InsertAll(s, xs)[..|s|] == s
    decreases |xs|
  {
    if xs != [] {
      var r' := InsertAll(s, xs[..|xs| - 1]);
      InsertAllKeepsPrefix(s, xs[..|xs| - 1]);
      assert Insert(r', xs[|xs| - 1])[..|r'|] == r';
    }
  }

  /**
    An element that is new when it first comes along is placed right after
    what the elements before it produced, and stays there.
   */
  lemma InsertAllFirstPosition<T>(s: seq<T>, xs: seq<T>, k: nat)
    requires k < |xs| && xs[k] !in s
    requires forall j :: 0 <= j < k ==> xs[j] != xs[k]
    ensures |InsertAll(s, xs[..k])| < |InsertAll(s, xs)|
    ensures InsertAll(s, xs)[|InsertAll(s, xs[..k])|] == xs[k]
  {
    var before := InsertAll(s, xs[..k]);
    var pre := xs[..k + 1];
    assert pre[..k] == xs[..k] && pre[k] == xs[k];
    InsertAllMembers(s, xs[..k], xs[k]);
    assert xs[k] !in xs[..k];
    var upto := InsertAll(s, pre);
    assert upto == Insert(before, xs[k]) == before + [xs[k]];
    assert xs == pre + xs[k + 1..];
    InsertAllConcat(s, pre, xs[k + 1..]);
    InsertAllKeepsPrefix(upto, xs[k + 1..]);
    assert InsertAll(s, xs)[..|upto|] == upto;
  }

  /** Adding elements that are all present already changes nothing. */
  lemma {:induction false} InsertAllPresent<T>(s: seq<T>, xs: seq<T>)
    requires forall i :: 0 <= i < |xs| ==> xs[i] in s
    ensures InsertAll(s, xs) == s
    decreases |xs|
  {
    if xs != [] {
      InsertAllPresent(s, xs[..|xs| - 1]);
    }
  }

  /** Adding distinct elements that are all new appends them in order. */
  lemma {:induction false} InsertAllFresh<T>(s: seq<T>, xs: seq<T>)
    requires Distinct(xs)
    requires forall i :: 0 <= i < |xs| ==> xs[i] !in s
    ensures InsertAll(s, xs) == s + xs
    decreases |xs|
  {
    if xs != [] {
      var init := xs[..|xs| - 1];
      InsertAllFresh(s, init);
      assert xs[|xs| - 1] !in init;
      assert s + init + [xs[|xs| - 1]] == s + xs;
    }
  }

  /** A `LinkedHashSet<String>` whose `add` the program calls. */
  class NameSet {
    var elems: seq<string>

    constructor ()
      ensures elems == []
    {
      elems := [];
    }

    /** `Set.add`: reports whether `name` was absent, and appends it if so. */
    method Add(name: string) returns (added: bool)
      modifies this
      ensures added <==> name !in old(elems)
      ensures elems == Insert(old(elems), name)
    {
      added := name !in elems;
      if added {
        elems := elems + [name];
      }
    }
  }
}
