/**
  The directory tree under the class-path root, as the recursive walk sees it:
  an entry is a directory (`File.isDirectory()` holds) with its listed
  children, or anything else, which only has a name.
 */
module FileTree {

  import opened Strings

  datatype Entry =
    | File(name: string)
    | Directory(name: string, children: seq<Entry>)

  /**
    The names of the non-directory entries of the tree that end with `suffix`,
    in walk order (depth first, children in listing order), repeats included.
   */
  function Listing(e: Entry, suffix: string): seq<string>
    decreases e, 1
  {
    match e
    case File(n) => if EndsWith(n, suffix) then [n] else []
    case Directory(_, cs) => ListingSeq(cs, suffix)
  }

  /** `Listing` of a run of sibling entries, one after the other. */
  function ListingSeq(cs: seq<Entry>, suffix: string): seq<string>
    decreases cs, 0
  {
    if cs == [] then [] else ListingSeq(cs[..|cs| - 1], suffix) + Listing(cs[|cs| - 1], suffix)
  }

  /**
    Reference reading of the discovery rule: some non-directory entry
    somewhere in the tree is called `name`, and `name` ends with `suffix`.
    A directory's own name never qualifies.
   */
  ghost predicate HasMatchingFile(e: Entry, suffix: string, name: string)
    decreases e
  {
    match e
    case File(n) => n == name && EndsWith(n, suffix)
    case Directory(_, cs) => exists i :: 0 <= i < |cs| && HasMatchingFile(cs[i], suffix, name)
  }

  /** The walk finds a name exactly when the tree holds a matching file of that name. */
  lemma {:induction false} ListingMembers(e: Entry, suffix: string, name: string)
    ensures name in Listing(e, suffix) <==> HasMatchingFile(e, suffix, name)
    decreases e, 1
  {
    match e
    case File(n) =>
    case Directory(_, cs) => ListingSeqMembers(cs, suffix, name);
  }

  lemma {:induction false} ListingSeqMembers(cs: seq<Entry>, suffix: string, name: string)
    ensures name in ListingSeq(cs, suffix) <==> exists i :: 0 <= i < |cs| && HasMatchingFile(cs[i], suffix, name)
    decreases cs, 0
  {
    if cs != [] {
      var init, last := cs[..|cs| - 1], cs[|cs| - 1];
      ListingSeqMembers(init, suffix, name);
      ListingMembers(last, suffix, name);
      assert ListingSeq(cs, suffix) == ListingSeq(init, suffix) + Listing(last, suffix);
      assert cs == init + [last];
      SomeChildSplit(init, last, suffix, name);
    }
  }

  /** Some child matches exactly when some child but the last does, or the last one does. */
  lemma SomeChildSplit(init: seq<Entry>, last: Entry, suffix: string, name: string)
    ensures (exists i :: 0 <= i < |init + [last]| && HasMatchingFile((init + [last])[i], suffix, name)) <==>
      (exists i :: 0 <= i < |init| && HasMatchingFile(init[i], suffix, name)) || HasMatchingFile(last, suffix, name)
  {
    var cs := init + [last];
    assert forall i :: 0 <= i < |init| ==> init[i] == cs[i];
    assert cs[|init|] == last;
  }

  /** Every name the walk produces carries the suffix. */
  lemma {:induction false} ListingSuffix(e: Entry, suffix: string, name: string)
    requires name in Listing(e, suffix)
    ensures EndsWith(name, suffix)
  {
    ListingMembers(e, suffix, name);
    MatchingFileSuffix(e, suffix, name);
  }

  lemma {:induction false} MatchingFileSuffix(e: Entry, suffix: string, name: string)
    requires HasMatchingFile(e, suffix, name)
    ensures EndsWith(name, suffix)
    decreases e
  {
    match e
    case File(n) =>
    case Directory(_, cs) =>
      var i :| 0 <= i < |cs| && HasMatchingFile(cs[i], suffix, name);
      MatchingFileSuffix(cs[i], suffix, name);
  }
}
