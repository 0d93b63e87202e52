/**
  The few string operations the loader relies on: `String.endsWith`, and the
  splitting of a comma-delimited list that turns the search-location constant
  into its entries.
 */
module Strings {

  /** Java's `s.endsWith(suffix)`: case-sensitive, and true when `s == suffix`. */
  predicate EndsWith(s: string, suffix: string) {
    |suffix| <= |s| && s[|s| - |suffix|..] == suffix
  }

  /** Concatenation regroups freely. */
  lemma ConcatAssociative<T>(a: seq<T>, b: seq<T>, c: seq<T>)
    ensures a + b + c == a + (b + c)
  {
  }

  /** No part contains the separator. */
  predicate FreeOf(parts: seq<string>, sep: char) {
    forall i :: 0 <= i < |parts| ==> sep !in parts[i]
  }

  /** The parts written out with `sep` between neighbours. */
  function Join(parts: seq<string>, sep: char): string
    decreases |parts|
  {
    if parts == [] then ""
    else if |parts| == 1 then parts[0]
    else parts[0] + [sep] + Join(parts[1..], sep)
  }

  /**
    The fields of `s` between occurrences of `sep`, including empty ones and
    the (possibly empty) field after the last separator.
   */
  function Fields(s: string, sep: char): (r: seq<string>)
    ensures |r| >= 1
    ensures FreeOf(r, sep)
  {
    if s == [] then [""]
    else if s[0] == sep then [""] + Fields(s[1..], sep)
    else
      var rest := Fields(s[1..], sep);
      [[s[0]] + rest[0]] + rest[1..]
  }

  /**
    A delimited list split at `sep`, as Spring's `delimitedListToStringArray`
    does it without trimming: the empty string has no entries; any other
    string has one entry per field.
   */
  function Split(s: string, sep: char): seq<string> {
    if s == [] then [] else Fields(s, sep)
  }

  /** A field free of the separator, followed by the separator, splits off as one entry. */
  lemma {:induction false} FieldsOfPrefixed(p: string, sep: char, t: string)
    requires sep !in p
    ensures Fields(p + [sep] + t, sep) == [p] + Fields(t, sep)
    decreases |p|
  {
    if p == [] {
      assert p + [sep] + t == [sep] + t;
      assert ([sep] + t)[1..] == t;
    } else {
      FieldsOfPrefixed(p[1..], sep, t);
      assert (p + [sep] + t)[1..] == p[1..] + [sep] + t;
      assert [p[0]] + p[1..] == p;
    }
  }

  /** A string free of the separator is a single field. */
  lemma {:induction false} FieldsOfFree(p: string, sep: char)
    requires sep !in p
    ensures Fields(p, sep) == [p]
    decreases |p|
  {
    if p != [] {
      FieldsOfFree(p[1..], sep);
      assert [p[0]] + p[1..] == p;
    }
  }

  /**
    Splitting inverts joining: parts that do not contain the separator are
    recovered from their join, except for the single empty part, whose join
    is the empty string, which splits into no entries.
   */
  lemma {:induction false} SplitJoin(parts: seq<string>, sep: char)
    requires FreeOf(parts, sep)
    requires parts != [""]
    ensures Split(Join(parts, sep), sep) == parts
    decreases |parts|
  {
    if parts == [] {
    } else if |parts| == 1 {
      FieldsOfFree(parts[0], sep);
    } else {
      var tail := parts[1..];
      assert FreeOf(tail, sep);
      FieldsOfPrefixed(parts[0], sep, Join(tail, sep));
      if tail == [""] {
        assert Join(tail, sep) == "";
      } else {
        SplitJoin(tail, sep);
      }
      assert parts == [parts[0]] + tail;
    }
  }
}
