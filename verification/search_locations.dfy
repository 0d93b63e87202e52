/**
  The fixed search locations: the comma-delimited constant, and its entries
  written out, with the proof that splitting the one gives the other.
 */
module SearchLocations {

  import opened Strings
  import opened LinkedSet

  /**
    `"classpath:/,classpath:/config/,file:./,file:./config/"`, written as the
    concatenation of its four comma-terminated pieces (the same string).
   */
  const DEFAULT_SEARCH_LOCATIONS: string := "classpath:/," + "classpath:/config/," + "file:./," + "file:./config/"

  /** The entries of `DEFAULT_SEARCH_LOCATIONS`, in order. */
  const SEARCH_LOCATIONS: seq<string> := ["classpath:/", "classpath:/config/", "file:./", "file:./config/"]

  /** The four locations are what the comma-delimited constant splits into. */
  lemma SearchLocationsSplit()
    ensures Split(DEFAULT_SEARCH_LOCATIONS, ',') == SEARCH_LOCATIONS
  {
    JoinSearchLocations();
    assert Join(SEARCH_LOCATIONS, ',') == DEFAULT_SEARCH_LOCATIONS;
    assert FreeOf(SEARCH_LOCATIONS, ',') by {
      var l := SEARCH_LOCATIONS;
      assert ',' !in l[0] && ',' !in l[1] && ',' !in l[2] && ',' !in l[3];
    }
    SplitJoin(SEARCH_LOCATIONS, ',');
  }

  /** No location is listed twice. */
  lemma SearchLocationsDistinct()
    ensures Distinct(SEARCH_LOCATIONS)
  {
    var l := SEARCH_LOCATIONS;
    assert l[0] != l[1] && l[0] != l[2] && l[0] != l[3];
    assert l[1] != l[2] && l[1] != l[3] && l[2] != l[3];
  }

  /** Joining the four locations with commas gives the constant back. */
  lemma JoinSearchLocations()
    ensures Join(SEARCH_LOCATIONS, ',') == DEFAULT_SEARCH_LOCATIONS
  {
    var l := SEARCH_LOCATIONS;
    var a, b, c, d := "classpath:/,", "classpath:/config/,", "file:./,", "file:./config/";
    assert l[0] + [','] == a && l[1] + [','] == b && l[2] + [','] == c && l[3] == d;
    assert l[1..][1..] == l[2..] && l[2..][1..] == l[3..];
    assert Join(l[3..], ',') == d;
    assert Join(l[2..], ',') == c + d;
    assert Join(l[1..], ',') == b + (c + d);
    assert Join(l, ',') == a + (b + (c + d));
    ConcatAssociative(a, b, c + d);
    ConcatAssociative(a + b, c, d);
  }
}
