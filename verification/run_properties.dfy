/**
  What a whole pass of the loader guarantees, stated over the specification
  functions the loader's methods are proved against: which names are
  discovered, how many probes there are and in what order, and what the
  `CustomProperties` source holds once the pass completes.
 */
module RunProperties {

  import opened Wrappers
  import opened Strings
  import opened LinkedSet
  import opened FileTree
  import opened PropertySources
  import opened SearchLocations
  import opened PropertiesLoading

  /**
    The discovery rule: a name is collected exactly when some non-directory
    entry of the tree has that name and the name ends with `.properties`;
    each collected name is kept once.
   */
  lemma DiscoveryRule(root: Entry, name: string)
    ensures name in Discover(root) <==> HasMatchingFile(root, DEFAULT_FILE_SUFFIX, name)
    ensures Distinct(Discover(root))
  {
    var listing := Listing(root, DEFAULT_FILE_SUFFIX);
    InsertAllMembers([], listing, name);
    ListingMembers(root, DEFAULT_FILE_SUFFIX, name);
    InsertAllDistinct([], listing);
  }

  /** Every discovered name carries the suffix. */
  lemma DiscoveredSuffix(root: Entry, name: string)
    requires name in Discover(root)
    ensures EndsWith(name, DEFAULT_FILE_SUFFIX)
  {
    InsertAllMembers([], Listing(root, DEFAULT_FILE_SUFFIX), name);
    ListingSuffix(root, DEFAULT_FILE_SUFFIX, name);
  }

  /**
    Two directories that each hold `app.properties`, next to a directory
    whose own name carries the suffix: one name is discovered, once.
   */
  lemma DiscoverSameNameTwice()
    ensures Discover(Directory("classes", [
      Directory("a", [File("app.properties")]),
      Directory("b", [File("app.properties"), Directory("x.properties", [])])
    ])) == ["app.properties"]
  {
    var app := "app.properties";
    assert EndsWith(app, DEFAULT_FILE_SUFFIX);
    var x := Directory("x.properties", []);
    var a := Directory("a", [File(app)]);
    var b := Directory("b", [File(app), x]);
    assert Listing(File(app), DEFAULT_FILE_SUFFIX) == [app];
    assert Listing(x, DEFAULT_FILE_SUFFIX) == [];
    assert [File(app)][..0] == [];
    assert ListingSeq([File(app)], DEFAULT_FILE_SUFFIX) == [app];
    assert [File(app), x][..1] == [File(app)];
    assert Listing(a, DEFAULT_FILE_SUFFIX) == [app];
    assert Listing(b, DEFAULT_FILE_SUFFIX) == [app];
    assert [a][..0] == [];
    assert ListingSeq([a], DEFAULT_FILE_SUFFIX) == [app];
    assert [a, b][..1] == [a];
    assert Listing(Directory("classes", [a, b]), DEFAULT_FILE_SUFFIX) == [app, app];
    assert [app, app][..1] == [app];
  }

  /** There is one probe per location and name. */
  lemma {:induction false} ProbesLength(locations: seq<string>, names: seq<string>)
    ensures |Probes(locations, names)| == |locations| * |names|
    decreases |locations|
  {
    if locations != [] {
      var n := |locations| - 1;
      ProbesLength(locations[..n], names);
      assert n * |names| + |names| == |locations| * |names|;
    }
  }

  /**
    Probe order: the probe of location `i` with name `j` is number
    `i * |names| + j`, so locations form the outer loop and names the inner
    one.
   */
  lemma ProbeAt(locations: seq<string>, names: seq<string>, i: nat, j: nat)
    requires i < |locations| && j < |names|
    ensures i * |names| + j < |Probes(locations, names)|
    ensures Probes(locations, names)[i * |names| + j] == locations[i] + names[j]
  {
    var earlier := Probes(locations[..i], names);
    ProbesLength(locations[..i], names);
    ProbesLength(locations, names);
    ProbesStep(locations, names, i);
    ProbesPrefix(locations, names, i + 1);
    var upto := earlier + Row(locations[i], names);
    assert (i + 1) * |names| <= |locations| * |names|;
    assert i * |names| + j < |upto|;
    assert upto[i * |names| + j] == locations[i] + names[j];
  }

  /** A pass over the fixed locations makes four probes per discovered name. */
  lemma LoadProbeCount(root: Entry)
    ensures |Probes(GetConfigLocation(), Discover(root))| == 4 * |Discover(root)|
  {
    ProbesLength(GetConfigLocation(), Discover(root));
  }

  /** With no candidate names nothing is probed, so the sources stay as they were. */
  lemma {:induction false} NoNamesNoProbes(layers: seq<Layer>, resolve: string -> Resource, locations: seq<string>)
    ensures Probes(locations, []) == []
    ensures Run(layers, resolve, Probes(locations, [])) == Done(layers)
    decreases |locations|
  {
    if locations != [] {
      NoNamesNoProbes(layers, resolve, locations[..|locations| - 1]);
    }
  }

  /** The property maps of the paths that load, in probe order. */
  function Loaded(resolve: string -> Resource, paths: seq<string>): seq<map<string, string>>
    decreases |paths|
  {
    if paths == [] then []
    else
      var last := resolve(paths[|paths| - 1]);
      Loaded(resolve, paths[..|paths| - 1]) + (if Loads(last) then [last.contents.props] else [])
  }

  /** The maps merged in order: a later map's value for a key replaces an earlier one's. */
  function MergeAll(ms: seq<map<string, string>>): map<string, string>
    decreases |ms|
  {
    if ms == [] then map[] else MergeAll(ms[..|ms| - 1]) + ms[|ms| - 1]
  }

  /** A key is in the merge exactly when some map has it. */
  lemma {:induction false} MergeAllKeys(ms: seq<map<string, string>>, k: string)
    ensures k in MergeAll(ms) <==> exists i :: 0 <= i < |ms| && k in ms[i]
    decreases |ms|
  {
    if ms != [] {
      var n := |ms| - 1;
      var init := ms[..n];
      MergeAllKeys(init, k);
      assert forall i :: 0 <= i < n ==> init[i] == ms[i];
    }
  }

  /**
    Last writer wins: a key takes its value from the last map that has it,
    whatever the earlier maps said.
   */
  lemma {:induction false} MergeAllLastWins(ms: seq<map<string, string>>, k: string, i: nat)
    requires i < |ms| && k in ms[i]
    requires forall j :: i < j < |ms| ==> k !in ms[j]
    ensures k in MergeAll(ms) && MergeAll(ms)[k] == ms[i][k]
    decreases |ms|
  {
    var n := |ms| - 1;
    if i < n {
      var init := ms[..n];
      assert forall j :: i < j < n ==> init[j] == ms[j];
      MergeAllLastWins(init, k, i);
    }
  }

  /** Merging into a map in two steps is merging the union of the two. */
  lemma MapMergeAssociative(a: map<string, string>, b: map<string, string>, c: map<string, string>)
    ensures a + b + c == a + (b + c)
  {
  }

  /** Two loads in a row install the same as one load of both maps merged. */
  lemma InstallTwice(layers: seq<Layer>, a: map<string, string>, b: map<string, string>)
    ensures Install(Install(layers, a), b) == Install(layers, a + b)
  {
    match Find(layers, PROPERTY_SOURCE_NAME)
    case Some(i) =>
      var merged := Layer(PROPERTY_SOURCE_NAME, layers[i].props + a);
      FindUpdated(layers, i, merged);
      MapMergeAssociative(layers[i].props, a, b);
      assert layers[i := merged][i := Layer(PROPERTY_SOURCE_NAME, layers[i].props + a + b)] ==
        layers[i := Layer(PROPERTY_SOURCE_NAME, layers[i].props + a + b)];
    case None =>
      var first := Layer(PROPERTY_SOURCE_NAME, a);
      FindAppended(layers, first);
      assert (layers + [first])[|layers| := Layer(PROPERTY_SOURCE_NAME, a + b)] ==
        layers + [Layer(PROPERTY_SOURCE_NAME, a + b)];
  }

  /**
    A completed pass leaves the sources as one install of everything that
    loaded, merged in probe order: untouched when nothing loaded, otherwise
    appended as a new last source or merged into the existing one.
   */
  lemma {:induction false} RunMerges(layers: seq<Layer>, resolve: string -> Resource, paths: seq<string>)
    requires Run(layers, resolve, paths).Done?
    ensures var ms := Loaded(resolve, paths);
      Run(layers, resolve, paths).layers == if ms == [] then layers else Install(layers, MergeAll(ms))
    decreases |paths|
  {
    if paths != [] {
      var init, p := paths[..|paths| - 1], paths[|paths| - 1];
      RunMerges(layers, resolve, init);
      var ms := Loaded(resolve, init);
      var before := Run(layers, resolve, init).layers;
      LoadOneEffects(before, p, resolve(p));
      if Loads(resolve(p)) {
        var props := resolve(p).contents.props;
        assert Loaded(resolve, paths) == ms + [props];
        assert (ms + [props])[..|ms|] == ms;
        if ms != [] {
          InstallTwice(layers, MergeAll(ms), props);
        } else {
          assert map[] + props == props;
        }
      } else {
        assert Loaded(resolve, paths) == ms + [];
        assert ms + [] == ms;
      }
    }
  }

  /**
    The `CustomProperties` pairs after a completed pass: the pairs it had,
    overwritten by every loaded map in probe order.
   */
  lemma RunCustomProps(layers: seq<Layer>, resolve: string -> Resource, paths: seq<string>)
    requires Run(layers, resolve, paths).Done?
    ensures CustomProps(Run(layers, resolve, paths).layers) == CustomProps(layers) + MergeAll(Loaded(resolve, paths))
  {
    RunMerges(layers, resolve, paths);
    var ms := Loaded(resolve, paths);
    if ms == [] {
      assert CustomProps(layers) + map[] == CustomProps(layers);
    } else {
      InstallCustomProps(layers, MergeAll(ms));
    }
  }

  /**
    After a completed pass, a key takes the value of the last loaded file
    that defines it, whatever the sources held before.
   */
  lemma LastWriterWins(layers: seq<Layer>, resolve: string -> Resource, paths: seq<string>, k: string, i: nat)
    requires Run(layers, resolve, paths).Done?
    requires i < |Loaded(resolve, paths)| && k in Loaded(resolve, paths)[i]
    requires forall j :: i < j < |Loaded(resolve, paths)| ==> k !in Loaded(resolve, paths)[j]
    ensures var custom := CustomProps(Run(layers, resolve, paths).layers);
      k in custom && custom[k] == Loaded(resolve, paths)[i][k]
  {
    RunCustomProps(layers, resolve, paths);
    MergeAllLastWins(Loaded(resolve, paths), k, i);
  }

  /**
    The first load appends: when no `CustomProperties` source exists and
    something loads, a completed pass adds exactly one source, last, with the
    merged pairs, and leaves every other source in place.
   */
  lemma FirstLoadAppends(layers: seq<Layer>, resolve: string -> Resource, paths: seq<string>)
    requires Run(layers, resolve, paths).Done?
    requires Find(layers, PROPERTY_SOURCE_NAME).None? && Loaded(resolve, paths) != []
    ensures Run(layers, resolve, paths).layers ==
      layers + [Layer(PROPERTY_SOURCE_NAME, MergeAll(Loaded(resolve, paths)))]
  {
    RunMerges(layers, resolve, paths);
  }

  /** A pass never leaves two `CustomProperties` sources, whether it completes or throws. */
  lemma {:induction false} RunKeepsAtMostOne(layers: seq<Layer>, resolve: string -> Resource, paths: seq<string>)
    requires AtMostOne(layers, PROPERTY_SOURCE_NAME)
    ensures AtMostOne(Run(layers, resolve, paths).layers, PROPERTY_SOURCE_NAME)
    decreases |paths|
  {
    if paths != [] {
      var init, p := paths[..|paths| - 1], paths[|paths| - 1];
      RunKeepsAtMostOne(layers, resolve, init);
      var o := Run(layers, resolve, init);
      if o.Done? && Loads(resolve(p)) {
        InstallAtMostOne(o.layers, resolve(p).contents.props);
      }
    }
  }

  /**
    A pass that throws does so at the first path that fails to decode, with
    the sources as the paths before it left them.
   */
  lemma {:induction false} RunAbortedAt(layers: seq<Layer>, resolve: string -> Resource, paths: seq<string>)
    requires Run(layers, resolve, paths).Aborted?
    ensures exists k :: (0 <= k < |paths| && paths[k] == Run(layers, resolve, paths).location &&
      Fails(resolve(paths[k])) && (forall j :: 0 <= j < k ==> !Fails(resolve(paths[j]))) &&
      Run(layers, resolve, paths[..k]) == Done(Run(layers, resolve, paths).layers))
    decreases |paths|
  {
    var n := |paths| - 1;
    var init := paths[..n];
    var o := Run(layers, resolve, paths);
    if Run(layers, resolve, init).Aborted? {
      RunAbortedAt(layers, resolve, init);
      var k :| 0 <= k < |init| && init[k] == Run(layers, resolve, init).location &&
        Fails(resolve(init[k])) && (forall j :: 0 <= j < k ==> !Fails(resolve(init[j]))) &&
        Run(layers, resolve, init[..k]) == Done(Run(layers, resolve, init).layers);
      assert init[..k] == paths[..k];
      assert forall j :: 0 <= j < k ==> init[j] == paths[j];
      assert o == Run(layers, resolve, init);
      assert paths[k] == o.location && Run(layers, resolve, paths[..k]) == Done(o.layers);
    } else {
      RunDoneIff(layers, resolve, init);
      LoadOneEffects(Run(layers, resolve, init).layers, paths[n], resolve(paths[n]));
      assert forall j :: 0 <= j < n ==> init[j] == paths[j];
      assert paths[n] == o.location && Run(layers, resolve, paths[..n]) == Done(o.layers);
    }
  }
}
