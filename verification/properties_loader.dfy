/**
  The discovery-and-merge pass of `CustomPropertiesFileApplicationListener`:
  walk the class-path tree for `.properties` files, probe every search
  location with every discovered name, and merge what loads into a single
  property source called `CustomProperties`.

  The environment is abstracted: the class-path tree is a `FileTree.Entry`,
  and resource lookup together with property decoding is one total function
  from a location string to a `Resource`.
 */
module PropertiesLoading {

  import opened Wrappers
  import opened Strings
  import opened LinkedSet
  import opened FileTree
  import opened PropertySources
  import opened SearchLocations

  const DEFAULT_FILE_SUFFIX: string := ".properties"
  const PROPERTY_SOURCE_NAME: string := "CustomProperties"

  /** What reading a located resource as property text gives. */
  datatype Contents = Decoded(props: map<string, string>) | Undecodable

  /**
    What the resource loader makes of a location: nothing (a null resource,
    or one that does not exist), or a resource with a possibly absent file
    name and the result of decoding its text.
   */
  datatype Resource =
    | Missing
    | Present(filename: Option<string>, contents: Contents)

  /** How a call ended: normally, or with the exception that wraps a decode failure at `location`. */
  datatype Status = Normal | Thrown(location: string)

  /** The sources after a probe or a run, and whether it ended by throwing at `location`. */
  datatype Outcome = Done(layers: seq<Layer>) | Aborted(layers: seq<Layer>, location: string)

  /** A resource that exists and has a file name ending with the suffix: it is decoded. */
  predicate Eligible(r: Resource) {
    r.Present? && r.filename.Some? && EndsWith(r.filename.value, DEFAULT_FILE_SUFFIX)
  }

  /** An eligible resource whose text decodes: its pairs are merged. */
  predicate Loads(r: Resource) {
    Eligible(r) && r.contents.Decoded?
  }

  /** An eligible resource whose text does not decode: the pass throws. */
  predicate Fails(r: Resource) {
    Eligible(r) && r.contents.Undecodable?
  }

  /** The search locations, each once. */
  function GetConfigLocation(): (locations: seq<string>)
    ensures Distinct(locations)
  {
    SearchLocationsDistinct();
    SEARCH_LOCATIONS
  }

  /**
    The search locations are the comma-delimited constant split into a
    set: the split gives four distinct entries, so the set keeps them all, in
    order.
   */
  lemma ConfigLocationIsSplit()
    ensures GetConfigLocation() == InsertAll([], Split(DEFAULT_SEARCH_LOCATIONS, ','))
  {
    SearchLocationsSplit();
    SearchLocationsDistinct();
    InsertAllFresh([], SEARCH_LOCATIONS);
    assert [] + SEARCH_LOCATIONS == SEARCH_LOCATIONS;
  }

  /** The names the walk collects into an empty set from the tree `root`. */
  function Discover(root: Entry): seq<string> {
    InsertAll([], Listing(root, DEFAULT_FILE_SUFFIX))
  }

  /** The probes for one location: `location + name` for each name, in set order. */
  function Row(location: string, names: seq<string>): seq<string> {
    seq(|names|, j requires 0 <= j < |names| => location + names[j])
  }

  /** Every probe of a run: locations in the outer loop, names in the inner one. */
  function Probes(locations: seq<string>, names: seq<string>): seq<string>
    decreases |locations|
  {
    if locations == [] then []
    else Probes(locations[..|locations| - 1], names) + Row(locations[|locations| - 1], names)
  }

  /** The pairs of the source called `CustomProperties`, or none if there is no such source. */
  function CustomProps(layers: seq<Layer>): map<string, string> {
    match Find(layers, PROPERTY_SOURCE_NAME)
    case Some(i) => layers[i].props
    case None => map[]
  }

  /**
    The sources after loading `props`: merged into the `CustomProperties`
    source if there is one, otherwise appended last as a new source.
   */
  function Install(layers: seq<Layer>, props: map<string, string>): seq<Layer> {
    match Find(layers, PROPERTY_SOURCE_NAME)
    case Some(i) => layers[i := Layer(PROPERTY_SOURCE_NAME, layers[i].props + props)]
    case None => layers + [Layer(PROPERTY_SOURCE_NAME, props)]
  }

  /**
    A first load appends one new `CustomProperties` source holding exactly
    the loaded pairs, after all existing sources, which keep their order.
   */
  lemma InstallAppends(layers: seq<Layer>, props: map<string, string>)
    requires Find(layers, PROPERTY_SOURCE_NAME).None?
    ensures var r := Install(layers, props);
      |r| == |layers| + 1 && r[..|layers|] == layers &&
      r[|layers|] == Layer(PROPERTY_SOURCE_NAME, props) &&
      Find(r, PROPERTY_SOURCE_NAME) == Some(|layers|)
  {
    var l := Layer(PROPERTY_SOURCE_NAME, props);
    FindAppended(layers, l);
    assert (layers + [l])[..|layers|] == layers;
  }

  /**
    A later load merges into the existing source: each loaded key takes the
    loaded value, other keys keep theirs, no source is added and no other
    source changes.
   */
  lemma InstallMerges(layers: seq<Layer>, props: map<string, string>)
    requires Find(layers, PROPERTY_SOURCE_NAME).Some?
    ensures var i := Find(layers, PROPERTY_SOURCE_NAME).value;
      var r := Install(layers, props);
      |r| == |layers| && Find(r, PROPERTY_SOURCE_NAME) == Some(i) &&
      r[i].props.Keys == layers[i].props.Keys + props.Keys &&
      (forall k :: k in props ==> r[i].props[k] == props[k]) &&
      (forall k :: k in layers[i].props && k !in props ==> r[i].props[k] == layers[i].props[k]) &&
      (forall j :: 0 <= j < |layers| && j != i ==> r[j] == layers[j])
  {
    var i := Find(layers, PROPERTY_SOURCE_NAME).value;
    FindUpdated(layers, i, Layer(PROPERTY_SOURCE_NAME, layers[i].props + props));
  }

  /** Loading never creates a second `CustomProperties` source. */
  lemma InstallAtMostOne(layers: seq<Layer>, props: map<string, string>)
    requires AtMostOne(layers, PROPERTY_SOURCE_NAME)
    ensures AtMostOne(Install(layers, props), PROPERTY_SOURCE_NAME)
  {
    match Find(layers, PROPERTY_SOURCE_NAME)
    case Some(i) =>
      var r := Install(layers, props);
      assert forall j :: 0 <= j < |r| ==> r[j].name == layers[j].name;
    case None =>
  }

  /** The merged pairs of the `CustomProperties` source: its old pairs overwritten by the loaded ones. */
  lemma InstallCustomProps(layers: seq<Layer>, props: map<string, string>)
    ensures CustomProps(Install(layers, props)) == CustomProps(layers) + props
  {
    match Find(layers, PROPERTY_SOURCE_NAME)
    case Some(i) =>
      InstallMerges(layers, props);
    case None =>
      InstallAppends(layers, props);
      assert map[] + props == props;
  }

  /** One call of `doLoad(location)` when the location resolves to `resource`. */
  function LoadOne(layers: seq<Layer>, location: string, resource: Resource): Outcome {
    match resource
    case Missing => Done(layers)
    case Present(filename, contents) =>
      if filename.Some? && EndsWith(filename.value, DEFAULT_FILE_SUFFIX) then
        match contents
        case Decoded(props) => Done(Install(layers, props))
        case Undecodable => Aborted(layers, location)
      else Done(layers)
  }

  /**
    What one probe does: a missing resource, or one whose file name is absent
    or lacks the suffix, leaves the sources alone and throws nothing; a
    decodable one is installed; an undecodable one throws and leaves the
    sources alone.
   */
  lemma LoadOneEffects(layers: seq<Layer>, location: string, resource: Resource)
    ensures var o := LoadOne(layers, location, resource);
      (!Loads(resource) ==> o.layers == layers) &&
      (Loads(resource) ==> o == Done(Install(layers, resource.contents.props))) &&
      (o.Aborted? <==> Fails(resource)) &&
      (o.Aborted? ==> o.location == location)
  {
  }

  /** Calling `doLoad` on each path in order, stopping at the first that throws. */
  function Run(layers: seq<Layer>, resolve: string -> Resource, paths: seq<string>): Outcome
    decreases |paths|
  {
    if paths == [] then Done(layers)
    else
      match Run(layers, resolve, paths[..|paths| - 1])
      case Aborted(ls, at) => Aborted(ls, at)
      case Done(ls) => LoadOne(ls, paths[|paths| - 1], resolve(paths[|paths| - 1]))
  }

  /** A run completes exactly when none of its paths fails to decode. */
  lemma {:induction false} RunDoneIff(layers: seq<Layer>, resolve: string -> Resource, paths: seq<string>)
    ensures Run(layers, resolve, paths).Done? <==> forall j :: 0 <= j < |paths| ==> !Fails(resolve(paths[j]))
    decreases |paths|
  {
    if paths != [] {
      var init := paths[..|paths| - 1];
      RunDoneIff(layers, resolve, init);
      assert forall j :: 0 <= j < |init| ==> init[j] == paths[j];
    }
  }

  /** Once a run has thrown, later paths are never probed: extending it changes nothing. */
  lemma {:induction false} RunAbortedExtends(layers: seq<Layer>, resolve: string -> Resource, paths: seq<string>, more: seq<string>)
    requires Run(layers, resolve, paths).Aborted?
    ensures Run(layers, resolve, paths + more) == Run(layers, resolve, paths)
    decreases |more|
  {
    if more == [] {
      assert paths + more == paths;
    } else {
      var more' := more[..|more| - 1];
      assert (paths + more)[..|paths + more| - 1] == paths + more';
      RunAbortedExtends(layers, resolve, paths, more');
    }
  }

  /** The run over `paths` followed by one more probe. */
  lemma RunSnoc(layers: seq<Layer>, resolve: string -> Resource, paths: seq<string>, p: string)
    ensures Run(layers, resolve, paths + [p]) ==
      match Run(layers, resolve, paths)
      case Aborted(ls, at) => Aborted(ls, at)
      case Done(ls) => LoadOne(ls, p, resolve(p))
  {
    assert (paths + [p])[..|paths + [p]| - 1] == paths;
  }

  /** The paths a run actually probes: all of them, up to and including the first that throws. */
  function Attempted(resolve: string -> Resource, paths: seq<string>): seq<string>
    decreases |paths|
  {
    if paths == [] then []
    else if Fails(resolve(paths[0])) then [paths[0]]
    else [paths[0]] + Attempted(resolve, paths[1..])
  }

  /** Without a decode failure every path is probed. */
  lemma {:induction false} AttemptedAll(resolve: string -> Resource, paths: seq<string>)
    requires forall j :: 0 <= j < |paths| ==> !Fails(resolve(paths[j]))
    ensures Attempted(resolve, paths) == paths
    decreases |paths|
  {
    if paths != [] {
      AttemptedAll(resolve, paths[1..]);
    }
  }

  /** Probing stops right after the first path that fails to decode. */
  lemma {:induction false} AttemptedStops(resolve: string -> Resource, paths: seq<string>, k: nat)
    requires k < |paths| && Fails(resolve(paths[k]))
    requires forall j :: 0 <= j < k ==> !Fails(resolve(paths[j]))
    ensures Attempted(resolve, paths) == paths[..k + 1]
    decreases k
  {
    if k > 0 {
      AttemptedStops(resolve, paths[1..], k - 1);
      assert [paths[0]] + paths[1..][..k] == paths[..k + 1];
    }
  }

  /**
    A run whose probes go `done`, then `p`, where `done` completes and `p`
    fails to decode, ends with the sources as `done` left them, throwing at
    `p`, having probed exactly `done + [p]`.
   */
  lemma AbortAt(layers: seq<Layer>, resolve: string -> Resource, paths: seq<string>, done: seq<string>, p: string)
    requires |done| < |paths| && paths[..|done| + 1] == done + [p]
    requires Run(layers, resolve, done).Done? && Fails(resolve(p))
    ensures Run(layers, resolve, paths) == Aborted(Run(layers, resolve, done).layers, p)
    ensures Attempted(resolve, paths) == done + [p]
  {
    RunSnoc(layers, resolve, done, p);
    var rest := paths[|done| + 1..];
    assert paths == (done + [p]) + rest;
    RunAbortedExtends(layers, resolve, done + [p], rest);
    RunDoneIff(layers, resolve, done);
    AttemptedStops(resolve, paths, |done|);
  }

  /** One more step of the outer loop appends the row of the next location. */
  lemma ProbesStep(locations: seq<string>, names: seq<string>, i: nat)
    requires i < |locations|
    ensures Probes(locations[..i + 1], names) == Probes(locations[..i], names) + Row(locations[i], names)
  {
    assert locations[..i + 1][..i] == locations[..i];
  }

  /** A run over two runs of paths: the second starts from where the first left the sources, unless the first threw. */
  lemma {:induction false} RunAppend(layers: seq<Layer>, resolve: string -> Resource, paths: seq<string>, more: seq<string>)
    ensures Run(layers, resolve, paths + more) ==
      match Run(layers, resolve, paths)
      case Aborted(ls, at) => Aborted(ls, at)
      case Done(ls) => Run(ls, resolve, more)
    decreases |more|
  {
    if more == [] {
      assert paths + more == paths;
    } else {
      var more' := more[..|more| - 1];
      assert (paths + more)[..|paths + more| - 1] == paths + more';
      RunAppend(layers, resolve, paths, more');
    }
  }

  /** Paths that all complete are all probed before the ones after them. */
  lemma {:induction false} AttemptedAppend(resolve: string -> Resource, paths: seq<string>, more: seq<string>)
    requires forall j :: 0 <= j < |paths| ==> !Fails(resolve(paths[j]))
    ensures Attempted(resolve, paths + more) == paths + Attempted(resolve, more)
    decreases |paths|
  {
    if paths == [] {
      assert paths + more == more;
    } else {
      assert (paths + more)[1..] == paths[1..] + more;
      AttemptedAppend(resolve, paths[1..], more);
    }
  }

  /** Paths after one that fails to decode are never probed. */
  lemma {:induction false} AttemptedExtends(resolve: string -> Resource, paths: seq<string>, more: seq<string>, k: nat)
    requires k < |paths| && Fails(resolve(paths[k]))
    ensures Attempted(resolve, paths + more) == Attempted(resolve, paths)
    decreases k
  {
    if !Fails(resolve(paths[0])) {
      assert (paths + more)[1..] == paths[1..] + more;
      AttemptedExtends(resolve, paths[1..], more, k - 1);
    }
  }

  /**
    When the row of location `i` throws after the rows before it completed,
    the whole run ends there: the sources are as the row left them, and the
    probes are those of the earlier rows followed by those the row made.
   */
  lemma RowThrows(layers: seq<Layer>, resolve: string -> Resource, locations: seq<string>, names: seq<string>, i: nat)
    requires i < |locations|
    requires Run(layers, resolve, Probes(locations[..i], names)).Done?
    requires Run(Run(layers, resolve, Probes(locations[..i], names)).layers, resolve, Row(locations[i], names)).Aborted?
    ensures var earlier := Probes(locations[..i], names);
      var row := Row(locations[i], names);
      Run(layers, resolve, Probes(locations, names)) == Run(Run(layers, resolve, earlier).layers, resolve, row) &&
      Attempted(resolve, Probes(locations, names)) == earlier + Attempted(resolve, row)
  {
    var earlier, row := Probes(locations[..i], names), Row(locations[i], names);
    var mid := Run(layers, resolve, earlier).layers;
    ProbesStep(locations, names, i);
    ProbesPrefix(locations, names, i + 1);
    var all := Probes(locations, names);
    var rest := all[|earlier + row|..];
    assert all == (earlier + row) + rest;
    RunAppend(layers, resolve, earlier, row);
    RunAbortedExtends(layers, resolve, earlier + row, rest);
    RunDoneIff(layers, resolve, earlier);
    RunDoneIff(mid, resolve, row);
    var k :| 0 <= k < |row| && Fails(resolve(row[k]));
    ConcatAssociative(earlier, row, rest);
    AttemptedAppend(resolve, earlier, row + rest);
    AttemptedExtends(resolve, row, rest, k);
  }

  /** The probes of the first `i` locations come first among all probes. */
  lemma {:induction false} ProbesPrefix(locations: seq<string>, names: seq<string>, i: nat)
    requires i <= |locations|
    ensures |Probes(locations[..i], names)| <= |Probes(locations, names)|
    ensures Probes(locations, names)[..|Probes(locations[..i], names)|] == Probes(locations[..i], names)
    decreases |locations|
  {
    if i < |locations| {
      var init := locations[..|locations| - 1];
      assert init[..i] == locations[..i];
      ProbesPrefix(init, names, i);
    } else {
      assert locations[..i] == locations;
    }
  }

  class PropertiesLoader {
    /** `resourceLoader.getResource`, `exists`, `getFilename` and `loadProperties`, as one function. */
    const resolve: string -> Resource
    /** The environment's property sources. */
    const environment: MutablePropertySources
    /** Every location `doLoad` has been called with, in call order. */
    ghost var Probed: seq<string>

    constructor (environment: MutablePropertySources, resolve: string -> Resource)
      ensures this.environment == environment && this.resolve == resolve
      ensures Probed == []
    {
      this.environment := environment;
      this.resolve := resolve;
      Probed := [];
    }

    /**
      `doSearch`: recurse into directories; add the name of any other entry
      whose name ends with the suffix.
     */
    method DoSearch(filesSet: NameSet, file: Entry)
      modifies filesSet
      ensures filesSet.elems == InsertAll(old(filesSet.elems), Listing(file, DEFAULT_FILE_SUFFIX))
      decreases file
    {
      match file
      case Directory(_, files) =>
        for i := 0 to |files|
          invariant filesSet.elems == InsertAll(old(filesSet.elems), ListingSeq(files[..i], DEFAULT_FILE_SUFFIX))
        {
          ghost var before := filesSet.elems;
          DoSearch(filesSet, files[i]);
          assert files[..i + 1][..i] == files[..i];
          InsertAllConcat(old(filesSet.elems), ListingSeq(files[..i], DEFAULT_FILE_SUFFIX), Listing(files[i], DEFAULT_FILE_SUFFIX));
        }
        assert files[..|files|] == files;
      case File(name) =>
        if EndsWith(name, DEFAULT_FILE_SUFFIX) {
          var _ := filesSet.Add(name);
          assert [name][..0] == [];
        }
    }

    /**
      `doLoad(location)`: a missing resource or one whose file name lacks the
      suffix is skipped; a decodable one is merged into `CustomProperties`;
      an undecodable one throws.
     */
    method DoLoad(location: string) returns (status: Status)
      modifies this, environment
      ensures Probed == old(Probed) + [location]
      ensures var o := LoadOne(old(environment.layers), location, resolve(location));
        environment.layers == o.layers && status == (if o.Done? then Normal else Thrown(location))
    {
      Probed := Probed + [location];
      var resource := resolve(location);
      if resource.Missing? {
        return Normal;
      }
      var filename := resource.filename;
      if filename.Some? && EndsWith(filename.value, DEFAULT_FILE_SUFFIX) {
        match resource.contents
        case Undecodable =>
          return Thrown(location);
        case Decoded(properties) =>
          var propertySource := environment.Get(PROPERTY_SOURCE_NAME);
          match propertySource
          case Some(i) =>
            environment.PutAll(i, properties);
            assert environment.layers == Install(old(environment.layers), properties);
          case None =>
            environment.AddLast(Layer(PROPERTY_SOURCE_NAME, properties));
      }
      status := Normal;
    }

    /**
      `load`: collect the names under `root` into an insertion-ordered set,
      then probe every search location with every name.
     */
    method Load(root: Entry) returns (status: Status)
      modifies this, environment
      ensures var o := Run(old(environment.layers), resolve, Probes(GetConfigLocation(), Discover(root)));
        environment.layers == o.layers && status == (if o.Done? then Normal else Thrown(o.location))
      ensures Probed == old(Probed) + Attempted(resolve, Probes(GetConfigLocation(), Discover(root)))
    {
      var fileNames := new NameSet();
      DoSearch(fileNames, root);
      var fileLocations := GetConfigLocation();
      status := ProbeAll(fileLocations, fileNames.elems);
    }

    /**
      The outer loop of `load`: for each location in order, probe it with
      every name; the first probe that throws ends the pass.
     */
    method ProbeAll(locations: seq<string>, names: seq<string>) returns (status: Status)
      modifies this, environment
      ensures var o := Run(old(environment.layers), resolve, Probes(locations, names));
        environment.layers == o.layers && status == (if o.Done? then Normal else Thrown(o.location))
      ensures Probed == old(Probed) + Attempted(resolve, Probes(locations, names))
    {
      ghost var start := environment.layers;
      ghost var probed0 := Probed;
      for i := 0 to |locations|
        invariant Run(start, resolve, Probes(locations[..i], names)) == Done(environment.layers)
        invariant Probed == probed0 + Probes(locations[..i], names)
      {
        ghost var earlier := Probes(locations[..i], names);
        ghost var row := Row(locations[i], names);
        ghost var mid := environment.layers;
        status := ProbeRow(locations[i], names);
        if status.Thrown? {
          RowThrows(start, resolve, locations, names, i);
          ConcatAssociative(probed0, earlier, Attempted(resolve, row));
          return;
        }
        ProbesStep(locations, names, i);
        RunAppend(start, resolve, earlier, row);
        RunDoneIff(mid, resolve, row);
        AttemptedAll(resolve, row);
        ConcatAssociative(probed0, earlier, row);
      }
      ghost var paths := Probes(locations, names);
      assert locations[..|locations|] == locations;
      RunDoneIff(start, resolve, paths);
      AttemptedAll(resolve, paths);
      status := Normal;
    }

    /**
      The inner loop of `load`: for each name in order, `doLoad(location +
      name)`; the first probe that throws ends the loop.
     */
    method ProbeRow(location: string, names: seq<string>) returns (status: Status)
      modifies this, environment
      ensures var o := Run(old(environment.layers), resolve, Row(location, names));
        environment.layers == o.layers && status == (if o.Done? then Normal else Thrown(o.location))
      ensures Probed == old(Probed) + Attempted(resolve, Row(location, names))
    {
      ghost var start := environment.layers;
      ghost var probed0 := Probed;
      ghost var row := Row(location, names);
      for j := 0 to |names|
        invariant Run(start, resolve, row[..j]) == Done(environment.layers)
        invariant Probed == probed0 + row[..j]
      {
        var locationPath := location + names[j];
        assert row[..j + 1] == row[..j] + [locationPath];
        RunSnoc(start, resolve, row[..j], locationPath);
        status := DoLoad(locationPath);
        if status.Thrown? {
          AbortAt(start, resolve, row, row[..j], locationPath);
          return;
        }
      }
      assert row[..|names|] == row;
      RunDoneIff(start, resolve, row);
      AttemptedAll(resolve, row);
      status := Normal;
    }
  }
}
