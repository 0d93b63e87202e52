/**
  The environment's ordered list of named property sources (Spring's
  `MutablePropertySources`), restricted to what the loader uses: lookup by
  name, appending a source with the lowest precedence, and `putAll` into the
  key/value map of a source already in the list.
 */
module PropertySources {

  import opened Wrappers

  /** One named property source and its key/value pairs. */
  datatype Layer = Layer(name: string, props: map<string, string>)

  /** The position of the first source called `name`, if any (`get(name)`). */
  function Find(layers: seq<Layer>, name: string): (r: Option<nat>)
    ensures r.Some? ==> r.value < |layers| && layers[r.value].name == name
    ensures r.Some? ==> forall j :: 0 <= j < r.value ==> layers[j].name != name
    ensures r.None? <==> forall j :: 0 <= j < |layers| ==> layers[j].name != name
  {
    if layers == [] then None
    else if layers[0].name == name then Some(0)
    else match Find(layers[1..], name)
      case Some(i) => Some(i + 1)
      case None => None
  }

  /** At most one source in the list is called `name`. */
  predicate AtMostOne(layers: seq<Layer>, name: string) {
    forall i, j :: 0 <= i < j < |layers| && layers[i].name == name ==> layers[j].name != name
  }

  /** Appending a source called `l.name` to a list without one makes the new source the one found. */
  lemma {:induction false} FindAppended(layers: seq<Layer>, l: Layer)
    requires Find(layers, l.name).None?
    ensures Find(layers + [l], l.name) == Some(|layers|)
    decreases |layers|
  {
    if layers == [] {
      assert layers + [l] == [l];
    } else {
      assert layers[0].name != l.name;
      assert (layers + [l])[1..] == layers[1..] + [l];
      FindAppended(layers[1..], l);
    }
  }

  /** Replacing the found source by another of the same name keeps it the one found. */
  lemma FindUpdated(layers: seq<Layer>, i: nat, l: Layer)
    requires Find(layers, l.name) == Some(i)
    ensures Find(layers[i := l], l.name) == Some(i)
  {
    var r := layers[i := l];
    assert r[i].name == l.name;
    assert forall j :: 0 <= j < i ==> r[j].name != l.name;
  }

  class MutablePropertySources {
    /** The sources, highest precedence first. */
    var layers: seq<Layer>

    constructor (initial: seq<Layer>)
      ensures layers == initial
    {
      layers := initial;
    }

    /** `get(name)`: where the source called `name` sits, if there is one. */
    function Get(name: string): (r: Option<nat>)
      reads this
      ensures r.Some? ==> r.value < |layers| && layers[r.value].name == name
      ensures r.None? <==> forall j :: 0 <= j < |layers| ==> layers[j].name != name
    {
      Find(layers, name)
    }

    /**
      `addLast`: the new source goes to the end, below every other one; a
      source of the same name that was already listed is removed first.
     */
    method AddLast(layer: Layer)
      modifies this
      ensures Find(old(layers), layer.name).None? ==> layers == old(layers) + [layer]
      ensures Find(old(layers), layer.name).Some? ==>
        var i := Find(old(layers), layer.name).value;
        layers == old(layers)[..i] + old(layers)[i + 1..] + [layer]
    {
      match Find(layers, layer.name)
      case Some(i) => layers := layers[..i] + layers[i + 1..] + [layer];
      case None => layers := layers + [layer];
    }

    /**
      `putAll` into the map of the source at `index`: every given key takes
      the given value, other keys keep theirs, nothing else in the list moves.
     */
    method PutAll(index: nat, props: map<string, string>)
      requires index < |layers|
      modifies this
      ensures |layers| == |old(layers)|
      ensures layers[index] == Layer(old(layers)[index].name, old(layers)[index].props + props)
      ensures forall j :: 0 <= j < |layers| && j != index ==> layers[j] == old(layers)[j]
    {
      layers := layers[index := Layer(layers[index].name, layers[index].props + props)];
    }
  }
}
