/** The task graph of a job: layers of elements, each connected to the one before. */
module JobGraph {
  import opened Elements

  datatype Connection = Connection(from: seq<string>, to: seq<string>)

  datatype Request = Request(elements: seq<Element>, connections: seq<Connection>)

  const SOURCE := Element("source_file", Assets)
  const PACKAGER := Element("packager", Packaging)

  // ---------------------------------------------------------------- what a request holds

  function Uids(es: seq<Element>): (us: seq<string>)
    ensures |us| == |es| && forall i :: 0 <= i < |es| ==> us[i] == es[i].uid
  {
    if es == [] then [] else Uids(es[..|es| - 1]) + [es[|es| - 1].uid]
  }

  type Layers = seq<seq<Element>>

  function Flatten(layers: Layers): seq<Element> {
    if layers == [] then [] else Flatten(layers[..|layers| - 1]) + layers[|layers| - 1]
  }

  /** Each layer but the first is connected to the one before it. */
  function Links(layers: Layers): (cs: seq<Connection>)
    ensures |cs| == if layers == [] then 0 else |layers| - 1
  {
    if |layers| < 2 then []
    else
      var n := |layers| - 1;
      Links(layers[..n]) + [Connection(Uids(layers[n - 1]), Uids(layers[n]))]
  }

  lemma {:induction false} LinkAt(layers: Layers, k: nat)
    requires k + 1 < |layers|
    ensures Links(layers)[k] == Connection(Uids(layers[k]), Uids(layers[k + 1]))
  {
    var n := |layers| - 1;
    if k + 1 == n {
    } else {
      LinkAt(layers[..n], k);
    }
  }

  lemma {:induction false} FlattenSnoc(layers: Layers, group: seq<Element>)
    ensures Flatten(layers + [group]) == Flatten(layers) + group
  {
    assert (layers + [group])[..|layers|] == layers;
  }

  lemma {:induction false} LinksSnoc(layers: Layers, group: seq<Element>)
    requires layers != []
    ensures Links(layers + [group]) == Links(layers) + [Connection(Uids(layers[|layers| - 1]), Uids(group))]
  {
    assert (layers + [group])[..|layers|] == layers;
  }

  function AllLayers(groups: Layers, packaged: bool): (layers: Layers)
    ensures layers != [] && layers[0] == [SOURCE]
  {
    [[SOURCE]] + groups + if packaged then [[PACKAGER]] else []
  }

  // ---------------------------------------------------------------- building it

  method ConnectionsFrom(elements: seq<Element>) returns (uids: seq<string>)
    ensures uids == Uids(elements)
  {
    uids := [];
    for i := 0 to |elements|
      invariant uids == Uids(elements[..i])
    {
      assert elements[..i + 1][..i] == elements[..i];
      uids := uids + [elements[i].uid];
    }
    assert elements[..|elements|] == elements;
  }

  method EnrichWithPackaging(request: Request, prevElements: seq<Element>) returns (r: Request)
    ensures r.elements == request.elements + [PACKAGER]
    ensures r.connections == request.connections + [Connection(Uids(prevElements), Uids([PACKAGER]))]
  {
    var manifestFrom := ConnectionsFrom(prevElements);
    assert Uids([PACKAGER]) == [PACKAGER.uid];
    r := Request(request.elements + [PACKAGER], request.connections + [Connection(manifestFrom, [PACKAGER.uid])]);
  }

  /** The last layer before packaging. */
  function LastLayer(groups: Layers): seq<Element> {
    if groups == [] then [SOURCE] else groups[|groups| - 1]
  }

  lemma NextGroup(groups: Layers, g: nat)
    requires g < |groups|
    ensures var before, after := AllLayers(groups[..g], false), AllLayers(groups[..g + 1], false);
      && Flatten(after) == Flatten(before) + groups[g]
      && Links(after) == Links(before) + [Connection(Uids(LastLayer(groups[..g])), Uids(groups[g]))]
    ensures LastLayer(groups[..g + 1]) == groups[g]
  {
    var before := AllLayers(groups[..g], false);
    FlattenSnoc(before, groups[g]);
    LinksSnoc(before, groups[g]);
    assert AllLayers(groups[..g + 1], false) == before + [groups[g]];
    assert before[|before| - 1] == LastLayer(groups[..g]);
  }

  lemma PackagingLayer(groups: Layers)
    ensures var before, after := AllLayers(groups, false), AllLayers(groups, true);
      && Flatten(after) == Flatten(before) + [PACKAGER]
      && Links(after) == Links(before) + [Connection(Uids(LastLayer(groups)), Uids([PACKAGER]))]
  {
    var before := AllLayers(groups, false);
    FlattenSnoc(before, [PACKAGER]);
    LinksSnoc(before, [PACKAGER]);
    assert AllLayers(groups, true) == before + [[PACKAGER]];
    assert before[|before| - 1] == LastLayer(groups);
  }

  lemma SourceLayer()
    ensures AllLayers([], false) == [[SOURCE]] && Flatten([[SOURCE]]) == [SOURCE] && Links([[SOURCE]]) == []
  {
    FlattenSnoc([], [SOURCE]);
  }

  method CreateJobReq(elementGroups: Layers, packaged: bool) returns (r: Request)
    ensures r == Request(Flatten(AllLayers(elementGroups, packaged)), Links(AllLayers(elementGroups, packaged)))
  {
    var connections := [];
    var prevElements := [SOURCE];
    var allTaskElements := [];
    SourceLayer();
    assert elementGroups[..0] == [];
    for g := 0 to |elementGroups|
      invariant prevElements == LastLayer(elementGroups[..g])
      invariant Flatten(AllLayers(elementGroups[..g], false)) == [SOURCE] + allTaskElements
      invariant Links(AllLayers(elementGroups[..g], false)) == connections
    {
      NextGroup(elementGroups, g);
      var from := ConnectionsFrom(prevElements);
      var to := ConnectionsFrom(elementGroups[g]);
      allTaskElements := allTaskElements + elementGroups[g];
      connections := connections + [Connection(from, to)];
      prevElements := elementGroups[g];
    }
    assert elementGroups[..|elementGroups|] == elementGroups;
    r := Request([SOURCE] + allTaskElements, connections);
    if packaged {
      PackagingLayer(elementGroups);
      r := EnrichWithPackaging(r, prevElements);
    }
  }

  // ---------------------------------------------------------------- positions

  function Offset(layers: Layers, k: nat): nat
    requires k <= |layers|
  {
    |Flatten(layers[..k])|
  }

  lemma {:induction false} FlattenAt(layers: Layers, k: nat, i: nat)
    requires k < |layers| && i < |layers[k]|
    ensures Offset(layers, k) + |layers[k]| == Offset(layers, k + 1) <= |Flatten(layers)|
    ensures Flatten(layers)[Offset(layers, k) + i] == layers[k][i]
  {
    var n := |layers| - 1;
    assert layers[..k + 1][..k] == layers[..k];
    if k < n {
      FlattenAt(layers[..n], k, i);
      assert layers[..n][..k] == layers[..k] && layers[..n][..k + 1] == layers[..k + 1];
    } else {
      assert layers[..k + 1] == layers;
    }
  }

  lemma {:induction false} OffsetsGrow(layers: Layers, j: nat, k: nat)
    requires j <= k <= |layers|
    ensures Offset(layers, j) <= Offset(layers, k)
  {
    if j == k {
    } else {
      OffsetsGrow(layers, j, k - 1);
      assert layers[..k][..k - 1] == layers[..k - 1];
    }
  }

  /** A later layer is listed after an earlier one. */
  lemma {:induction false} LayersInOrder(layers: Layers, j: nat, i: nat, k: nat, l: nat)
    requires j < k < |layers| && i < |layers[j]| && l < |layers[k]|
    ensures Offset(layers, j) + i < Offset(layers, k) + l < |Flatten(layers)|
    ensures Flatten(layers)[Offset(layers, j) + i] == layers[j][i]
    ensures Flatten(layers)[Offset(layers, k) + l] == layers[k][l]
  {
    FlattenAt(layers, j, i);
    FlattenAt(layers, k, l);
    OffsetsGrow(layers, j + 1, k);
  }

  ghost predicate Distinct(elements: seq<Element>) {
    forall a, b :: 0 <= a < b < |elements| ==> elements[a].uid != elements[b].uid
  }

  /** An element with a UID is in layer `k`. */
  ghost predicate InLayer(layers: Layers, k: nat, u: string) {
    k < |layers| && u in Uids(layers[k])
  }

  lemma InLayerAt(layers: Layers, k: nat, u: string) returns (i: nat)
    requires InLayer(layers, k, u)
    ensures i < |layers[k]| && layers[k][i].uid == u
    ensures Offset(layers, k) + i < |Flatten(layers)| && Flatten(layers)[Offset(layers, k) + i].uid == u
  {
    i :| 0 <= i < |Uids(layers[k])| && Uids(layers[k])[i] == u;
    FlattenAt(layers, k, i);
  }

  lemma {:induction false} OneLayer(layers: Layers, j: nat, k: nat, u: string)
    requires Distinct(Flatten(layers)) && InLayer(layers, j, u) && InLayer(layers, k, u)
    ensures j == k
  {
    var a := InLayerAt(layers, j, u);
    var b := InLayerAt(layers, k, u);
    if j < k {
      LayersInOrder(layers, j, a, k, b);
    } else if k < j {
      LayersInOrder(layers, k, b, j, a);
    }
  }

  // ---------------------------------------------------------------- edges

  ghost predicate Edge(connections: seq<Connection>, u: string, v: string) {
    exists c :: 0 <= c < |connections| && u in connections[c].from && v in connections[c].to
  }

  ghost predicate Neighbours(layers: Layers, k: nat, u: string, v: string) {
    InLayer(layers, k, u) && InLayer(layers, k + 1, v)
  }

  /** The edges lead from each layer to the next, from every element to every element. */
  lemma {:induction false} EdgesJoinNeighbours(layers: Layers, u: string, v: string)
    ensures Edge(Links(layers), u, v) <==> exists k: nat :: Neighbours(layers, k, u, v)
  {
    if k: nat :| Neighbours(layers, k, u, v) {
      LinkAt(layers, k);
    }
    if Edge(Links(layers), u, v) {
      var c :| 0 <= c < |Links(layers)| && u in Links(layers)[c].from && v in Links(layers)[c].to;
      LinkAt(layers, c);
      assert Neighbours(layers, c, u, v);
    }
  }

  lemma {:induction false} EdgeClimbs(layers: Layers, u: string, v: string, k: nat)
    requires Distinct(Flatten(layers)) && Edge(Links(layers), u, v) && InLayer(layers, k, u)
    ensures InLayer(layers, k + 1, v)
  {
    EdgesJoinNeighbours(layers, u, v);
    var j: nat :| Neighbours(layers, j, u, v);
    OneLayer(layers, j, k, u);
  }

  ghost predicate ListedAt(elements: seq<Element>, a: nat, u: string) {
    a < |elements| && elements[a].uid == u
  }

  /** The elements are listed in topological order: both ends of an edge are listed, the source first. */
  lemma EdgesAscend(layers: Layers, u: string, v: string) returns (a: nat, b: nat)
    requires Edge(Links(layers), u, v)
    ensures a < b && ListedAt(Flatten(layers), a, u) && ListedAt(Flatten(layers), b, v)
  {
    EdgesJoinNeighbours(layers, u, v);
    var k: nat :| Neighbours(layers, k, u, v);
    var i := InLayerAt(layers, k, u);
    var j := InLayerAt(layers, k + 1, v);
    LayersInOrder(layers, k, i, k + 1, j);
    a, b := Offset(layers, k) + i, Offset(layers, k + 1) + j;
  }

  ghost predicate Path(connections: seq<Connection>, path: seq<string>) {
    path != [] && forall t :: 0 < t < |path| ==> Edge(connections, path[t - 1], path[t])
  }

  lemma {:induction false} PathClimbs(layers: Layers, path: seq<string>, k: nat, t: nat)
    requires Distinct(Flatten(layers)) && Path(Links(layers), path)
    requires InLayer(layers, k, path[0]) && t < |path|
    ensures InLayer(layers, k + t, path[t])
  {
    if t == 0 {
    } else {
      PathClimbs(layers, path, k, t - 1);
      EdgeClimbs(layers, path[t - 1], path[t], k + t - 1);
    }
  }

  /** No path comes back to where it started. */
  lemma {:induction false} Acyclic(layers: Layers, path: seq<string>)
    requires Distinct(Flatten(layers)) && Path(Links(layers), path) && |path| > 1
    ensures path[0] != path[|path| - 1]
  {
    assert Edge(Links(layers), path[1 - 1], path[1]);
    EdgesJoinNeighbours(layers, path[0], path[1]);
    var k: nat :| Neighbours(layers, k, path[0], path[1]);
    PathClimbs(layers, path, k, |path| - 1);
    if path[0] == path[|path| - 1] {
      OneLayer(layers, k, k + |path| - 1, path[0]);
    }
  }

  // ---------------------------------------------------------------- reachability

  ghost predicate Reaches(connections: seq<Connection>, u: string, v: string) {
    exists path :: Path(connections, path) && path[0] == u && path[|path| - 1] == v
  }

  ghost predicate NoGapBefore(layers: Layers, k: nat) {
    forall m :: 0 <= m < k && m < |layers| ==> layers[m] != []
  }

  lemma {:induction false} PathDown(layers: Layers, k: nat, v: string) returns (path: seq<string>)
    requires layers != [] && layers[0] == [SOURCE] && InLayer(layers, k, v) && NoGapBefore(layers, k)
    ensures Path(Links(layers), path) && path[0] == SOURCE.uid && path[|path| - 1] == v
  {
    if k == 0 {
      path := [v];
    } else {
      var u := layers[k - 1][0].uid;
      assert Uids(layers[k - 1])[0] == u;
      var start := PathDown(layers, k - 1, u);
      assert Neighbours(layers, k - 1, u, v);
      EdgesJoinNeighbours(layers, u, v);
      path := start + [v];
    }
  }

  lemma {:induction false} FromSource(layers: Layers, path: seq<string>, m: nat)
    requires Distinct(Flatten(layers)) && layers != [] && layers[0] == [SOURCE]
    requires Path(Links(layers), path) && path[0] == SOURCE.uid && m < |path|
    ensures InLayer(layers, m, path[m]) && layers[m] != []
  {
    assert Uids(layers[0])[0] == SOURCE.uid;
    PathClimbs(layers, path, 0, m);
  }

  lemma {:induction false} ReachedThroughAllLayers(layers: Layers, k: nat, path: seq<string>)
    requires Distinct(Flatten(layers)) && layers != [] && layers[0] == [SOURCE]
    requires Path(Links(layers), path) && path[0] == SOURCE.uid && InLayer(layers, k, path[|path| - 1])
    ensures NoGapBefore(layers, k)
  {
    FromSource(layers, path, |path| - 1);
    OneLayer(layers, |path| - 1, k, path[|path| - 1]);
    forall m | 0 <= m < k ensures layers[m] != [] {
      FromSource(layers, path, m);
    }
  }

  /** An element is reachable from the source exactly when no layer before its own is empty. */
  lemma {:induction false} ReachableExactly(layers: Layers, k: nat, v: string)
    requires Distinct(Flatten(layers)) && layers != [] && layers[0] == [SOURCE] && InLayer(layers, k, v)
    ensures Reaches(Links(layers), SOURCE.uid, v) <==> NoGapBefore(layers, k)
  {
    if NoGapBefore(layers, k) {
      var path := PathDown(layers, k, v);
    }
    if Reaches(Links(layers), SOURCE.uid, v) {
      var path :| Path(Links(layers), path) && path[0] == SOURCE.uid && path[|path| - 1] == v;
      ReachedThroughAllLayers(layers, k, path);
    }
  }

  lemma {:induction false} ListedInLayer(layers: Layers, e: Element) returns (k: nat)
    requires e in Flatten(layers)
    ensures k < |layers| && e in layers[k] && InLayer(layers, k, e.uid)
  {
    var n := |layers| - 1;
    if e in layers[n] {
      k := n;
      var i :| 0 <= i < |layers[n]| && layers[n][i] == e;
      assert Uids(layers[n])[i] == e.uid;
    } else {
      k := ListedInLayer(layers[..n], e);
    }
  }

  /** A whole job is reachable from its source when none of its groups is empty. */
  lemma WholeJobIsReachable(groups: Layers, packaged: bool, e: Element)
    requires Distinct(Flatten(AllLayers(groups, packaged))) && forall g :: 0 <= g < |groups| ==> groups[g] != []
    requires e in Flatten(AllLayers(groups, packaged))
    ensures Reaches(Links(AllLayers(groups, packaged)), SOURCE.uid, e.uid)
  {
    var layers := AllLayers(groups, packaged);
    var k := ListedInLayer(layers, e);
    forall m | 0 <= m < k && m < |layers| ensures layers[m] != [] {
      assert m > 0 ==> m - 1 < |groups| ==> layers[m] == groups[m - 1];
    }
    ReachableExactly(layers, k, e.uid);
  }

  /** Packaging adds one sink: its only incoming edges are from the whole last layer, and none leaves it. */
  lemma PackagerIsTheSink(groups: Layers, u: string)
    requires Distinct(Flatten(AllLayers(groups, true)))
    ensures Edge(Links(AllLayers(groups, true)), u, PACKAGER.uid) <==>
      u in Uids(LastLayer(groups))
    ensures !Edge(Links(AllLayers(groups, true)), PACKAGER.uid, u)
  {
    var layers, n := AllLayers(groups, true), |groups| + 1;
    EdgesJoinNeighbours(layers, u, PACKAGER.uid);
    EdgesJoinNeighbours(layers, PACKAGER.uid, u);
    assert Uids(layers[n])[0] == PACKAGER.uid;
    assert InLayer(layers, n, PACKAGER.uid);
    forall k: nat | InLayer(layers, k, PACKAGER.uid) ensures k == n {
      OneLayer(layers, k, n, PACKAGER.uid);
    }
    assert layers[|groups|] == LastLayer(groups);
    if u in Uids(layers[|groups|]) {
      assert Neighbours(layers, |groups|, u, PACKAGER.uid);
    }
  }

  lemma {:induction false} PackagerOfNothing()
    ensures AllLayers([[]], true) == [[SOURCE], [], [PACKAGER]]
    ensures Flatten(AllLayers([[]], true)) == [SOURCE, PACKAGER]
  {
    FlattenSnoc([], [SOURCE]);
    FlattenSnoc([[SOURCE]], []);
    FlattenSnoc([[SOURCE], []], [PACKAGER]);
    assert [[SOURCE]] + [[]] == [[SOURCE], []];
    assert [[SOURCE], []] + [[PACKAGER]] == AllLayers([[]], true);
  }

  /** A job without outputs has one empty group, and its packager is fed by nothing. */
  lemma {:induction false} PackagerOfNothingIsUnreachable()
    ensures !Reaches(Links(AllLayers([[]], true)), SOURCE.uid, PACKAGER.uid)
  {
    var layers := AllLayers([[]], true);
    PackagerOfNothing();
    assert Uids(layers[2])[0] == PACKAGER.uid;
    ReachableExactly(layers, 2, PACKAGER.uid);
    assert layers[1] == [];
  }
}
