/**
What the emitted tree promises about a scene: its fixed top-level shape, the
layout of the Objects node, the connection records, the object IDs, and the
widths the writer stores values in.
*/
module EmitProperties {
  import opened Options
  import opened GltfScene
  import opened FbxTree
  import opened Flatten
  import opened VertexArray
  import opened PolygonIndex
  import opened ObjectIds
  import opened FbxEmit

  /** The top level: the five sections in order, header version 1003, and the object count. */
  lemma TopLevelShape(s: Scene)
    ensures |WriteFbxTree(s)| == 5
    ensures WriteFbxTree(s)[0] == Node("FBXHeaderExtension", [I32(1003)], [])
    ensures WriteFbxTree(s)[2] == Node("Definitions", [I32(|s.meshes| + |s.nodes|)], [])
    ensures WriteFbxTree(s)[3].attrs == [] && WriteFbxTree(s)[4].attrs == []
  {
  }

  /** The property names of a Properties70 block, in order. */
  function PropertyNames(ps: seq<Node>): (r: seq<Attr>)
    requires forall k :: 0 <= k < |ps| ==> |ps[k].attrs| > 0
    ensures |r| == |ps|
  {
    seq(|ps|, k requires 0 <= k < |ps| => ps[k].attrs[0])
  }

  /**
  GlobalSettings does not depend on the scene: Version 1000 and a Properties70
  block of ten fixed `P` entries.
  */
  lemma GlobalSettingsFixed(s: Scene, t: Scene)
    ensures WriteFbxTree(s)[1] == WriteFbxTree(t)[1]
    ensures var g := WriteFbxTree(s)[1];
      && g.attrs == []
      && Names(g.children) == ["Version", "Properties70"]
      && g.children[0].attrs == [I32(1000)]
      && |g.children[1].children| == 10
      && (forall k :: 0 <= k < 10 ==> g.children[1].children[k].name == "P" && |g.children[1].children[k].attrs| == 5)
      && PropertyNames(g.children[1].children)
         == [ Str("UpAxis"), Str("UpAxisSign"), Str("FrontAxis"), Str("FrontAxisSign"),
              Str("CoordAxis"), Str("CoordAxisSign"), Str("OriginalUpAxis"), Str("OriginalUpAxisSign"),
              Str("UnitScaleFactor"), Str("OriginalUnitScaleFactor") ]
  {
  }

  /**
  Objects holds one Geometry per mesh, in mesh order, then one Model per node,
  in node order, named after the mesh or node with the fallback names.
  */
  lemma ObjectsLayout(s: Scene)
    ensures |Objects(s).children| == |s.meshes| + |s.nodes|
    ensures forall i :: 0 <= i < |s.meshes| ==>
      var g := Objects(s).children[i];
      && g.name == "Geometry"
      && g.attrs == [I64(MeshId(i)), Str("Geometry::" + s.meshes[i].name.GetOr("Mesh")), Str("Mesh")]
      && Names(g.children) == ["Vertices", "PolygonVertexIndex"]
    ensures forall j :: 0 <= j < |s.nodes| ==>
      Objects(s).children[|s.meshes| + j]
      == Node("Model", [I64(NodeId(j)), Str("Model::" + s.nodes[j].name.GetOr("Node")), Str("Mesh")], [])
  {
  }

  /**
  A Geometry's arrays: Vertices lays the mesh's concatenated positions out as
  x,y,z, and PolygonVertexIndex is as long as the shifted index buffer and
  decodes back to it.
  */
  lemma GeometryArrays(i: nat, m: Mesh)
    ensures var g := Geometry(i, m);
      && |g.children[0].attrs| == 1 && g.children[0].attrs[0].F64Array?
      && |g.children[1].attrs| == 1 && g.children[1].attrs[0].I32Array?
    ensures var v := Geometry(i, m).children[0].attrs[0].f64s;
            var ps := FlatPositions(m.primitives);
      && |v| == 3 * |ps|
      && GroupVertices(v) == ps
    ensures var e := Geometry(i, m).children[1].attrs[0].i32s;
      && |e| == |FlatIndices(m.primitives)|
      && DecodePolygonIndices(e) == FlatIndices(m.primitives)
      && TriangleTerminated(e)
  {
    GroupFlatten(FlatPositions(m.primitives));
    DecodeEncode(FlatIndices(m.primitives));
  }

  /** When every primitive holds whole triangles, a FBX reader sees exactly the mesh's triangles. */
  lemma GeometryTriangles(i: nat, m: Mesh)
    requires forall j :: 0 <= j < |m.primitives| ==> |IndicesOf(m.primitives[j])| % 3 == 0
    ensures |FlatIndices(m.primitives)| % 3 == 0
    ensures Polygons(Geometry(i, m).children[1].attrs[0].i32s) == Triangles(FlatIndices(m.primitives))
  {
    WholeTriangles(m.primitives);
    PolygonsAreTriangles(FlatIndices(m.primitives));
  }

  /** The nodes that reference a mesh, by index. */
  function Linked(nodes: seq<SceneNode>): (L: seq<nat>)
    ensures forall k :: 0 <= k < |L| ==> L[k] < |nodes| && nodes[L[k]].mesh.Some?
    ensures forall j :: 0 <= j < |nodes| && nodes[j].mesh.Some? ==> j in L
    ensures forall k, k' :: 0 <= k < k' < |L| ==> L[k] < L[k']
    decreases |nodes|
  {
    if nodes == [] then []
    else
      var j := |nodes| - 1;
      var init := nodes[..j];
      assert forall j' :: 0 <= j' < j ==> init[j'] == nodes[j'];
      Linked(init) + (if nodes[j].mesh.Some? then [j] else [])
  }

  /**
  Connections holds exactly one `C` record per node with a mesh, in node
  order, linking that mesh's ID to that node's ID; nodes without a mesh emit
  nothing.
  */
  lemma {:induction false} ConnectionsFollowLinked(nodes: seq<SceneNode>)
    ensures |ConnectionRecords(nodes)| == |Linked(nodes)|
    ensures forall k :: 0 <= k < |Linked(nodes)| ==>
      ConnectionRecords(nodes)[k]
      == Node("C", [Str("OO"), I64(MeshId(nodes[Linked(nodes)[k]].mesh.value)), I64(NodeId(Linked(nodes)[k]))], [])
    decreases |nodes|
  {
    if nodes != [] {
      var j := |nodes| - 1;
      var init := nodes[..j];
      ConnectionsFollowLinked(init);
      var L := Linked(nodes);
      var Li := Linked(init);
      forall k | 0 <= k < |Li|
        ensures nodes[Li[k]] == init[Li[k]]
      {
      }
    }
  }

  function Elements(L: seq<nat>): set<nat> {
    set x | x in L
  }

  /** A strictly increasing sequence has as many distinct elements as entries. */
  lemma {:induction false} IncreasingCardinality(L: seq<nat>)
    requires forall k, k' :: 0 <= k < k' < |L| ==> L[k] < L[k']
    ensures |Elements(L)| == |L|
    decreases |L|
  {
    if L != [] {
      var init := L[..|L| - 1];
      var last := L[|L| - 1];
      IncreasingCardinality(init);
      var before := Elements(init);
      assert Elements(L) == before + {last};
      assert last !in before;
      assert |before + {last}| == |before| + 1;
    }
  }

  /** The number of connection records is the number of nodes with a mesh. */
  lemma ConnectionCount(nodes: seq<SceneNode>)
    ensures |ConnectionRecords(nodes)| == |set j | 0 <= j < |nodes| && nodes[j].mesh.Some?|
  {
    var L := Linked(nodes);
    ConnectionsFollowLinked(nodes);
    IncreasingCardinality(L);
    assert (set j | 0 <= j < |nodes| && nodes[j].mesh.Some?) == Elements(L);
  }

  /**
  In a well-formed scene every connection's first ID is the ID of the
  referenced mesh's Geometry object and its second the ID of the node's Model.
  */
  lemma ConnectionsReferToObjects(s: Scene)
    requires WellFormed(s)
    ensures |Connections(s).children| == |Linked(s.nodes)|
    ensures |Objects(s).children| == |s.meshes| + |s.nodes|
    ensures forall k :: 0 <= k < |Connections(s).children| ==> |Connections(s).children[k].attrs| == 3
    ensures forall k :: 0 <= k < |Objects(s).children| ==> |Objects(s).children[k].attrs| == 3
    ensures forall k :: 0 <= k < |Linked(s.nodes)| ==>
      var j := Linked(s.nodes)[k];
      var m := s.nodes[j].mesh.value;
      && m < |s.meshes|
      && Connections(s).children[k].attrs[1] == Objects(s).children[m].attrs[0]
      && Connections(s).children[k].attrs[2] == Objects(s).children[|s.meshes| + j].attrs[0]
  {
    ConnectionsFollowLinked(s.nodes);
    ObjectsLayout(s);
    var objects := Objects(s).children;
    forall k | 0 <= k < |objects|
      ensures |objects[k].attrs| == 3
    {
      if k >= |s.meshes| {
        assert objects[k] == Model(k - |s.meshes|, s.nodes[k - |s.meshes|]);
      }
    }
  }

  /**
  Geometry `i` and Model `j` of the same file carry the same ID exactly when
  `i + 1 == 2 * (j + 1)`: the IDs are unique within each kind, not across.
  */
  lemma ObjectIdCollision(s: Scene, i: nat, j: nat)
    requires i < |s.meshes| && j < |s.nodes|
    ensures Objects(s).children[i].attrs[0] == Objects(s).children[|s.meshes| + j].attrs[0]
            <==> i + 1 == 2 * (j + 1)
  {
    ObjectsLayout(s);
    IdsCollide(i, j);
  }

  /** Any file with two meshes and a node has a Geometry and a Model sharing ID 20000. */
  lemma ObjectIdsNotUnique(s: Scene)
    requires |s.meshes| >= 2 && |s.nodes| >= 1
    ensures Objects(s).children[1].attrs[0] == Objects(s).children[|s.meshes|].attrs[0] == I64(20000)
  {
    ObjectsLayout(s);
  }

  /** A mesh whose shifted indices all fit in an i32. */
  predicate IndicesFitI32(m: Mesh) {
    forall k :: 0 <= k < |FlatIndices(m.primitives)| ==> FlatIndices(m.primitives)[k] <= I32_MAX
  }

  /** The scene sizes for which the converter's integer casts are exact. */
  predicate Representable(s: Scene) {
    && |s.meshes| + |s.nodes| <= I32_MAX
    && |s.meshes| * MESH_ID_STEP <= I64_MAX
    && |s.nodes| * NODE_ID_STEP <= I64_MAX
    && forall i :: 0 <= i < |s.meshes| ==> IndicesFitI32(s.meshes[i])
  }

  lemma GeometryFits(i: nat, m: Mesh)
    requires MeshId(i) <= I64_MAX
    requires IndicesFitI32(m)
    ensures WellTyped(Geometry(i, m))
  {
    var g := Geometry(i, m);
    assert WellTyped(g.children[0]);
    assert WellTyped(g.children[1]);
  }

  /** A node without children whose attributes all fit is well typed. */
  lemma LeafFits(n: Node)
    requires n.children == []
    requires forall k :: 0 <= k < |n.attrs| ==> AttrFits(n.attrs[k])
    ensures WellTyped(n)
  {
  }

  /** Every Properties70 entry is a childless `P` node whose value fits an i32 or is a double. */
  lemma SettingsPropertiesShape()
    ensures forall k :: 0 <= k < |SettingsProperties()| ==>
      var p := SettingsProperties()[k];
      && p.children == []
      && |p.attrs| == 5
      && (forall a :: 0 <= a < 4 ==> p.attrs[a].Str?)
      && (p.attrs[4].F64? || (p.attrs[4].I32? && -1 <= p.attrs[4].i32 <= 2))
  {
  }

  lemma GlobalSettingsFits()
    ensures WellTyped(GlobalSettings())
  {
    var ps := SettingsProperties();
    SettingsPropertiesShape();
    forall k | 0 <= k < |ps|
      ensures WellTyped(ps[k])
    {
      LeafFits(ps[k]);
    }
    var g := GlobalSettings();
    LeafFits(g.children[0]);
    assert WellTyped(g.children[1]);
  }

  lemma ObjectsFit(s: Scene)
    requires Representable(s)
    ensures WellTyped(Objects(s))
  {
    var objects := Objects(s).children;
    forall k | 0 <= k < |objects|
      ensures WellTyped(objects[k])
    {
      if k < |s.meshes| {
        GeometryFits(k, s.meshes[k]);
      } else {
        assert objects[k] == Model(k - |s.meshes|, s.nodes[k - |s.meshes|]);
      }
    }
  }

  lemma ConnectionsFit(s: Scene)
    requires WellFormed(s)
    requires Representable(s)
    ensures WellTyped(Connections(s))
  {
    ConnectionsFollowLinked(s.nodes);
    var records := ConnectionRecords(s.nodes);
    var L := Linked(s.nodes);
    forall k | 0 <= k < |records|
      ensures WellTyped(records[k])
    {
      assert s.nodes[L[k]].mesh.value < |s.meshes|;
      assert AttrFits(records[k].attrs[1]);
      assert AttrFits(records[k].attrs[2]);
    }
  }

  /** Within those sizes every emitted i32 and i64 value fits its width. */
  lemma TreeFits(s: Scene)
    requires WellFormed(s)
    requires Representable(s)
    ensures forall k :: 0 <= k < |WriteFbxTree(s)| ==> WellTyped(WriteFbxTree(s)[k])
  {
    GlobalSettingsFits();
    ObjectsFit(s);
    ConnectionsFit(s);
    assert WellTyped(HeaderExtension());
    assert WellTyped(Definitions(s));
  }

  /**
  The cube: one mesh "Cube" of 8 vertices and 12 triangles, and one node
  "CubeNode" instancing it, give one Geometry, one Model, and one connection
  10000 -> 20000.
  */
  lemma CubeExample(positions: seq<Vec3>, indices: seq<nat>)
    requires |positions| == 8 && |indices| == 36
    ensures var s := Scene([Mesh(Some("Cube"), [Primitive(Some(positions), Some(indices))])],
                           [SceneNode(Some("CubeNode"), Some(0))]);
            var tree := WriteFbxTree(s);
      && tree[2].attrs == [I32(2)]
      && Names(tree[3].children) == ["Geometry", "Model"]
      && tree[3].children[0].attrs[1] == Str("Geometry::Cube")
      && tree[3].children[1].attrs[1] == Str("Model::CubeNode")
      && |tree[3].children[0].children[0].attrs[0].f64s| == 24
      && |tree[3].children[0].children[1].attrs[0].i32s| == 36
      && tree[4].children == [Node("C", [Str("OO"), I64(10000), I64(20000)], [])]
  {
    var p := Primitive(Some(positions), Some(indices));
    AppendPrimitive([], p);
    assert [] + [p] == [p];
    var nodes := [SceneNode(Some("CubeNode"), Some(0))];
    assert nodes[..0] == [];
  }
}
