# GLB to FBX tree emitter, in Dafny

This project models the translation at the heart of the `glb2fbx` converter:
`write_fbx_tree` takes a decoded glTF scene and emits the node tree of an
FBX 7.4 binary file. It also models the unit selection of `format_file_size`.

The scene is abstract (module `GltfScene`). It has a sequence of meshes, each a
sequence of primitives with optional positions and optional indices, and a
sequence of nodes, each with an optional name and an optional mesh index. The
output (module `FbxTree`) is a sequence of named nodes, each with typed
attributes and child nodes, as the FBX writer would receive them.

Modules:

- `Flatten`: per-mesh concatenation of primitive positions. Each primitive's
  indices are shifted by the running vertex offset. `FlattenMesh` is the
  converter's loop; `FlatPositions`/`FlatIndices` are its functional reference.
- `VertexArray`: the `Vertices` array, x,y,z per vertex. Its inverse is
  `GroupVertices`.
- `PolygonIndex`: the `PolygonVertexIndex` encoding. The last index of every
  triangle is stored as `-idx - 1`. Its partners are a sign-based decoder and
  a reader that splits the array into polygons at negative entries.
- `ObjectIds`: mesh ID `(i + 1) * 10000`, node ID `(j + 1) * 20000`.
- `FbxEmit`: the five top-level sections (FBXHeaderExtension,
  GlobalSettings, Definitions, Objects, Connections) and their contents.
- `EmitProperties`: what the emitted tree promises, stated over whole scenes.
- `FileSize`: the B/KB/MB/GB unit choice and the `"<size> B"` text.

The tree is built without width preconditions. `EmitProperties.TreeFits`
states the sizes (`Representable`) within which every i32 and i64 the
converter writes holds its exact value.

Two behaviours of the code are easy to miss:

- Mesh and node IDs are not disjoint: mesh `i` and node `j` share an ID
  exactly when `i + 1 == 2 * (j + 1)`. For example, mesh 1 and node 0 both
  get 20000. `ObjectIds.IdsCollide` and `EmitProperties.ObjectIdCollision`
  prove the exact condition.
- An unnamed mesh is named `"Geometry::Mesh"`: the fallback name is
  substituted before the prefix is added. Likewise an unnamed node is named
  `"Model::Node"`.

## Model

| member | source | states |
|---|---|---|
| Flatten.FlattenMesh | src/main.rs:608-624 | The loop with its running `vertex_offset` computes exactly the concatenated positions and the offset-shifted indices |
| Flatten.AppendPrimitive | src/main.rs:612-623 | A further primitive appends its positions, and its indices shifted by all positions before it. A primitive without indices adds none, yet still advances the offset by its positions |
| Flatten.PrimitivePositions | src/main.rs:612-617 | Primitive j's positions appear unchanged in the vertex buffer, starting at its vertex offset (the positions of all earlier primitives) |
| Flatten.PrimitiveIndices | src/main.rs:610-623 | Primitive j's indices appear in the index buffer, in order, shifted by exactly its vertex offset |
| Flatten.FirstPrimitiveUnshifted | src/main.rs:610 | The offset restarts at 0 for every mesh, so the first primitive's indices are stored unshifted |
| Flatten.TwoPrimitives | src/main.rs:612-623 | For primitives P1, P2 the positions are P1 + P2, and P2's indices are shifted by exactly the position count of P1 |
| Flatten.BufferLengths | src/main.rs:615-621 | The vertex and index buffers are as long as the sums of the primitives' position and index counts |
| Flatten.FlatIndicesInRange | src/main.rs:619-623 | If each primitive's indices are valid for its own positions, then every shifted index is valid for the concatenated vertex buffer |
| Flatten.WholeTriangles | src/main.rs:619-621 | If every primitive holds whole triangles, so does the mesh's index buffer |
| VertexArray.FlattenVertices | src/main.rs:642-644 | The Vertices array has 3 entries per position, laid out x, y, z at 3i, 3i+1, 3i+2 |
| VertexArray.GroupFlatten | src/main.rs:642-644 | Grouping the flat array by threes gives back the vertex buffer |
| VertexArray.FlattenGroup | src/main.rs:642-644 | Every array whose length is a multiple of three is the flat layout of its grouping |
| PolygonIndex.EncodePolygonIndices | src/main.rs:655-662 | Same length as the index buffer. An entry is negative exactly at positions i with (i+1) % 3 == 0. It fits i32 when every index is below 2^31 |
| PolygonIndex.EncodedEntries | src/main.rs:655-662 | At a triangle's last position the entry is -idx-1; everywhere else it is idx unchanged |
| PolygonIndex.DecodeEncode | src/main.rs:655-662 | Mapping each entry v to -v-1 when negative recovers the index buffer exactly |
| PolygonIndex.EncodeDecode | src/main.rs:655-662 | Any array that is negative exactly at triangle ends is the encoding of its decoding |
| PolygonIndex.PolygonsAreTriangles | src/main.rs:655-662 | A reader that closes a polygon at each negative entry sees exactly the triangles of the index buffer, in order |
| ObjectIds.MeshId | src/main.rs:605 | A mesh ID is a positive multiple of 10000 |
| ObjectIds.NodeId | src/main.rs:677 | A node ID is a positive multiple of 20000 |
| ObjectIds.MeshIdsIncrease | src/main.rs:605 | Mesh IDs strictly increase with the mesh index, so they are distinct |
| ObjectIds.NodeIdsIncrease | src/main.rs:677 | Node IDs strictly increase with the node index, so they are distinct |
| ObjectIds.IdsCollide | src/main.rs:707-708 | Mesh i and node j share an ID if and only if i+1 == 2(j+1) |
| ObjectIds.MeshIdIsNodeId | src/main.rs:707-708 | A mesh's ID equals some node's ID if and only if the mesh index is odd |
| ObjectIds.FirstCollision | src/main.rs:707-708 | Mesh 1 and node 0 both get 20000 |
| FbxEmit.EmitConnections | src/main.rs:705-722 | The loop over nodes emits exactly the connection records of the tree |
| FbxEmit.WriteFbxTree | src/main.rs:355-726 | The top level is FBXHeaderExtension, GlobalSettings, Definitions, Objects, Connections, in that order and nothing else. The sections are built by `HeaderExtension` (355-364), `GlobalSettings` and `SettingsProperties` (367-583), `Definitions` (586-596), `Objects` with `Geometry` (604-672) and `Model` (676-694), and `Connections` with `ConnectionRecords` and `Connection` (701-726). The EmitProperties rows state what each contains |
| EmitProperties.TopLevelShape | src/main.rs:355-596 | The header holds the single i32 1003. Definitions holds the single i32 mesh count + node count |
| EmitProperties.GlobalSettingsFixed | src/main.rs:367-583 | GlobalSettings is the same for every scene: Version 1000, then Properties70 with ten P entries of five attributes each, keyed UpAxis through OriginalUnitScaleFactor in that order |
| EmitProperties.ObjectsLayout | src/main.rs:599-697 | Objects holds one Geometry per mesh, in mesh order, with its ID and a name falling back to "Mesh", and children Vertices then PolygonVertexIndex. These are followed by one childless Model per node, in node order, with a name falling back to "Node" |
| EmitProperties.GeometryArrays | src/main.rs:638-668 | The Vertices array has 3x the mesh's position count and groups back to the positions. PolygonVertexIndex has the index count, is negative exactly at triangle ends, and decodes back to the shifted indices |
| EmitProperties.GeometryTriangles | src/main.rs:651-668 | For meshes made of whole triangles, a FBX reader of PolygonVertexIndex sees exactly the mesh's triangles |
| EmitProperties.ConnectionsFollowLinked | src/main.rs:705-722 | Connections holds one C record per node with a mesh, in node order, with attributes ("OO", mesh ID, node ID). Nodes without a mesh emit nothing |
| EmitProperties.ConnectionCount | src/main.rs:705-722 | The number of connection records equals the number of nodes that reference a mesh |
| EmitProperties.ConnectionsReferToObjects | src/main.rs:705-722 | In a scene with valid mesh references, each connection's IDs are those of the referenced mesh's Geometry and of the node's Model |
| EmitProperties.ObjectIdCollision | src/main.rs:604-694 | Geometry i and Model j carry the same ID if and only if i+1 == 2(j+1) |
| EmitProperties.ObjectIdsNotUnique | src/main.rs:604-694 | With two meshes and one node, the second Geometry and the first Model both carry ID 20000 |
| EmitProperties.TreeFits | src/main.rs:586-596 | Within representable sizes every i32 and i64 written holds its exact value. This covers the count cast, the IDs, and the encoded indices |
| EmitProperties.CubeExample | src/main.rs:604-722 | One mesh "Cube" (8 vertices, 12 triangles) and one node "CubeNode" give "Geometry::Cube", "Model::CubeNode", 24 vertex components, 36 indices, and the one connection 10000 to 20000 |
| FileSize.SelectUnit | src/main.rs:61-75 | The chosen unit is the largest of B, KB, MB, GB whose factor the size reaches |
| FileSize.UnitThresholds | src/main.rs:66-72 | B if and only if size < 1024. GB if and only if size >= 1024^3. MB if and only if 1024^2 <= size < 1024^3. KB otherwise. Exactly one case holds |
| FileSize.FormatFileSize | src/main.rs:61-75 | Below 1 KB the amount is the whole byte count. Otherwise it is the exact quotient of the size by the unit, which is at least 1 and, for KB and MB, under 1024 before the two-decimal rounding |
| FileSize.DecimalString | src/main.rs:73 | The byte count is rendered as decimal digits without a leading zero |
| FileSize.ParseDecimalString | src/main.rs:73 | The decimal rendering reads back as the number |
| FileSize.BytesText | src/main.rs:72-73 | Below 1024 the text is the decimal rendering of the byte count (digits only, no leading zero, reading back as the size) followed by " B" |

## Left out

- Directory scanning (`WalkDir`), file metadata and size totals: filesystem I/O.
- The glTF decoder (`gltf::import`, the primitive reader). Its outputs are
  the abstract `Scene`. Primitive modes other than triangle lists are not
  distinguished, as the converter does not read them.
- The FBX writer's binary framing, node nesting calls, footer and finalize.
  The model stops at the tree the writer is given, so the writer's error
  results (every `map_err(...)?`) have no counterpart.
- Floating point: position components are reals. The f32-to-f64 widening is
  exact, so it is the identity here. The `{:.2}` rendering of KB/MB/GB sizes is
  not modelled; `FileSize.FormatFileSize` keeps the exact quotient instead.
  The ratio and files-per-second arithmetic is also left out.
- FileSize.FormatFileSize: bounds the exact quotient only. The two-decimal
  rounding of the shown text can reach 1024.00, as in 1048575 B shown as
  "1024.00 KB"; floating-point rendering is not modelled.
- EmitProperties.TreeFits: holds on 64-bit targets only, where `usize` is 64
  bits wide; on a 32-bit target the `usize` ID multiplication overflows from
  mesh index 429496 and node index 214748 on, inside `Representable`. Machine-integer wrap-around
  is not modelled beyond the bounds it states. Outside `Representable`, the `u32` offset addition,
  `idx as i32`, `(mesh_count + node_count) as i32` and the `usize` ID
  multiplication would wrap or panic. The model instead computes the
  mathematical values.
- Flatten.FlattenMesh: does not model the truncation of
  `all_positions.len() as u32` for meshes of 2^32 or more positions.
- The banner, progress bar, colours, timing, sleep and command-line parsing:
  console output only.
- The per-file batch driver and error aggregation (`main`,
  `convert_glb_to_fbx`): I/O orchestration.
