/** Model of mesh_sequence_player/FastGeometryLoader.py: loading a sorted list of
    geometry files into an ordered list of triangle meshes, either directly
    ("safe") or through a plain transfer record that can cross process
    boundaries ("fast" and the sequential variant of it). */
module GeometryLoader {

  type Path = string

  // Element types of open3d's vector containers. Their numeric content is
  // never inspected by the loader, so they stay opaque.
  type Vector3d
  type Vector2d
  type Vector3i
  type Image

  /** The properties of an open3d TriangleMesh that the loader touches. */
  datatype TriangleMesh = TriangleMesh(
    triangleMaterialIds: seq<int>,
    triangleNormals: seq<Vector3d>,
    triangleUvs: seq<Vector2d>,
    triangles: seq<Vector3i>,
    vertexColors: seq<Vector3d>,
    vertexNormals: seq<Vector3d>,
    vertices: seq<Vector3d>,
    textures: seq<Image>,
    adjacencyList: seq<set<int>>)

  /** A freshly constructed `TriangleMesh()`: every property is empty. */
  const EmptyMesh := TriangleMesh([], [], [], [], [], [], [], [], [])

  /** The process-transferable record: the seven array properties of a mesh,
      without textures and adjacency list. */
  datatype MeshTransmissionFormat = MeshTransmissionFormat(
    triangleMaterialIds: seq<int>,
    triangleNormals: seq<Vector3d>,
    triangleUvs: seq<Vector2d>,
    triangles: seq<Vector3i>,
    vertexColors: seq<Vector3d>,
    vertexNormals: seq<Vector3d>,
    vertices: seq<Vector3d>)

  /** `t` holds exactly the seven array properties of `m`. */
  ghost predicate Carries(t: MeshTransmissionFormat, m: TriangleMesh) {
    && t.triangleMaterialIds == m.triangleMaterialIds
    && t.triangleNormals == m.triangleNormals
    && t.triangleUvs == m.triangleUvs
    && t.triangles == m.triangles
    && t.vertexColors == m.vertexColors
    && t.vertexNormals == m.vertexNormals
    && t.vertices == m.vertices
  }

  /** Two meshes agree on the seven array properties (they may differ in
      textures and adjacency list). */
  ghost predicate SameArrays(a: TriangleMesh, b: TriangleMesh) {
    && a.triangleMaterialIds == b.triangleMaterialIds
    && a.triangleNormals == b.triangleNormals
    && a.triangleUvs == b.triangleUvs
    && a.triangles == b.triangles
    && a.vertexColors == b.vertexColors
    && a.vertexNormals == b.vertexNormals
    && a.vertices == b.vertices
  }

  /** `_MeshTransmissionFormat(mesh)`: copy the seven arrays out of a mesh. */
  function ToTransmission(mesh: TriangleMesh): (t: MeshTransmissionFormat)
    ensures Carries(t, mesh)
  {
    MeshTransmissionFormat(
      mesh.triangleMaterialIds, mesh.triangleNormals, mesh.triangleUvs, mesh.triangles,
      mesh.vertexColors, mesh.vertexNormals, mesh.vertices)
  }

  /** `create_mesh`: a fresh mesh with the seven arrays copied back in; textures
      and adjacency list keep the empty value of a fresh mesh. */
  function CreateMesh(t: MeshTransmissionFormat): (mesh: TriangleMesh)
    ensures Carries(t, mesh)
    ensures mesh.textures == [] && mesh.adjacencyList == []
  {
    EmptyMesh.(
      triangleMaterialIds := t.triangleMaterialIds,
      triangleNormals := t.triangleNormals,
      triangleUvs := t.triangleUvs,
      triangles := t.triangles,
      vertexColors := t.vertexColors,
      vertexNormals := t.vertexNormals,
      vertices := t.vertices)
  }

  /** Reconstruction restores every array property of the original mesh and
      drops its textures and adjacency list. */
  lemma CreateMeshRestoresArrays(m: TriangleMesh)
    ensures SameArrays(CreateMesh(ToTransmission(m)), m)
    ensures CreateMesh(ToTransmission(m)).textures == []
    ensures CreateMesh(ToTransmission(m)).adjacencyList == []
  {
  }

  /** The transfer round trip is the identity exactly on meshes that have no
      textures and no adjacency list. */
  lemma RoundTripIdentityIff(m: TriangleMesh)
    ensures CreateMesh(ToTransmission(m)) == m <==> (m.textures == [] && m.adjacencyList == [])
  {
  }

  /** Re-extracting a reconstructed mesh gives back the transfer record. */
  lemma ToTransmissionInvertsCreateMesh(t: MeshTransmissionFormat)
    ensures ToTransmission(CreateMesh(t)) == t
  {
  }

  /** `_load_data`: read one file and turn it into a transfer record. */
  function LoadData(file: Path, read: Path -> TriangleMesh): (t: MeshTransmissionFormat)
    ensures Carries(t, read(file))
  {
    ToTransmission(read(file))
  }

  /** `Pool.imap`: apply `f` to every element; results come back in
      submission order, whatever order the workers finish in. */
  function OrderedMap<A, B>(f: A -> B, xs: seq<A>): (ys: seq<B>)
    ensures |ys| == |xs|
    ensures forall k :: 0 <= k < |xs| ==> ys[k] == f(xs[k])
  {
    if xs == [] then [] else [f(xs[0])] + OrderedMap(f, xs[1..])
  }

  /** The list both transfer-based loaders return: file k read, copied into a
      transfer record and reconstructed. */
  function Transferred(files: seq<Path>, read: Path -> TriangleMesh): (meshes: seq<TriangleMesh>)
    ensures |meshes| == |files|
    ensures forall k :: 0 <= k < |files| ==> meshes[k] == CreateMesh(LoadData(files[k], read))
  {
    OrderedMap((t: MeshTransmissionFormat) => CreateMesh(t), OrderedMap((f: Path) => LoadData(f, read), files))
  }

  /** Each transferred mesh agrees with the directly read one on all seven
      arrays and carries no textures and no adjacency list. */
  lemma TransferredMatchesRead(files: seq<Path>, read: Path -> TriangleMesh, k: nat)
    requires k < |files|
    ensures SameArrays(Transferred(files, read)[k], read(files[k]))
    ensures Transferred(files, read)[k].textures == []
    ensures Transferred(files, read)[k].adjacencyList == []
  {
  }

  /** `load_geometries_safe`: read every file directly, appending in file order;
      `updates` counts the progress-bar updates. */
  method LoadGeometriesSafe(files: seq<Path>, read: Path -> TriangleMesh)
    returns (meshes: seq<TriangleMesh>, updates: nat)
    ensures |meshes| == |files|
    ensures forall k :: 0 <= k < |files| ==> meshes[k] == read(files[k])
    ensures updates == |files|
  {
    meshes, updates := [], 0;
    for i := 0 to |files|
      invariant |meshes| == i && updates == i
      invariant forall k :: 0 <= k < i ==> meshes[k] == read(files[k])
    {
      meshes := meshes + [read(files[i])];
      updates := updates + 1;
    }
  }

  /** `load_geometries`: load every file as a transfer record in file order,
      then reconstruct the meshes. */
  method LoadGeometries(files: seq<Path>, read: Path -> TriangleMesh)
    returns (meshes: seq<TriangleMesh>, updates: nat)
    ensures meshes == Transferred(files, read)
    ensures updates == |files|
  {
    var records: seq<MeshTransmissionFormat> := [];
    updates := 0;
    for i := 0 to |files|
      invariant |records| == i && updates == i
      invariant forall k :: 0 <= k < i ==> records[k] == LoadData(files[k], read)
    {
      records := records + [LoadData(files[i], read)];
      updates := updates + 1;
    }
    meshes := seq(|records|, k requires 0 <= k < |records| => CreateMesh(records[k]));
  }

  /** `load_geometries_fast`: the worker pool's ordered map produces the
      transfer records, which are appended as they arrive and then
      reconstructed. The result is the same list `LoadGeometries` returns. */
  method LoadGeometriesFast(files: seq<Path>, read: Path -> TriangleMesh)
    returns (meshes: seq<TriangleMesh>, updates: nat)
    ensures meshes == Transferred(files, read)
    ensures updates == |files|
  {
    var results := OrderedMap((f: Path) => LoadData(f, read), files);
    var records: seq<MeshTransmissionFormat> := [];
    updates := 0;
    for i := 0 to |results|
      invariant records == results[..i] && updates == i
    {
      records := records + [results[i]];
      updates := updates + 1;
    }
    meshes := seq(|records|, k requires 0 <= k < |records| => CreateMesh(records[k]));
  }
}
