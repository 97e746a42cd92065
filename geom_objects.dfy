/** The triangulation tables and the iterator state of IfcGeomObjects.cpp:
    vertex welding in `addvert`, the material, face and material-id tables
    the triangulation constructor fills, the representation-identifier
    filter, `Settings` and the guards of `Get`, `GetBrepData` and
    `GetObject`. Coordinates are opaque values compared by equality; the
    meshing itself (OpenCASCADE) is an input: each face arrives with its
    transformed node points and its triangles. */
module GeomObjects {
  import opened Wrappers

  /** A single-precision coordinate, only stored and compared. */
  type Coord = real

  datatype Point = Point(x: Coord, y: Coord, z: Coord)

  /** `VertKey`: the material index and the three coordinates. */
  datatype VertKey = VertKey(material: int, p: Point)

  /** A surface style by its address: `Material::operator==` compares the
      style pointers. */
  type Style = nat

  /** A mesh triangle: three node numbers, counted from 1. */
  datatype Triangle = Triangle(n1: int, n2: int, n3: int)

  /** A face of a shape: `reversed` is `Orientation() == TopAbs_REVERSED`,
      `triangulated` is a non-null `Poly_Triangulation`, whose node `i` is
      at `nodes[i - 1]` once placed. */
  datatype Face = Face(reversed: bool, triangulated: bool, nodes: seq<Point>, triangles: seq<Triangle>)

  /** A shape item: its style, if any, whether `BRepMesh::Mesh` succeeded,
      and its faces. */
  datatype ShapeItem = ShapeItem(style: Option<Style>, meshed: bool, faces: seq<Face>)

  /** The vertex `i` of a flat coordinate buffer. */
  function VertexAt(verts: seq<Coord>, i: int): Point
    requires 0 <= i && 3 * i + 2 < |verts|
  {
    Point(verts[3 * i], verts[3 * i + 1], verts[3 * i + 2])
  }

  /** Growing a buffer keeps its vertices. */
  lemma VertexAtPrefix(a: seq<Coord>, b: seq<Coord>, i: int)
    requires a <= b && 0 <= i && 3 * i + 2 < |a|
    ensures VertexAt(b, i) == VertexAt(a, i)
  {
    assert a == b[..|a|];
  }

  /** Every welded key names a stored vertex at its point. */
  ghost predicate WeldsAt(welds: map<VertKey, int>, verts: seq<Coord>)
  {
    forall k :: k in welds ==> 0 <= welds[k] && 3 * welds[k] + 2 < |verts| && VertexAt(verts, welds[k]) == k.p
  }

  /** Distinct keys are welded to distinct vertices. */
  ghost predicate Injective(welds: map<VertKey, int>)
  {
    forall k1, k2 :: k1 in welds && k2 in welds && welds[k1] == welds[k2] ==> k1 == k2
  }

  ghost predicate NoDuplicates(ms: seq<Style>)
  {
    forall i, j :: 0 <= i < j < |ms| ==> ms[i] != ms[j]
  }

  // ---- materials -----------------------------------------------------------------

  /** `std::find(_materials.begin(), _materials.end(), adapter)`: the
      position of the first entry equal to `s`, or `|ms|`. */
  function Find(ms: seq<Style>, s: Style): (r: nat)
    ensures r <= |ms|
    ensures r < |ms| ==> ms[r] == s
    ensures forall j :: 0 <= j < r ==> ms[j] != s
    ensures r == |ms| <==> s !in ms
    decreases |ms|
  {
    if ms == [] then 0
    else if ms[|ms| - 1] != s && Find(ms[..|ms| - 1], s) == |ms| - 1 then |ms|
    else Find(ms[..|ms| - 1], s)
  }

  /** `surface_style_id` for a shape item with style `s`. */
  function StyleId(ms: seq<Style>, s: Option<Style>): int
  {
    if s.None? then -1 else Find(ms, s.value)
  }

  /** `_materials` after the style of a shape item is looked up. */
  function WithStyle(ms: seq<Style>, s: Option<Style>): seq<Style>
  {
    if s.Some? && s.value !in ms then ms + [s.value] else ms
  }

  /** The style id is -1 exactly when there is no style; otherwise the
      table afterwards holds the style at that id, at its first position,
      the table keeps its old entries and gains the style only when it was
      absent, and it stays free of duplicates. */
  lemma StyleIdMeaning(ms: seq<Style>, s: Option<Style>)
    requires NoDuplicates(ms)
    ensures StyleId(ms, s) == -1 <==> s.None?
    ensures s.Some? ==>
      var id := StyleId(ms, s); var ms' := WithStyle(ms, s);
      0 <= id < |ms'| && ms'[id] == s.value && (forall j :: 0 <= j < id ==> ms'[j] != s.value) &&
      ms <= ms' && (s.value in ms <==> ms' == ms) && (s.value !in ms <==> id == |ms|)
    ensures NoDuplicates(WithStyle(ms, s))
  {
  }

  // ---- face corners --------------------------------------------------------------------

  /** `dict[n]`: `std::map::operator[]` yields 0 for a node number never
      assigned. */
  function Lookup(dict: map<int, int>, n: int): int
  {
    if n in dict then dict[n] else 0
  }

  /** The three face indices one triangle contributes: `Get(n3, n2, n1)`
      on a reversed face, so its first and third corners trade places. */
  function Corner(t: Triangle, reversed: bool, dict: map<int, int>): (r: seq<int>)
    ensures |r| == 3
    ensures !reversed ==> r == [Lookup(dict, t.n1), Lookup(dict, t.n2), Lookup(dict, t.n3)]
    ensures reversed ==> r == [Lookup(dict, t.n3), Lookup(dict, t.n2), Lookup(dict, t.n1)]
  {
    if reversed then [Lookup(dict, t.n3), Lookup(dict, t.n2), Lookup(dict, t.n1)]
    else [Lookup(dict, t.n1), Lookup(dict, t.n2), Lookup(dict, t.n3)]
  }

  /** The face indices of the triangles `ts`, in order. */
  function Corners(ts: seq<Triangle>, reversed: bool, dict: map<int, int>): (r: seq<int>)
    decreases |ts|
  {
    if ts == [] then [] else Corners(ts[..|ts| - 1], reversed, dict) + Corner(ts[|ts| - 1], reversed, dict)
  }

  /** The node numbers a triangle may use on a face with `n` nodes. */
  predicate OnNodes(t: Triangle, n: int)
  {
    1 <= t.n1 <= n && 1 <= t.n2 <= n && 1 <= t.n3 <= n
  }

  /** Every triangle of a face uses nodes of that face. */
  predicate WellFormed(f: Face)
  {
    forall j :: 0 <= j < |f.triangles| ==> OnNodes(f.triangles[j], |f.nodes|)
  }

  ghost predicate ItemsWellFormed(items: seq<ShapeItem>)
  {
    forall i, j :: 0 <= i < |items| && 0 <= j < |items[i].faces| ==> WellFormed(items[i].faces[j])
  }

  /** Three face indices per triangle; triangle `j` owns indices `3j` to
      `3j+2`, in its orientation. */
  lemma {:induction false} CornersShape(ts: seq<Triangle>, reversed: bool, dict: map<int, int>)
    ensures |Corners(ts, reversed, dict)| == 3 * |ts|
    ensures forall j {:trigger ts[j]} :: 0 <= j < |ts| ==>
      var c := Corners(ts, reversed, dict); var t := Corner(ts[j], reversed, dict);
      c[3 * j] == t[0] && c[3 * j + 1] == t[1] && c[3 * j + 2] == t[2]
    decreases |ts|
  {
    if ts != [] {
      var init := ts[..|ts| - 1];
      CornersShape(init, reversed, dict);
      var c := Corners(ts, reversed, dict);
      var ci := Corners(init, reversed, dict);
      var last := Corner(ts[|ts| - 1], reversed, dict);
      assert c == ci + last;
      forall j | 0 <= j < |ts|
        ensures var t := Corner(ts[j], reversed, dict);
          c[3 * j] == t[0] && c[3 * j + 1] == t[1] && c[3 * j + 2] == t[2]
      {
        if j < |ts| - 1 {
          assert init[j] == ts[j];
          assert c[3 * j] == ci[3 * j] && c[3 * j + 1] == ci[3 * j + 1] && c[3 * j + 2] == ci[3 * j + 2];
        } else {
          assert c[3 * j] == last[0] && c[3 * j + 1] == last[1] && c[3 * j + 2] == last[2];
        }
      }
    }
  }

  /** Node `n` of a face with `count` nodes is welded into vertex
      `dict[n]`, which lies at `nodes[n - 1]`. */
  ghost predicate NodesAt(dict: map<int, int>, nodes: seq<Point>, verts: seq<Coord>, count: int)
    requires count <= |nodes|
  {
    forall n :: 1 <= n <= count ==> n in dict && 0 <= dict[n] && 3 * dict[n] + 2 < |verts| && VertexAt(verts, dict[n]) == nodes[n - 1]
  }

  /** Every face index of triangles on the welded nodes addresses a
      vertex. */
  lemma {:induction false} CornersAddress(ts: seq<Triangle>, reversed: bool, dict: map<int, int>, nodes: seq<Point>, verts: seq<Coord>)
    requires NodesAt(dict, nodes, verts, |nodes|)
    requires forall j :: 0 <= j < |ts| ==> OnNodes(ts[j], |nodes|)
    ensures forall i :: 0 <= i < |Corners(ts, reversed, dict)| ==>
      0 <= Corners(ts, reversed, dict)[i] && 3 * Corners(ts, reversed, dict)[i] + 2 < |verts|
    decreases |ts|
  {
    if ts != [] {
      var init := ts[..|ts| - 1];
      var t := ts[|ts| - 1];
      assert forall j :: 0 <= j < |init| ==> init[j] == ts[j];
      CornersAddress(init, reversed, dict, nodes, verts);
      assert OnNodes(t, |nodes|);
      assert Corners(ts, reversed, dict) == Corners(init, reversed, dict) + Corner(t, reversed, dict);
    }
  }

  /** The first and the last corner of a triangle as placed: swapped on
      a reversed face. */
  function First(t: Triangle, reversed: bool): int { if reversed then t.n3 else t.n1 }
  function Last(t: Triangle, reversed: bool): int { if reversed then t.n1 else t.n3 }

  /** Face index `v` addresses a vertex at the point of node `n`. */
  ghost predicate At(verts: seq<Coord>, v: int, nodes: seq<Point>, n: int)
  {
    0 <= v && 3 * v + 2 < |verts| && 1 <= n <= |nodes| && VertexAt(verts, v) == nodes[n - 1]
  }

  /** From position `base` on, `faces` holds the corners of the triangles
      of `f`, each at the point of its node, in the face's orientation. */
  ghost predicate TrianglesAt(faces: seq<int>, base: nat, f: Face, verts: seq<Coord>)
  {
    base + 3 * |f.triangles| <= |faces| &&
    forall j {:trigger f.triangles[j]} :: 0 <= j < |f.triangles| ==>
      At(verts, faces[base + 3 * j], f.nodes, First(f.triangles[j], f.reversed)) &&
      At(verts, faces[base + 3 * j + 1], f.nodes, f.triangles[j].n2) &&
      At(verts, faces[base + 3 * j + 2], f.nodes, Last(f.triangles[j], f.reversed))
  }

  /** Every face index addresses a stored vertex. */
  ghost predicate Addresses(faces: seq<int>, verts: seq<Coord>)
  {
    forall j :: 0 <= j < |faces| ==> 0 <= faces[j] && 3 * faces[j] + 2 < |verts|
  }

  /** With the nodes of a well-formed face welded, every face index of the
      face addresses a vertex, and the three corners of each triangle lie
      at the points of its nodes, in reverse order on a reversed face. */
  lemma CornersAtNodes(f: Face, dict: map<int, int>, verts: seq<Coord>)
    requires WellFormed(f)
    requires NodesAt(dict, f.nodes, verts, |f.nodes|)
    ensures |Corners(f.triangles, f.reversed, dict)| == 3 * |f.triangles|
    ensures Addresses(Corners(f.triangles, f.reversed, dict), verts)
    ensures TrianglesAt(Corners(f.triangles, f.reversed, dict), 0, f, verts)
  {
    CornersShape(f.triangles, f.reversed, dict);
    CornersAddress(f.triangles, f.reversed, dict, f.nodes, verts);
    var c := Corners(f.triangles, f.reversed, dict);
    forall j | 0 <= j < |f.triangles|
      ensures At(verts, c[3 * j], f.nodes, First(f.triangles[j], f.reversed))
      ensures At(verts, c[3 * j + 1], f.nodes, f.triangles[j].n2)
      ensures At(verts, c[3 * j + 2], f.nodes, Last(f.triangles[j], f.reversed))
    {
      assert OnNodes(f.triangles[j], |f.nodes|);
      CornerAt(f.triangles[j], f.reversed, dict, f.nodes, verts);
    }
  }

  /** The corners of one triangle on welded nodes lie at its nodes. */
  lemma CornerAt(t: Triangle, reversed: bool, dict: map<int, int>, nodes: seq<Point>, verts: seq<Coord>)
    requires OnNodes(t, |nodes|) && NodesAt(dict, nodes, verts, |nodes|)
    ensures var c := Corner(t, reversed, dict);
      At(verts, c[0], nodes, First(t, reversed)) && At(verts, c[1], nodes, t.n2) && At(verts, c[2], nodes, Last(t, reversed))
  {
    assert Lookup(dict, t.n1) == dict[t.n1] && Lookup(dict, t.n2) == dict[t.n2] && Lookup(dict, t.n3) == dict[t.n3];
  }

  /** Placing the corners after `pre` keeps them and their addresses. */
  lemma AppendCorners(pre: seq<int>, c: seq<int>, f: Face, verts: seq<Coord>)
    requires Addresses(pre, verts) && Addresses(c, verts) && TrianglesAt(c, 0, f, verts)
    ensures Addresses(pre + c, verts) && TrianglesAt(pre + c, |pre|, f, verts)
  {
    var r := pre + c;
    forall j | 0 <= j < |f.triangles|
      ensures r[|pre| + 3 * j] == c[3 * j] && r[|pre| + 3 * j + 1] == c[3 * j + 1] && r[|pre| + 3 * j + 2] == c[3 * j + 2]
    {
    }
    forall j | 0 <= j < |r|
      ensures 0 <= r[j] && 3 * r[j] + 2 < |verts|
    {
      if j >= |pre| {
        assert r[j] == c[j - |pre|];
      }
    }
  }

  /** Placing the corners after `pre` keeps them. */
  lemma TrianglesShift(pre: seq<int>, c: seq<int>, f: Face, verts: seq<Coord>)
    requires TrianglesAt(c, 0, f, verts)
    ensures TrianglesAt(pre + c, |pre|, f, verts)
  {
    var r := pre + c;
    forall j | 0 <= j < |f.triangles|
      ensures r[|pre| + 3 * j] == c[3 * j] && r[|pre| + 3 * j + 1] == c[3 * j + 1] && r[|pre| + 3 * j + 2] == c[3 * j + 2]
    {
    }
  }

  /** A grown vertex buffer keeps every face index valid. */
  lemma AddressesGrow(faces: seq<int>, a: seq<Coord>, b: seq<Coord>)
    requires Addresses(faces, a) && |a| <= |b|
    ensures Addresses(faces, b)
  {
  }

  /** Appending one triangle and its material id keeps the tables in
      step. */
  lemma TablesStep(faces: seq<int>, ids: seq<int>, ms: seq<Style>, corner: seq<int>, sid: int)
    requires TablesValid(faces, ids, ms) && |corner| == 3 && -1 <= sid < |ms|
    ensures TablesValid(faces + corner, ids + [sid], ms)
  {
  }

  /** `sid` once per triangle. */
  function Repeat(sid: int, n: nat): (r: seq<int>)
    ensures |r| == n && forall j :: 0 <= j < n ==> r[j] == sid
  {
    seq(n, _ => sid)
  }

  /** The number of triangles of the faces that have a triangulation. */
  function TriangleCount(fs: seq<Face>): nat
  {
    if fs == [] then 0
    else TriangleCount(fs[..|fs| - 1]) + (if fs[|fs| - 1].triangulated then |fs[|fs| - 1].triangles| else 0)
  }

  lemma TriangleCountStep(fs: seq<Face>, k: nat)
    requires k < |fs|
    ensures TriangleCount(fs[..k + 1]) == TriangleCount(fs[..k]) + (if fs[k].triangulated then |fs[k].triangles| else 0)
  {
    assert fs[..k + 1][..k] == fs[..k];
  }

  // ---- the triangulation --------------------------------------------------------------

  /** With welding, one vertex per distinct key, each at its key's point;
      without, no key at all. */
  ghost predicate VertsValid(weld: bool, welds: map<VertKey, int>, verts: seq<Coord>)
  {
    |verts| % 3 == 0 &&
    (weld ==> |verts| == 3 * |welds| && WeldsAt(welds, verts) && Injective(welds)) &&
    (!weld ==> welds == map[])
  }

  /** Three face indices per material id, no style twice, and every
      material id is -1 or names a material. */
  ghost predicate TablesValid(faces: seq<int>, materialIds: seq<int>, materials: seq<Style>)
  {
    |faces| == 3 * |materialIds| &&
    NoDuplicates(materials) &&
    (forall j :: 0 <= j < |materialIds| ==> -1 <= materialIds[j] < |materials|)
  }

  /** A welded key addresses the vertex at its point. */
  lemma WeldFound(welds: map<VertKey, int>, verts: seq<Coord>, key: VertKey)
    requires VertsValid(true, welds, verts) && key in welds
    ensures 0 <= welds[key] && 3 * welds[key] + 2 < |verts| && VertexAt(verts, welds[key]) == key.p
  {
  }

  /** A new key welded to the next index, with its point stored. */
  lemma WeldNew(welds: map<VertKey, int>, verts: seq<Coord>, key: VertKey)
    requires VertsValid(true, welds, verts) && key !in welds
    ensures var verts' := verts + [key.p.x, key.p.y, key.p.z];
      VertsValid(true, welds[key := |welds|], verts') && 3 * |welds| + 2 < |verts'| && VertexAt(verts', |welds|) == key.p
  {
    var verts' := verts + [key.p.x, key.p.y, key.p.z];
    var welds' := welds[key := |welds|];
    forall k | k in welds'
      ensures 0 <= welds'[k] && 3 * welds'[k] + 2 < |verts'| && VertexAt(verts', welds'[k]) == k.p
    {
      if k != key {
        VertexAtPrefix(verts, verts', welds[k]);
      }
    }
  }

  /** Without welding the point is stored as the next vertex. */
  lemma Unwelded(verts: seq<Coord>, p: Point)
    requires VertsValid(false, map[], verts)
    ensures var verts' := verts + [p.x, p.y, p.z];
      VertsValid(false, map[], verts') && 3 * (|verts| / 3) + 2 < |verts'| && VertexAt(verts', |verts| / 3) == p
  {
  }


  /** `IfcRepresentationTriangulation`. `weld` is `weld_vertices` while it
      is built. Edges and vertex normals are computed from the surface
      geometry and are not part of this model. */
  class Triangulation {
    const id: int
    const weld: bool
    var welds: map<VertKey, int>
    var verts: seq<Coord>
    var faces: seq<int>
    var materialIds: seq<int>
    var materials: seq<Style>

    /** The tables agree: with welding, one vertex per distinct key;
        without, no key at all; three face indices per material id; no
        style twice; every material id is -1 or names a material. */
    ghost predicate Valid()
      reads this
    {
      VertsValid(weld, welds, verts) && TablesValid(faces, materialIds, materials)
    }

    /** Every face index addresses a stored vertex. */
    ghost predicate FacesAddress()
      reads this
    {
      Addresses(faces, verts)
    }

    /** The constructor: each shape item in turn. */
    constructor (id: int, weld: bool, items: seq<ShapeItem>)
      ensures this.id == id && this.weld == weld
      ensures Valid()
      ensures ItemsWellFormed(items) ==> FacesAddress()
    {
      this.id := id;
      this.weld := weld;
      welds := map[];
      verts := [];
      faces := [];
      materialIds := [];
      materials := [];
      new;
      var i := 0;
      while i < |items|
        invariant 0 <= i <= |items|
        invariant Valid()
        invariant ItemsWellFormed(items) ==> FacesAddress()
        invariant this.id == id && this.weld == weld
      {
        AddItem(items[i]);
        i := i + 1;
      }
    }

    /** `addvert(material_index, p)`: the vertex index of `p`. With welding
        a key seen before gives its stored index and stores nothing; a new
        key gets the next index, the number of keys so far. Without
        welding the index is the vertex count and the point is always
        stored. Either way the index addresses a vertex at `p`. */
    method AddVert(material: int, p: Point) returns (i: int)
      requires Valid()
      modifies this
      ensures Valid()
      ensures 0 <= i && 3 * i + 2 < |verts| && VertexAt(verts, i) == p
      ensures weld && VertKey(material, p) in old(welds) ==>
        i == old(welds)[VertKey(material, p)] && welds == old(welds) && verts == old(verts)
      ensures weld && VertKey(material, p) !in old(welds) ==>
        i == |old(welds)| && welds == old(welds)[VertKey(material, p) := i] && verts == old(verts) + [p.x, p.y, p.z]
      ensures !weld ==> i == |old(verts)| / 3 && welds == old(welds) && verts == old(verts) + [p.x, p.y, p.z]
      ensures old(verts) <= verts
      ensures faces == old(faces) && materialIds == old(materialIds) && materials == old(materials)
    {
      var key := VertKey(material, p);
      i := |verts| / 3;
      if weld {
        if key in welds {
          WeldFound(welds, verts, key);
          return welds[key];
        }
        WeldNew(welds, verts, key);
        i := |welds|;
        welds := welds[key := i];
      } else {
        Unwelded(verts, p);
      }
      verts := verts + [p.x, p.y, p.z];
    }

    /** Lines 120-130: the style id of a shape item, recording its style
        in `_materials` when it is new. */
    method StyleIndex(style: Option<Style>) returns (sid: int)
      requires Valid()
      modifies this
      ensures Valid()
      ensures sid == StyleId(old(materials), style) && materials == WithStyle(old(materials), style)
      ensures welds == old(welds) && verts == old(verts) && faces == old(faces) && materialIds == old(materialIds)
    {
      StyleIdMeaning(materials, style);
      sid := -1;
      if style.Some? {
        var j := Find(materials, style.value);
        if j == |materials| {
          sid := |materials|;
          materials := materials + [style.value];
        } else {
          sid := j;
        }
      }
    }

    /** Lines 170-173: each node of a triangulated face is added as a
        vertex; `dict[n]` is the vertex of node `n`. */
    method AddNodes(nodes: seq<Point>, sid: int) returns (dict: map<int, int>)
      requires Valid()
      modifies this
      ensures Valid() && old(verts) <= verts
      ensures forall n :: 1 <= n <= |nodes| <==> n in dict
      ensures forall n :: 1 <= n <= |nodes| ==> 0 <= dict[n] && 3 * dict[n] + 2 < |verts| && VertexAt(verts, dict[n]) == nodes[n - 1]
      ensures faces == old(faces) && materialIds == old(materialIds) && materials == old(materials)
    {
      dict := map[];
      var i := 1;
      while i <= |nodes|
        invariant 1 <= i <= |nodes| + 1
        invariant Valid() && old(verts) <= verts
        invariant forall n :: 1 <= n < i <==> n in dict
        invariant forall n :: 1 <= n < i ==> 0 <= dict[n] && 3 * dict[n] + 2 < |verts| && VertexAt(verts, dict[n]) == nodes[n - 1]
        invariant faces == old(faces) && materialIds == old(materialIds) && materials == old(materials)
      {
        ghost var before := verts;
        var v := AddVert(sid, nodes[i - 1]);
        forall n | 1 <= n < i
          ensures VertexAt(verts, dict[n]) == nodes[n - 1]
        {
          VertexAtPrefix(before, verts, dict[n]);
        }
        dict := dict[i := v];
        i := i + 1;
      }
    }

    /** Lines 191-216: three face indices and one material id per
        triangle. */
    method AddTriangles(ts: seq<Triangle>, reversed: bool, dict: map<int, int>, sid: int)
      requires Valid() && -1 <= sid < |materials|
      modifies this
      ensures Valid()
      ensures faces == old(faces) + Corners(ts, reversed, dict)
      ensures materialIds == old(materialIds) + Repeat(sid, |ts|)
      ensures welds == old(welds) && verts == old(verts) && materials == old(materials)
    {
      var k := 0;
      while k < |ts|
        invariant 0 <= k <= |ts|
        invariant Valid()
        invariant faces == old(faces) + Corners(ts[..k], reversed, dict)
        invariant materialIds == old(materialIds) + Repeat(sid, k)
        invariant welds == old(welds) && verts == old(verts) && materials == old(materials)
      {
        var t := ts[k];
        var n1, n2, n3 := t.n1, t.n2, t.n3;
        if reversed {
          n1, n3 := t.n3, t.n1;
        }
        assert ts[..k + 1][..k] == ts[..k] && ts[..k + 1][k] == t;
        assert Corners(ts[..k + 1], reversed, dict) == Corners(ts[..k], reversed, dict) + Corner(t, reversed, dict);
        TablesStep(faces, materialIds, materials, [Lookup(dict, n1), Lookup(dict, n2), Lookup(dict, n3)], sid);
        faces := faces + [Lookup(dict, n1), Lookup(dict, n2), Lookup(dict, n3)];
        materialIds := materialIds + [sid];
        assert Repeat(sid, k + 1) == Repeat(sid, k) + [sid];
        k := k + 1;
      }
      assert ts[..k] == ts;
    }

    /** One triangulated face: its nodes, then its triangles. The face's
        material ids all carry `sid`, and on a well-formed face the new
        face indices are its triangles' corners, each at the point of its
        node. */
    method AddFace(f: Face, sid: int)
      requires Valid() && -1 <= sid < |materials|
      modifies this
      ensures Valid() && old(verts) <= verts && old(faces) <= faces && materials == old(materials)
      ensures !f.triangulated ==> welds == old(welds) && verts == old(verts) && faces == old(faces) && materialIds == old(materialIds)
      ensures f.triangulated ==> materialIds == old(materialIds) + Repeat(sid, |f.triangles|)
      ensures f.triangulated ==> |faces| == |old(faces)| + 3 * |f.triangles|
      ensures f.triangulated && WellFormed(f) ==> TrianglesAt(faces, |old(faces)|, f, verts)
      ensures old(FacesAddress()) && (f.triangulated ==> WellFormed(f)) ==> FacesAddress()
    {
      if f.triangulated {
        ghost var faces0 := faces;
        ghost var verts0 := verts;
        var dict := AddNodes(f.nodes, sid);
        AddTriangles(f.triangles, f.reversed, dict, sid);
        CornersShape(f.triangles, f.reversed, dict);
        if WellFormed(f) {
          CornersAtNodes(f, dict, verts);
          if Addresses(faces0, verts0) {
            AddressesGrow(faces0, verts0, verts);
          }
          if Addresses(faces0, verts) {
            AppendCorners(faces0, Corners(f.triangles, f.reversed, dict), f, verts);
          } else {
            TrianglesShift(faces0, Corners(f.triangles, f.reversed, dict), f, verts);
          }
        }
      }
    }

    /** One shape item of the constructor loop: its style is recorded
        first, even when meshing then fails and the item is skipped; then
        each face with a triangulation, with the item's style id. */
    method AddItem(item: ShapeItem)
      requires Valid()
      modifies this
      ensures Valid()
      ensures materials == WithStyle(old(materials), item.style)
      ensures |faces| == 3 * |materialIds| && old(faces) <= faces && old(materialIds) <= materialIds
      ensures forall j :: |old(materialIds)| <= j < |materialIds| ==> materialIds[j] == StyleId(old(materials), item.style)
      ensures !item.meshed ==> faces == old(faces) && materialIds == old(materialIds) && verts == old(verts)
      ensures item.meshed ==> |materialIds| == |old(materialIds)| + TriangleCount(item.faces)
      ensures old(FacesAddress()) && (forall j :: 0 <= j < |item.faces| ==> WellFormed(item.faces[j])) ==> FacesAddress()
    {
      var sid := StyleIndex(item.style);
      StyleIdMeaning(old(materials), item.style);
      if !item.meshed {
        return;
      }
      var k := 0;
      while k < |item.faces|
        invariant 0 <= k <= |item.faces|
        invariant Valid() && materials == WithStyle(old(materials), item.style)
        invariant old(faces) <= faces && old(materialIds) <= materialIds
        invariant forall j :: |old(materialIds)| <= j < |materialIds| ==> materialIds[j] == sid
        invariant |materialIds| == |old(materialIds)| + TriangleCount(item.faces[..k])
        invariant old(FacesAddress()) && (forall j :: 0 <= j < |item.faces| ==> WellFormed(item.faces[j])) ==> FacesAddress()
      {
        AddFace(item.faces[k], sid);
        TriangleCountStep(item.faces, k);
        k := k + 1;
      }
      assert item.faces[..k] == item.faces;
    }
  }

  // ---- the representation filter ----------------------------------------------------------

  /** An `IfcShapeRepresentation`: its optional identifier and type. */
  datatype ShapeRep = ShapeRep(identifier: Option<string>, repType: Option<string>)

  /** Lines 361-371: whether a representation's products are processed. */
  function Processed(r: ShapeRep): (b: bool)
    ensures b <==>
      r.identifier.None? || r.identifier.value == "Body" || r.identifier.value == "Facetation" ||
      (r.identifier.value == "IAI" && r.repType.Some? && r.repType.value != "BoundingBox")
  {
    if r.identifier.None? then true
    else if r.repType.Some? && r.identifier.value == "IAI" && r.repType.value != "BoundingBox" then true
    else !(r.identifier.value != "Body" && r.identifier.value != "Facetation")
  }

  /** An `IAI` representation without a type, or of type `BoundingBox`,
      is skipped; `Body` is processed whatever its type. */
  lemma ProcessedExamples()
    ensures !Processed(ShapeRep(Some("IAI"), None))
    ensures !Processed(ShapeRep(Some("IAI"), Some("BoundingBox")))
    ensures Processed(ShapeRep(Some("IAI"), Some("Brep")))
    ensures Processed(ShapeRep(Some("Body"), Some("BoundingBox")))
    ensures !Processed(ShapeRep(Some("Axis"), Some("Curve2D")))
  {
    assert "IAI" != "Body" && "IAI" != "Facetation";
    assert "Axis" != "Body" && "Axis" != "Facetation" && "Axis" != "IAI";
    assert "Brep" != "BoundingBox";
  }

  // ---- settings -------------------------------------------------------------------------

  /** The selectors `Settings` knows; `Unlisted` is any other value, which
      the switch ignores. */
  datatype Setting =
    | UseWorldCoords | WeldVertices | ConvertBackUnits | UseBrepData | FasterBooleans
    | SewShells | ForceCcwFaceOrientation | DisableOpeningSubtractions | DisableTriangulation
    | Unlisted(code: int)

  /** The static flags, and the two `IfcGeom` values `Settings` writes. */
  datatype Flags = Flags(
    useWorldCoords: bool, weldVertices: bool, convertBackUnits: bool, useBrepData: bool,
    useFasterBooleans: bool, maxFacesToSew: int, forceCcwFaceOrientation: int,
    disableSubtractions: bool, disableTriangulation: bool)

  /** The initial values of the static flags (lines 52-57, 77-78); the
      two `IfcGeom` values start as `IfcGeom` sets them. */
  function Initial(sew: int, ccw: int): (f: Flags)
    ensures f.weldVertices && !f.useWorldCoords && !f.convertBackUnits && !f.useBrepData
    ensures !f.useFasterBooleans && !f.disableSubtractions && !f.disableTriangulation
    ensures f.maxFacesToSew == sew && f.forceCcwFaceOrientation == ccw
  {
    Flags(false, true, false, false, false, sew, ccw, false, false)
  }

  function Bit(b: bool): int { if b then 1 else 0 }

  /** What a reader of setting `s` sees: 1 or 0 for a flag, the stored
      value for the two `IfcGeom` values, 0 for an unlisted selector. */
  function Read(f: Flags, s: Setting): int
  {
    match s
    case UseWorldCoords => Bit(f.useWorldCoords)
    case WeldVertices => Bit(f.weldVertices)
    case ConvertBackUnits => Bit(f.convertBackUnits)
    case UseBrepData => Bit(f.useBrepData)
    case FasterBooleans => Bit(f.useFasterBooleans)
    case SewShells => f.maxFacesToSew
    case ForceCcwFaceOrientation => f.forceCcwFaceOrientation
    case DisableOpeningSubtractions => Bit(f.disableSubtractions)
    case DisableTriangulation => Bit(f.disableTriangulation)
    case Unlisted(_) => 0
  }

  /** What `Settings(s, v)` stores for `s`. */
  function Written(s: Setting, v: bool): int
  {
    match s
    case SewShells => if v then 1000 else -1
    case ForceCcwFaceOrientation => if v then 1 else -1
    case Unlisted(_) => 0
    case _ => Bit(v)
  }

  /** `Settings(setting, value)`: the selected setting reads the written
      value and every other setting reads as before; an unlisted selector
      changes nothing. */
  function Set(f: Flags, s: Setting, v: bool): (r: Flags)
    ensures Read(r, s) == Written(s, v)
    ensures s.Unlisted? ==> r == f
  {
    match s
    case UseWorldCoords => f.(useWorldCoords := v)
    case WeldVertices => f.(weldVertices := v)
    case ConvertBackUnits => f.(convertBackUnits := v)
    case UseBrepData => f.(useBrepData := v)
    case FasterBooleans => f.(useFasterBooleans := v)
    case SewShells => f.(maxFacesToSew := if v then 1000 else -1)
    case ForceCcwFaceOrientation => f.(forceCcwFaceOrientation := if v then 1 else -1)
    case DisableOpeningSubtractions => f.(disableSubtractions := v)
    case DisableTriangulation => f.(disableTriangulation := v)
    case Unlisted(_) => f
  }

  /** `Settings(s, v)` changes only the selected setting: every other
      setting reads as before. */
  lemma SetKeepsOthers(f: Flags, s: Setting, t: Setting, v: bool)
    requires t != s
    ensures Read(Set(f, s, v), t) == Read(f, t)
  {
  }

  /** Setting a value twice is setting it once. */
  lemma SetIdempotent(f: Flags, s: Setting, v: bool)
    ensures Set(Set(f, s, v), s, v) == Set(f, s, v)
  {
  }

  // ---- the iterator's static state ----------------------------------------------------------

  /** `IfcObject`: the fields copied from a product. */
  datatype IfcObject = IfcObject(id: int, parentId: int, name: string, typeName: string, guid: string)

  /** The object `GetObject` returns when the lookup fails. */
  const Sentinel := IfcObject(-1, -1, "", "", "")

  /** What `GetObject` finds for an id: the product's id, its name if it
      has one, its type name and its global id. */
  datatype Product = Product(id: int, name: Option<string>, typeName: string, guid: string)

  /** The static state of IfcGeomObjects.cpp: the flags, the current
      objects (by address; `None` is null) and the objects `GetObject` has
      returned. */
  class Iterator {
    var flags: Flags
    var currentGeomObj: Option<nat>
    var currentBrepDataObj: Option<nat>
    var returnedObjects: seq<IfcObject>

    constructor (sew: int, ccw: int)
      ensures flags == Initial(sew, ccw)
      ensures currentGeomObj.None? && currentBrepDataObj.None? && returnedObjects == []
    {
      flags := Initial(sew, ccw);
      currentGeomObj := None;
      currentBrepDataObj := None;
      returnedObjects := [];
    }

    /** `Settings(setting, value)`. */
    method Settings(s: Setting, v: bool)
      modifies this
      ensures flags == Set(old(flags), s, v)
      ensures currentGeomObj == old(currentGeomObj) && currentBrepDataObj == old(currentBrepDataObj)
      ensures returnedObjects == old(returnedObjects)
    {
      flags := Set(flags, s, v);
    }

    /** `Get()`: refused while triangulation is disabled. */
    function Get(): (r: Result<Option<nat>>)
      reads this
      ensures r.Failure? <==> flags.disableTriangulation
      ensures r.Failure? ==> r.error == "No triangulation available"
      ensures r.Success? ==> r.value == currentGeomObj
    {
      if flags.disableTriangulation then Failure("No triangulation available") else Success(currentGeomObj)
    }

    /** `GetBrepData()`: refused unless BRep data is enabled. */
    function GetBrepData(): (r: Result<Option<nat>>)
      reads this
      ensures r.Failure? <==> !flags.useBrepData
      ensures r.Failure? ==> r.error == "No BRep data available"
      ensures r.Success? ==> r.value == currentBrepDataObj
    {
      if !flags.useBrepData then Failure("No BRep data available") else Success(currentBrepDataObj)
    }

    /** `GetObject(id)`: `found` is the product `EntityById(id)` yields, or
        `None` when the lookup throws or the entity is no product; `parent`
        is what `_getParentId` yields, `None` when it throws. The object
        returned is also kept in `returned_objects`. */
    method GetObject(id: int, found: Option<Product>, parent: Option<int>) returns (r: IfcObject)
      modifies this
      ensures found.None? ==> r == Sentinel
      ensures found.Some? ==>
        r.id == found.value.id && r.typeName == found.value.typeName && r.guid == found.value.guid &&
        r.name == (if found.value.name.Some? then found.value.name.value else "") &&
        r.parentId == (if parent.Some? then parent.value else -1)
      ensures returnedObjects == old(returnedObjects) + [r]
      ensures flags == old(flags) && currentGeomObj == old(currentGeomObj) && currentBrepDataObj == old(currentBrepDataObj)
    {
      r := Sentinel;
      if found.Some? {
        var p := found.value;
        var parentId := if parent.Some? then parent.value else -1;
        var name := if p.name.Some? then p.name.value else "";
        r := IfcObject(p.id, parentId, name, p.typeName, p.guid);
      }
      returnedObjects := returnedObjects + [r];
    }
  }

  /** At start-up triangulated output is available and BRep data is not. */
  lemma InitialGuards(it: Iterator, sew: int, ccw: int)
    requires it.flags == Initial(sew, ccw)
    ensures it.Get() == Success(it.currentGeomObj)
    ensures it.GetBrepData() == Failure("No BRep data available")
  {
  }

  /** After `Settings(s, v)` on flags `f`, `Get` is refused exactly when
      `DISABLE_TRIANGULATION` was set to true and `GetBrepData` exactly when
      `USE_BREP_DATA` was set to false; any other setting leaves both guards
      as they were under `f`. */
  lemma GuardsFollowSettings(it: Iterator, f: Flags, s: Setting, v: bool)
    requires it.flags == Set(f, s, v)
    ensures s == DisableTriangulation ==> (it.Get().Failure? <==> v)
    ensures s != DisableTriangulation ==> (it.Get().Failure? <==> f.disableTriangulation)
    ensures s == UseBrepData ==> (it.GetBrepData().Failure? <==> !v)
    ensures s != UseBrepData ==> (it.GetBrepData().Failure? <==> !f.useBrepData)
  {
  }
}
