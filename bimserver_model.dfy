/** The BIMserver engine model (IfcOpenShellModel.java): the triangulated
    objects the native layer yields one at a time are appended into one
    index, vertex and normal buffer; each object's indices are rebased onto
    the combined vertex buffer, and the object is recorded as an instance
    (its first vertex float, its first index and its triangle count) by
    upper-cased type and by id. Coordinates are opaque values; the native
    calls are inputs. */
module BimserverModel {
  import opened Wrappers
  import opened Strings

  /** A coordinate: only copied, never computed with. */
  type Coord = real

  /** `IfcGeomObject`: the fields the model reads. */
  datatype GeomObject = GeomObject(id: int, typeName: string, indices: seq<int>, vertices: seq<Coord>, normals: seq<Coord>)

  /** `IfcOpenShellEntityInstance(start_vertex, start_index, fcount)`. */
  datatype Instance = Instance(startVertex: nat, startIndex: nat, primitiveCount: nat)

  /** `concatFloatArray` / `concatIntArray`: null `a` gives `b` itself;
      otherwise a new array of `a` followed by `b`. */
  function Concat<T>(a: Option<seq<T>>, b: seq<T>): (r: seq<T>)
    ensures a.None? ==> r == b
    ensures a.Some? ==> |r| == |a.value| + |b| && r[..|a.value|] == a.value && r[|a.value|..] == b
  {
    if a.None? then b else a.value + b
  }

  /** `x == null ? 0 : x.length`. */
  function Length<T>(a: Option<seq<T>>): nat
  {
    if a.None? then 0 else |a.value|
  }

  /** A concatenation is as long as both parts together. */
  lemma ConcatLength<T>(a: Option<seq<T>>, b: seq<T>)
    ensures |Concat(a, b)| == Length(a) + |b|
    ensures forall i :: 0 <= i < |b| ==> Concat(a, b)[Length(a) + i] == b[i]
    ensures forall i :: 0 <= i < Length(a) ==> Concat(a, b)[i] == a.value[i]
  {
  }

  /** The indices `xs`, each raised by `d`. */
  function Shifted(xs: seq<int>, d: int): (r: seq<int>)
    ensures |r| == |xs|
    ensures forall i :: 0 <= i < |xs| ==> r[i] == xs[i] + d
  {
    seq(|xs|, i requires 0 <= i < |xs| => xs[i] + d)
  }

  /** The in-place loop `obj.indices[i] += start_vertex / 3`. */
  method Shift(a: array<int>, d: int)
    modifies a
    ensures a[..] == Shifted(old(a[..]), d)
  {
    var i := 0;
    while i < a.Length
      invariant 0 <= i <= a.Length
      invariant forall j :: 0 <= j < i ==> a[j] == old(a[j]) + d
      invariant forall j :: i <= j < a.Length ==> a[j] == old(a[j])
    {
      a[i] := a[i] + d;
      i := i + 1;
    }
  }

  /** What `finalizeModelling` has accumulated: the three buffers (null
      before the first object) and the two instance tables. */
  datatype Acc = Acc(
    indices: Option<seq<int>>, vertices: Option<seq<Coord>>, normals: Option<seq<Coord>>,
    instances: map<string, seq<Instance>>, byid: map<int, Instance>)

  const Empty := Acc(None, None, None, map[], map[])

  function Entries(m: map<string, seq<Instance>>, k: string): seq<Instance>
  {
    if k in m then m[k] else []
  }

  /** One round of the loop for object `o`. */
  function Add(st: Acc, o: GeomObject): (r: Acc)
  {
    var startVertex := Length(st.vertices);
    var startIndex := Length(st.indices);
    var inst := Instance(startVertex, startIndex, |o.indices| / 3);
    var t := Upper(o.typeName);
    Acc(Some(Concat(st.indices, Shifted(o.indices, startVertex / 3))),
        Some(Concat(st.vertices, o.vertices)),
        Some(Concat(st.normals, o.normals)),
        st.instances[t := Entries(st.instances, t) + [inst]],
        st.byid[o.id := inst])
  }

  /** The loop over what `getGeometry()` yields, up to the first null (the
      end of `objs` also reads as null). */
  function Accumulate(objs: seq<Option<GeomObject>>, st: Acc): Acc
    decreases |objs|
  {
    if objs == [] || objs[0].None? then st else Accumulate(objs[1..], Add(st, objs[0].value))
  }

  /** The objects before the first null. */
  function UpToNull(objs: seq<Option<GeomObject>>): seq<Option<GeomObject>>
    decreases |objs|
  {
    if objs == [] || objs[0].None? then [] else [objs[0]] + UpToNull(objs[1..])
  }

  /** Nothing after the first null is read. */
  lemma {:induction false} StopsAtFirstNull(objs: seq<Option<GeomObject>>, rest: seq<Option<GeomObject>>, st: Acc)
    ensures Accumulate(objs, st) == Accumulate(UpToNull(objs), st)
    ensures Accumulate(UpToNull(objs) + [None] + rest, st) == Accumulate(objs, st)
    decreases |objs|
  {
    if objs != [] && objs[0].Some? {
      StopsAtFirstNull(objs[1..], rest, Add(st, objs[0].value));
      assert ([objs[0]] + UpToNull(objs[1..]))[1..] == UpToNull(objs[1..]);
      assert (UpToNull(objs) + [None] + rest)[1..] == UpToNull(objs[1..]) + [None] + rest;
    }
  }

  // ---- the combined buffers address the right vertices ---------------------------------

  /** An object whose indices address its own vertex triples. */
  predicate Addressed(o: GeomObject)
  {
    |o.vertices| % 3 == 0 && forall i :: 0 <= i < |o.indices| ==> 0 <= o.indices[i] < |o.vertices| / 3
  }

  /** Whole vertex triples, and every index addressing one of them. */
  predicate Combined(st: Acc)
  {
    Length(st.vertices) % 3 == 0 &&
    (st.indices.Some? ==> forall i :: 0 <= i < |st.indices.value| ==> 0 <= st.indices.value[i] < Length(st.vertices) / 3)
  }

  /** Whole triples before `b` floats leave the triple count additive. */
  lemma TriplesAdd(a: nat, b: nat)
    requires a % 3 == 0
    ensures (a + b) / 3 == a / 3 + b / 3 && (a + b) % 3 == b % 3
  {
    var q := a / 3;
    assert a == 3 * q;
  }

  /** The instance of object `o` added to `st`: its indices sit at
      `startIndex`, raised by the vertex triples before it, and its
      vertices at `startVertex`; so each of its indices, in the combined
      buffers, addresses the same vertex as in the object. */
  lemma AddRecords(st: Acc, o: GeomObject)
    ensures var r := Add(st, o); var inst := r.byid[o.id];
      inst.startVertex == Length(st.vertices) && inst.startIndex == Length(st.indices) &&
      inst.primitiveCount == |o.indices| / 3 &&
      |r.indices.value| == inst.startIndex + |o.indices| && |r.vertices.value| == inst.startVertex + |o.vertices| &&
      (forall i :: 0 <= i < |o.indices| ==>
        r.indices.value[inst.startIndex + i] == o.indices[i] + inst.startVertex / 3) &&
      (forall i :: 0 <= i < |o.vertices| ==> r.vertices.value[inst.startVertex + i] == o.vertices[i])
  {
    ConcatLength(st.indices, Shifted(o.indices, Length(st.vertices) / 3));
    ConcatLength(st.vertices, o.vertices);
  }

  /** The vertex triples after adding `o` are those before and those of
      `o`. */
  lemma AddTriples(st: Acc, o: GeomObject)
    requires Combined(st) && Addressed(o)
    ensures Length(Add(st, o).vertices) % 3 == 0
    ensures Length(Add(st, o).vertices) / 3 == Length(st.vertices) / 3 + |o.vertices| / 3
  {
    ConcatLength(st.vertices, o.vertices);
    TriplesAdd(Length(st.vertices), |o.vertices|);
  }

  /** Indices below `m` raised by `d`, placed after indices below `d`,
      give indices below `d + m`. */
  lemma ShiftedAddress(pre: Option<seq<int>>, xs: seq<int>, d: int, m: int)
    requires d >= 0 && m >= 0
    requires pre.Some? ==> forall i :: 0 <= i < |pre.value| ==> 0 <= pre.value[i] < d
    requires forall k :: 0 <= k < |xs| ==> 0 <= xs[k] < m
    ensures forall i :: 0 <= i < |Concat(pre, Shifted(xs, d))| ==> 0 <= Concat(pre, Shifted(xs, d))[i] < d + m
  {
    var c := Concat(pre, Shifted(xs, d));
    ConcatLength(pre, Shifted(xs, d));
    forall i | 0 <= i < |c|
      ensures 0 <= c[i] < d + m
    {
      if i >= Length(pre) {
        assert c[Length(pre) + (i - Length(pre))] == Shifted(xs, d)[i - Length(pre)];
      } else {
        assert c[i] == pre.value[i];
      }
    }
  }

  /** Adding an object whose indices address its own vertices keeps every
      index of the combined buffer on one of its vertices. */
  lemma AddAddresses(st: Acc, o: GeomObject)
    requires Combined(st) && Addressed(o)
    ensures Combined(Add(st, o))
  {
    var r := Add(st, o);
    var d := Length(st.vertices) / 3;
    AddTriples(st, o);
    assert r.indices == Some(Concat(st.indices, Shifted(o.indices, d)));
    ShiftedAddress(st.indices, o.indices, d, |o.vertices| / 3);
  }

  /** The whole loop keeps every index on a vertex of the combined buffer. */
  lemma {:induction false} AccumulateAddresses(objs: seq<Option<GeomObject>>, st: Acc)
    requires Combined(st)
    requires forall k :: 0 <= k < |objs| && objs[k].Some? ==> Addressed(objs[k].value)
    ensures Combined(Accumulate(objs, st))
    decreases |objs|
  {
    if objs != [] && objs[0].Some? {
      AddAddresses(st, objs[0].value);
      forall k | 0 <= k < |objs[1..]| && objs[1..][k].Some?
        ensures Addressed(objs[1..][k].value)
      {
        assert objs[1..][k] == objs[k + 1];
      }
      AccumulateAddresses(objs[1..], Add(st, objs[0].value));
    }
  }

  /** An instance is filed at the end of the list of its upper-cased type,
      the other lists stay as they were, and by id it replaces any earlier
      instance of the same id. */
  lemma AddFiles(st: Acc, o: GeomObject, t: string)
    ensures var r := Add(st, o);
      Entries(r.instances, t) ==
        Entries(st.instances, t) + (if t == Upper(o.typeName) then [r.byid[o.id]] else []) &&
      r.byid.Keys == st.byid.Keys + {o.id} &&
      (forall k :: k in st.byid && k != o.id ==> r.byid[k] == st.byid[k])
  {
    var r := Add(st, o);
    if t != Upper(o.typeName) {
      assert Entries(st.instances, t) + [] == Entries(st.instances, t);
    }
  }

  // ---- the model object -------------------------------------------------------------------

  /** `IfcOpenShellModel`. `instances` and `instancesById` are null until
      the first `finalizeModelling`. */
  class Model {
    var validModel: bool
    var instances: Option<map<string, seq<Instance>>>
    var instancesById: Option<map<int, Instance>>

    /** The constructor after the library is loaded and its version
        checked: `accepted` is what `setIfcData(input)` returns. */
    constructor (accepted: bool)
      ensures validModel == accepted && instances.None? && instancesById.None?
    {
      validModel := accepted;
      instances := None;
      instancesById := None;
    }

    /** `close()`. */
    method Close()
      modifies this
      ensures !validModel && instances == old(instances) && instancesById == old(instancesById)
    {
      validModel := false;
    }

    /** `finalizeModelling`: `objs` is what successive `getGeometry()`
        calls return. The result is the three buffers (null when there was
        no object). */
    method FinalizeModelling(objs: seq<Option<GeomObject>>)
      returns (r: Result<(Option<seq<int>>, Option<seq<Coord>>, Option<seq<Coord>>)>)
      modifies this
      ensures !old(validModel) ==> r == Failure("No valid model supplied") && instances == old(instances) && instancesById == old(instancesById)
      ensures old(validModel) ==>
        var acc := Accumulate(objs, Empty);
        r == Success((acc.indices, acc.vertices, acc.normals)) &&
        instances == Some(acc.instances) && instancesById == Some(acc.byid)
      ensures validModel == old(validModel)
    {
      if !validModel {
        return Failure("No valid model supplied");
      }
      var indices: Option<seq<int>> := None;
      var normals: Option<seq<Coord>> := None;
      var vertices: Option<seq<Coord>> := None;
      var byType: map<string, seq<Instance>> := map[];
      var byId: map<int, Instance> := map[];
      var k := 0;
      while true
        invariant 0 <= k <= |objs|
        invariant unchanged(this)
        invariant Accumulate(objs, Empty) == Accumulate(objs[k..], Acc(indices, vertices, normals, byType, byId))
        decreases |objs| - k
      {
        ghost var acc := Acc(indices, vertices, normals, byType, byId);
        var obj := if k < |objs| then objs[k] else None;
        if obj.None? {
          assert Accumulate(objs[k..], acc) == acc;
          break;
        }
        var o := obj.value;
        assert objs[k..][0] == obj && objs[k..][1..] == objs[k + 1..];
        k := k + 1;
        var t := Upper(o.typeName);
        var list := if t in byType then byType[t] else [];
        var startVertex := if vertices.None? then 0 else |vertices.value|;
        var startIndex := if indices.None? then 0 else |indices.value|;
        var fcount := |o.indices| / 3;
        var shifted := new int[|o.indices|](i requires 0 <= i < |o.indices| => o.indices[i]);
        assert shifted[..] == o.indices;
        Shift(shifted, startVertex / 3);
        indices := Some(Concat(indices, shifted[..]));
        vertices := Some(Concat(vertices, o.vertices));
        normals := Some(Concat(normals, o.normals));
        var instance := Instance(startVertex, startIndex, fcount);
        byType := byType[t := list + [instance]];
        byId := byId[o.id := instance];
        assert Acc(indices, vertices, normals, byType, byId) == Add(acc, o);
      }
      instances := Some(byType);
      instancesById := Some(byId);
      return Success((indices, vertices, normals));
    }

    /** `getInstances(name)`: the list under `name`, or a new empty one; a
        call before `finalizeModelling` dereferences null. */
    function GetInstances(name: string): (r: Result<seq<Instance>>)
      reads this
      ensures instances.None? ==> r.Failure?
      ensures instances.Some? ==> r == Success(Entries(instances.value, name))
    {
      match instances
      case None => Failure("NullPointerException")
      case Some(m) => Success(if name in m then m[name] else [])
    }

    /** `getInstanceFromExpressId(oid)`: the instance, or a `(0,0,0)`
        instance for an unknown id. */
    function GetInstanceFromExpressId(oid: int): (r: Result<Instance>)
      reads this
      ensures instancesById.None? ==> r.Failure?
      ensures instancesById.Some? && oid in instancesById.value ==> r == Success(instancesById.value[oid])
      ensures instancesById.Some? && oid !in instancesById.value ==> r == Success(Instance(0, 0, 0))
    {
      match instancesById
      case None => Failure("NullPointerException")
      case Some(m) => Success(if oid in m then m[oid] else Instance(0, 0, 0))
    }
  }

  /** A model that is closed refuses to finalize. */
  method CloseThenFinalize(accepted: bool, objs: seq<Option<GeomObject>>) returns (r: Result<(Option<seq<int>>, Option<seq<Coord>>, Option<seq<Coord>>)>)
    ensures r == Failure("No valid model supplied")
  {
    var m := new Model(accepted);
    m.Close();
    r := m.FinalizeModelling(objs);
  }
}
