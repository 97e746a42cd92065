/** The entity index of the STEP parser (IfcParse.cpp, `Ifc`): `Init`
    scans the token stream once, creating an entity for every `#n=` and
    recording it by id and by type, and recording under `#m` the most
    recent entity for every other `#m` it meets; the lookups and
    `Entity::getInverse` read those tables. An entity's schema type is the
    datatype name as written: the generated `Type::FromString` is not part
    of this model. */
module StepIndex {
  import opened Wrappers
  import opened StepFile
  import opened StepLexer
  import opened StepArguments
  import opened IfcUtil

  /** An `Entity`: its id, its datatype name, the position of that name in
      the file, and its argument list once loaded. */
  datatype Instance = Instance(id: nat, typeName: seq<char>, offset: nat, args: Option<seq<Argument>>)

  /** The state of the `Init` loop: the locals `token`, `previous`,
      `currentId` and `entity` (the entity created last, None before the
      first), and the three tables. */
  datatype Scan = Scan(
    token: Token, previous: Token, currentId: nat, entity: Option<Instance>,
    bytype: map<seq<char>, seq<Instance>>, byid: map<nat, Instance>, byref: map<nat, seq<Instance>>)

  /** The list under `k`; an absent key reads as a new, empty list. */
  function Entries<K>(m: map<K, seq<Instance>>, k: K): seq<Instance>
  {
    if k in m then m[k] else []
  }

  /** The type an entity is filed under: `asString` of its datatype token. */
  function TypeName(s: seq<char>, dt: Token): seq<char>
  {
    match AsString(s, dt)
    case Success(name) => name
    case Failure(_) => ""
  }

  /** `new Entity(currentId, tokens)` with datatype token `dt`, then its
      filing under its type and its id; `currentId` is cleared. */
  function Created(s: seq<char>, st: Scan, dt: Token): (r: Scan)
  {
    var e := Instance(st.currentId, TypeName(s, dt), Offset(dt), None);
    st.(currentId := 0, entity := Some(e),
        bytype := st.bytype[e.typeName := Entries(st.bytype, e.typeName) + [e]],
        byid := st.byid[st.currentId := e])
  }

  /** The rest of one round, for a non-null `token`: after an identifier,
      `=` starts an entity with its number, anything else files the last
      entity (if any) under that number; `token` becomes `previous`. */
  function Noted(s: seq<char>, st: Scan): (r: Scan)
  {
    var st1 :=
      if st.previous != NullToken && IsIdentifier(s, st.previous) then
        var id := ToU32(match AsInt(s, st.previous) case Success(n) => n case Failure(_) => 0);
        if IsOperator(st.token, '=') then st.(currentId := id)
        else st.(byref := st.byref[id := Pushed(Entries(st.byref, id), st.entity)])
      else st;
    st1.(previous := st.token)
  }

  /** The `Init` loop from cursor `p` in state `st` to its end: the state
      when the null token is read, or the exception of an entity whose
      first token is no datatype. */
  function Indexed(s: seq<char>, p: nat, st: Scan): (r: Result<Scan>)
    decreases Rank(s, p)
  {
    NextShape'(s, p);
    if st.currentId != 0 then
      var (dt, p1) := NextToken(s, p);
      if !IsDatatype(s, dt) then Failure("Unexpected token while parsing entity")
      else
        var st1 := Created(s, st, dt);
        if st1.token == NullToken then Success(st1) else Indexed(s, p1, Noted(s, st1))
    else
      var (t, p1) := NextToken(s, p);
      var st1 := st.(token := t);
      if t == NullToken then Success(st1) else Indexed(s, p1, Noted(s, st1))
  }

  /** `Init`'s result and tables given how its loop ends. */
  predicate Outcome(res: Result<Scan>, r: Result<bool>,
                    bytype: map<seq<char>, seq<Instance>>, byid: map<nat, Instance>, byref: map<nat, seq<Instance>>)
  {
    match res
    case Failure(e) => r == Failure(e)
    case Success(st) => r == Success(true) && bytype == st.bytype && byid == st.byid && byref == st.byref
  }

  /** The state `Init` starts its loop in over the given tables. */
  function Start(bytype: map<seq<char>, seq<Instance>>, byid: map<nat, Instance>, byref: map<nat, seq<Instance>>): Scan
  {
    Scan(NullToken, NullToken, 0, None, bytype, byid, byref)
  }

  // ---- what the tables hold ---------------------------------------------------------

  /** `e` is filed under its own type. */
  predicate Filed(bytype: map<seq<char>, seq<Instance>>, e: Instance)
  {
    e.typeName in bytype && e in bytype[e.typeName]
  }

  /** Every list under a type holds only entities of that type. */
  predicate TypesAgree(bytype: map<seq<char>, seq<Instance>>)
  {
    forall n :: n in bytype ==> forall e :: e in bytype[n] ==> e.typeName == n
  }

  /** Every entity by id carries that id, never 0, and is filed under its
      type. */
  predicate IdsAgree(bytype: map<seq<char>, seq<Instance>>, byid: map<nat, Instance>)
  {
    forall k :: k in byid ==> byid[k].id == k && k != 0 && Filed(bytype, byid[k])
  }

  /** Every referencing entity is a filed entity. */
  predicate RefsAgree(bytype: map<seq<char>, seq<Instance>>, byref: map<nat, seq<Instance>>)
  {
    forall k :: k in byref ==> forall e :: e in byref[k] ==> Filed(bytype, e)
  }

  /** The tables agree with each other, and the last entity created is
      filed. */
  predicate Consistent(st: Scan)
  {
    TypesAgree(st.bytype) && IdsAgree(st.bytype, st.byid) && RefsAgree(st.bytype, st.byref) &&
    (st.entity.Some? ==> Filed(st.bytype, st.entity.value))
  }

  /** Tables `b` extend tables `a`: every list only grows at its end, and
      no id disappears. */
  predicate Extends(a: Scan, b: Scan)
  {
    (forall n :: n in a.bytype ==> n in b.bytype && a.bytype[n] <= b.bytype[n]) &&
    (forall k :: k in a.byref ==> k in b.byref && a.byref[k] <= b.byref[k]) &&
    a.byid.Keys <= b.byid.Keys
  }

  /** Empty tables agree. */
  lemma StartConsistent()
    ensures Consistent(Start(map[], map[], map[]))
  {
  }

  lemma CreatedKeeps(s: seq<char>, st: Scan, dt: Token)
    requires Consistent(st) && st.currentId != 0
    ensures Consistent(Created(s, st, dt)) && Extends(st, Created(s, st, dt))
    ensures Created(s, st, dt).byid[st.currentId].typeName == TypeName(s, dt)
  {
    var r := Created(s, st, dt);
    var e := r.entity.value;
    FilingKeeps(st.bytype, e);
    assert IdsAgree(r.bytype, r.byid) by {
      forall k | k in r.byid
        ensures r.byid[k].id == k && k != 0 && Filed(r.bytype, r.byid[k])
      {
        if k != st.currentId {
          assert Filed(st.bytype, st.byid[k]);
        }
      }
    }
    assert RefsAgree(r.bytype, r.byref) by {
      forall k, x | k in r.byref && x in r.byref[k]
        ensures Filed(r.bytype, x)
      {
        assert Filed(st.bytype, x);
      }
    }
  }

  /** Filing `e` under its type keeps the types in agreement, keeps every
      filed entity filed, and only extends lists. */
  lemma FilingKeeps(bytype: map<seq<char>, seq<Instance>>, e: Instance)
    requires TypesAgree(bytype)
    ensures var b := bytype[e.typeName := Entries(bytype, e.typeName) + [e]];
      TypesAgree(b) && Filed(b, e) &&
      (forall x :: Filed(bytype, x) ==> Filed(b, x)) &&
      (forall n :: n in bytype ==> n in b && bytype[n] <= b[n])
  {
    var b := bytype[e.typeName := Entries(bytype, e.typeName) + [e]];
    forall x | Filed(bytype, x)
      ensures Filed(b, x)
    {
      if x.typeName == e.typeName {
        assert x in Entries(bytype, e.typeName);
      }
    }
  }

  lemma NotedKeeps(s: seq<char>, st: Scan)
    requires Consistent(st)
    ensures Consistent(Noted(s, st)) && Extends(st, Noted(s, st))
  {
    var r := Noted(s, st);
    if st.previous != NullToken && IsIdentifier(s, st.previous) && !IsOperator(st.token, '=') {
      var k := ToU32(AsInt(s, st.previous).value);
      ReferenceKeeps(st, k);
      assert r == st.(byref := st.byref[k := Pushed(Entries(st.byref, k), st.entity)], previous := st.token);
    }
  }

  /** Filing the last entity under `k` keeps the tables in agreement. */
  lemma ReferenceKeeps(st: Scan, k: nat)
    requires Consistent(st)
    ensures var r := st.(byref := st.byref[k := Pushed(Entries(st.byref, k), st.entity)]);
      Consistent(r) && Extends(st, r)
  {
    var l := Pushed(Entries(st.byref, k), st.entity);
    PushedShape(Entries(st.byref, k), st.entity);
    assert forall x :: x in l ==> Filed(st.bytype, x) by {
      forall x | x in l
        ensures Filed(st.bytype, x)
      {
        if x !in Entries(st.byref, k) {
          assert x == st.entity.value;
        }
      }
    }
  }

  lemma ExtendsTrans(a: Scan, b: Scan, c: Scan)
    requires Extends(a, b) && Extends(b, c)
    ensures Extends(a, c)
  {
  }

  /** `Init` keeps the tables in agreement and only adds to them. */
  lemma {:induction false} IndexedKeeps(s: seq<char>, p: nat, st: Scan)
    requires Consistent(st)
    ensures Indexed(s, p, st).Success? ==>
      Consistent(Indexed(s, p, st).value) && Extends(st, Indexed(s, p, st).value)
    decreases Rank(s, p)
  {
    NextShape'(s, p);
    if Indexed(s, p, st).Success? {
      if st.currentId != 0 {
        var (dt, p1) := NextToken(s, p);
        var st1 := Created(s, st, dt);
        CreatedKeeps(s, st, dt);
        if st1.token != NullToken {
          NotedKeeps(s, st1);
          IndexedKeeps(s, p1, Noted(s, st1));
          ExtendsTrans(st1, Noted(s, st1), Indexed(s, p1, Noted(s, st1)).value);
          ExtendsTrans(st, st1, Indexed(s, p1, Noted(s, st1)).value);
        }
      } else {
        var (t, p1) := NextToken(s, p);
        var st1 := st.(token := t);
        if t != NullToken {
          NotedKeeps(s, st1);
          IndexedKeeps(s, p1, Noted(s, st1));
          ExtendsTrans(st1, Noted(s, st1), Indexed(s, p1, Noted(s, st1)).value);
        }
      }
    }
  }

  /** An `=` after an identifier starts the entity with that number (in
      unsigned arithmetic); any other token after it files the last entity
      under the number, and nothing under it when there is none yet. */
  lemma NotedCases(s: seq<char>, st: Scan)
    requires IsIdentifier(s, st.previous)
    ensures IsOperator(st.token, '=') ==>
      Noted(s, st).currentId == ToU32(AsInt(s, st.previous).value) && Noted(s, st).byref == st.byref
    ensures !IsOperator(st.token, '=') ==>
      var k := ToU32(AsInt(s, st.previous).value);
      Noted(s, st).byref == st.byref[k := Entries(st.byref, k) + (if st.entity.Some? then [st.entity.value] else [])] &&
      Noted(s, st).currentId == st.currentId
    ensures Noted(s, st).bytype == st.bytype && Noted(s, st).byid == st.byid && Noted(s, st).previous == st.token
  {
    var k := ToU32(AsInt(s, st.previous).value);
    assert Entries(st.byref, k) + [] == Entries(st.byref, k);
  }

  /** A token after anything but an identifier changes no table. */
  lemma NotedPlain(s: seq<char>, st: Scan)
    requires !IsIdentifier(s, st.previous)
    ensures Noted(s, st) == st.(previous := st.token)
  {
  }

  // ---- the tables as a class ------------------------------------------------------------

  /** The static state of `Ifc`. */
  class Ifc {
    var file: File?
    var tokens: Tokens?
    var bytype: map<seq<char>, seq<Instance>>
    var byid: map<nat, Instance>
    var byref: map<nat, seq<Instance>>
    /** `offsets`: where an entity not yet created can be read. */
    var offsets: map<nat, nat>

    constructor ()
      ensures file == null && tokens == null
      ensures bytype == map[] && byid == map[] && byref == map[] && offsets == map[]
    {
      file, tokens := null, null;
      bytype, byid, byref, offsets := map[], map[], map[], map[];
    }

    /** `Init(fn)`: `data` is the file's content (None: it cannot be
        opened, and the result is false). The scan continues from the
        tables as they are. */
    method Init(data: Option<seq<char>>) returns (r: Result<bool>)
      modifies this
      ensures file != null && fresh(file) && (file.valid <==> data.Some?) && offsets == old(offsets)
      ensures data.None? ==> r == Success(false) && bytype == old(bytype) && byid == old(byid) && byref == old(byref)
      ensures data.Some? ==> tokens != null && tokens.file == file && file.Valid() && file.content == data.value
      ensures data.Some? ==> Outcome(Indexed(data.value, 0, Start(old(bytype), old(byid), old(byref))), r, bytype, byid, byref)
    {
      var f := new File(data);
      file := f;
      if !f.valid {
        return Success(false);
      }
      var t := new Tokens(f);
      tokens := t;
      ghost var s := f.content;
      ghost var st0 := Start(bytype, byid, byref);
      var token: Token := NullToken;
      var previous: Token := NullToken;
      var currentId: nat := 0;
      var entity: Option<Instance> := None;
      while true
        invariant file == f && tokens == t && t.file == f && f.Valid() && f.content == s && offsets == old(offsets)
        invariant Indexed(s, 0, st0) == Indexed(s, f.Tell(), Scan(token, previous, currentId, entity, bytype, byid, byref))
        decreases Rank(s, f.Tell())
      {
        ghost var p := f.Tell();
        ghost var st := Scan(token, previous, currentId, entity, bytype, byid, byref);
        var failed;
        failed, token, currentId, entity := Advance(t, token, previous, currentId, entity);
        if failed {
          assert Indexed(s, p, st) == Failure(Unexpected);
          return Failure(Unexpected);
        }
        if token == NullToken {
          assert Indexed(s, p, st) == Success(Scan(token, previous, currentId, entity, bytype, byid, byref));
          return Success(true);
        }
        ghost var st1 := Scan(token, previous, currentId, entity, bytype, byid, byref);
        previous, currentId := Note(t, token, previous, currentId, entity);
        assert Indexed(s, p, st) == Indexed(s, f.Tell(), Noted(s, st1));
      }
    }

    /** Lines 517-529 of `Init`: with an entity pending, it is read and
        filed; otherwise the next token is read. `failed` is the exception
        of an entity that does not start with a datatype. */
    method Advance(t: Tokens, token: Token, previous: Token, currentId: nat, entity: Option<Instance>)
      returns (failed: bool, token': Token, currentId': nat, entity': Option<Instance>)
      requires t.file.Valid()
      modifies this, t.file
      ensures t.file.Valid() && byref == old(byref) && offsets == old(offsets) && file == old(file) && tokens == old(tokens)
      ensures var s := t.file.content;
        var p := old(t.file.Tell());
        var st := Scan(token, previous, currentId, entity, old(bytype), old(byid), old(byref));
        var after := Scan(token', previous, currentId', entity', bytype, byid, byref);
        (!failed && token' != NullToken ==> Rank(s, t.file.Tell()) < Rank(s, p)) &&
        (currentId != 0 ==>
          (failed <==> !IsDatatype(s, NextToken(s, p).0)) &&
          (!failed ==> after == Created(s, st, NextToken(s, p).0) && t.file.Tell() == NextToken(s, p).1 && p < t.file.Tell())) &&
        (currentId == 0 ==>
          !failed && (token', t.file.Tell()) == NextToken(s, p) && after == st.(token := token'))
    {
      NextShape'(t.file.content, t.file.Tell());
      token', currentId', entity' := token, currentId, entity;
      failed := false;
      if currentId != 0 {
        var dt := t.Next();
        if !IsDatatype(t.file.content, dt) {
          failed := true;
          return;
        }
        var e := Instance(currentId, TypeName(t.file.content, dt), Offset(dt), None);
        FileEntity(e);
        entity' := Some(e);
        currentId' := 0;
      } else {
        token' := t.Next();
      }
    }

    /** Lines 531-544 of `Init`: after an identifier, `=` makes its number
        the pending id and any other token files the last entity under it;
        the token becomes `previous`. */
    method Note(t: Tokens, token: Token, previous: Token, currentId: nat, entity: Option<Instance>)
      returns (previous': Token, currentId': nat)
      modifies this
      ensures Scan(token, previous', currentId', entity, bytype, byid, byref) ==
        Noted(t.file.content, Scan(token, previous, currentId, entity, old(bytype), old(byid), old(byref)))
      ensures offsets == old(offsets) && file == old(file) && tokens == old(tokens)
    {
      currentId' := currentId;
      if previous != NullToken && IsIdentifier(t.file.content, previous) {
        var id := AsInt(t.file.content, previous);
        if IsOperator(token, '=') {
          currentId' := ToU32(id.value);
        } else {
          FileReference(ToU32(id.value), entity);
        }
      }
      previous' := token;
    }

    /** Lines 521-527 of `Init`: `e` is pushed onto the list of its type,
        which is created when absent, and kept by its id. */
    method FileEntity(e: Instance)
      modifies this
      ensures bytype == old(bytype)[e.typeName := Entries(old(bytype), e.typeName) + [e]]
      ensures byid == old(byid)[e.id := e]
      ensures byref == old(byref) && offsets == old(offsets) && file == old(file) && tokens == old(tokens)
    {
      var l := EntitiesByType(e.typeName);
      var list := if l.None? then [] else l.value;
      bytype := bytype[e.typeName := list + [e]];
      byid := byid[e.id := e];
    }

    /** Lines 536-541 of `Init`: the list under `k`, created when absent,
        gets `entity` pushed onto it. */
    method FileReference(k: nat, entity: Option<Instance>)
      modifies this
      ensures byref == old(byref)[k := Pushed(Entries(old(byref), k), entity)]
      ensures bytype == old(bytype) && byid == old(byid) && offsets == old(offsets) && file == old(file) && tokens == old(tokens)
    {
      var list := if k in byref then byref[k] else [];
      if entity.Some? {
        list := list + [entity.value];
      }
      byref := byref[k := list];
    }

    /** `EntitiesByType(t)`: None for a type with no entity. */
    function EntitiesByType(t: seq<char>): (r: Option<seq<Instance>>)
      reads this
      ensures r.Some? <==> t in bytype
      ensures r.Some? ==> r.value == bytype[t]
    {
      if t in bytype then Some(bytype[t]) else None
    }

    /** `EntitiesByReference(id)`: the key is the id as `unsigned int`. */
    function EntitiesByReference(id: int): (r: Option<seq<Instance>>)
      reads this
      ensures r.Some? <==> ToU32(id) in byref
      ensures r.Some? ==> r.value == byref[ToU32(id)]
    {
      if ToU32(id) in byref then Some(byref[ToU32(id)]) else None
    }

    /** `EntityById(id)`: the entity by id; otherwise, if its offset is
        known, the entity read there with its arguments, which is then
        kept by id; otherwise the exception `Entity not found`. */
    method EntityById(id: int) returns (r: Result<Instance>)
      requires tokens != null && tokens.file.Valid()
      modifies this, tokens.file
      ensures tokens == old(tokens) && tokens.file.Valid()
      ensures r == ById(tokens.file.content, old(byid), old(offsets), id)
      ensures r.Success? ==> byid == old(byid)[ToU32(id) := r.value]
      ensures r.Failure? ==> byid == old(byid)
      ensures bytype == old(bytype) && byref == old(byref) && offsets == old(offsets) && file == old(file)
    {
      var k := ToU32(id);
      if k in byid {
        return Success(byid[k]);
      }
      if k !in offsets {
        return Failure("Entity not found");
      }
      var o := offsets[k];
      var l := LoadEntity(tokens, o, []);
      if l.Failure? {
        return Failure(l.error);
      }
      var e := Instance(k, l.value.0, o, Some(l.value.1.items));
      byid := byid[k := e];
      return Success(e);
    }

    /** `Entity::getInverse(c)` for the entity with id `id`: the entities
        filed under `id` of type `c`, or all of them when `c` is None (the
        `ALL` type). `isA(t, c)` is the generated `is` of an entity of type
        `t`. */
    method GetInverse(id: nat, c: Option<seq<char>>, isA: (seq<char>, seq<char>) -> bool) returns (l: seq<Instance>)
      ensures l == Inverse(Entries(byref, ToU32(id)), c, isA)
    {
      l := [];
      var all := EntitiesByReference(id);
      if all.None? {
        return;
      }
      var xs := all.value;
      var i := 0;
      while i < |xs|
        invariant 0 <= i <= |xs|
        invariant l == Inverse(xs[..i], c, isA)
      {
        if c.None? || isA(xs[i].typeName, c.value) {
          l := l + [xs[i]];
        }
        assert xs[..i + 1][..i] == xs[..i];
        i := i + 1;
      }
      assert xs[..i] == xs;
    }
  }

  /** What `EntityById` yields over the tables `byid` and `offsets`. */
  function ById(s: seq<char>, byid: map<nat, Instance>, offsets: map<nat, nat>, id: int): Result<Instance>
  {
    var k := ToU32(id);
    if k in byid then Success(byid[k])
    else if k !in offsets then Failure("Entity not found")
    else
      match LoadAt(s, offsets[k], [])
      case Failure(e) => Failure(e)
      case Success(l) => Success(Instance(k, l.0, offsets[k], Some(l.1.items)))
  }

  /** `EntityById` fails with `Entity not found` exactly for an id that is
      neither created nor located; a located entity can only fail to load
      because of an unexpected token. A found entity has the id asked for. */
  lemma ByIdCases(s: seq<char>, byid: map<nat, Instance>, offsets: map<nat, nat>, id: int)
    requires forall k :: k in byid ==> byid[k].id == k
    ensures ById(s, byid, offsets, id) == Failure("Entity not found") <==> ToU32(id) !in byid && ToU32(id) !in offsets
    ensures ById(s, byid, offsets, id).Failure? ==>
      ToU32(id) !in byid && ById(s, byid, offsets, id).error in {"Entity not found", "Unexpected token while parsing entity"}
    ensures ById(s, byid, offsets, id).Success? ==> ById(s, byid, offsets, id).value.id == ToU32(id)
  {
    var k := ToU32(id);
    if k !in byid && k in offsets {
      LoadAtError(s, offsets[k], []);
    }
  }

  /** The entities of `xs` that match `c`, in their order. */
  function Inverse(xs: seq<Instance>, c: Option<seq<char>>, isA: (seq<char>, seq<char>) -> bool): seq<Instance>
    decreases |xs|
  {
    if xs == [] then []
    else
      var last := xs[|xs| - 1];
      Inverse(xs[..|xs| - 1], c, isA) + (if c.None? || isA(last.typeName, c.value) then [last] else [])
  }

  /** `getInverse` keeps exactly the referencing entities of the type asked
      for, and all of them for `ALL`. */
  lemma {:induction false} InverseMembers(xs: seq<Instance>, c: Option<seq<char>>, isA: (seq<char>, seq<char>) -> bool)
    ensures forall e :: e in Inverse(xs, c, isA) <==> e in xs && (c.None? || isA(e.typeName, c.value))
    ensures c.None? ==> Inverse(xs, c, isA) == xs
    decreases |xs|
  {
    if xs != [] {
      var init := xs[..|xs| - 1];
      InverseMembers(init, c, isA);
      assert xs == init + [xs[|xs| - 1]];
    }
  }

  /** Over tables in agreement (as every scan from empty tables leaves
      them, `InitConsistent`), the lookups return what they are asked for:
      the list by type holds only entities of that type, the list by
      reference holds only entities also found by type, and the entity by
      id is in the list of its type. */
  lemma LookupsAgree(ifc: Ifc, t: seq<char>, id: int)
    requires Consistent(Start(ifc.bytype, ifc.byid, ifc.byref))
    ensures ifc.EntitiesByType(t).Some? ==> forall e :: e in ifc.EntitiesByType(t).value ==> e.typeName == t
    ensures ifc.EntitiesByReference(id).Some? ==>
              forall e :: e in ifc.EntitiesByReference(id).value ==>
                ifc.EntitiesByType(e.typeName).Some? && e in ifc.EntitiesByType(e.typeName).value
    ensures ToU32(id) in ifc.byid ==>
              ifc.byid[ToU32(id)].id == ToU32(id) &&
              ifc.EntitiesByType(ifc.byid[ToU32(id)].typeName).Some? &&
              ifc.byid[ToU32(id)] in ifc.EntitiesByType(ifc.byid[ToU32(id)].typeName).value
  {
  }

  /** A scan over empty tables ends with tables in agreement. */
  lemma InitConsistent(s: seq<char>)
    ensures Indexed(s, 0, Start(map[], map[], map[])).Success? ==> Consistent(Indexed(s, 0, Start(map[], map[], map[])).value)
  {
    StartConsistent();
    IndexedKeeps(s, 0, Start(map[], map[], map[]));
  }
}
