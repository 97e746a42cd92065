/** What the EXPRESS compiler emits from the schema tables
    (IfcExpressParser.py), as records rather than C++ text: the accessor of
    each explicit attribute, the per-enumeration string tables, the global
    `Type` enumeration with `ToString`, `FromString` and `Parent`, the
    `SchemaEntity` dispatch, and the order of the header's typedefs and
    classes. */
module ExpressEmit {
  import opened Wrappers
  import opened Strings
  import opened ExpressSchema

  /** The three tables the accessor generator consults. */
  datatype Names = Names(enumerations: set<string>, selections: set<string>, entities: set<string>)

  /** `str(t)`: the C++ type text of an attribute type. */
  function TypeText(names: Names, t: AttrType): string
  {
    match t
    case Scalar(n) => n
    case Binary(w) => "char[" + w + "]"
    case Aggregate(_, lower, upper, element) =>
      match element
      case ElementNamed(n) =>
        if n in names.entities then "SHARED_PTR< IfcTemplatedEntityList<" + n + "> >"
        else if n in names.selections then "SHARED_PTR< IfcTemplatedEntityList<IfcAbstractSelect> >"
        else "std::vector<" + n + "> /*[" + lower + ":" + upper + "]*/"
      case ElementBinary(w) => "std::vector<char[" + w + "]> /*[" + lower + ":" + upper + "]*/"
  }

  /** A binary attribute, or an aggregate of binaries. */
  predicate IsBinaryLike(t: AttrType)
  {
    t.Binary? || (t.Aggregate? && t.element.ElementBinary?)
  }

  /** The kind of generated accessor body. */
  datatype Body =
    | NotImplemented               // `throw; /* Not implemented argument 7 */`
    | EntityList(element: string)  // `RETURN_AS_LIST(T, i)`
    | SelectList                   // `RETURN_AS_LIST(IfcAbstractSelect, i)`
    | Cast(target: string)         // `reinterpret_pointer_cast<IfcBaseClass, T>`
    | EnumFromString(enumName: string) // `T::FromString(*entity->getArgument(i))`
    | Direct                       // `return *entity->getArgument(i);`

  /** The declared return type of the accessor. */
  datatype ReturnType = EnumValue(enumName: string) | EntityPointer(entity: string) | Plain(text: string)

  /** The priority chain that chooses the accessor body. */
  function Classify(names: Names, t: AttrType): (b: Body)
    ensures b.NotImplemented? <==> IsBinaryLike(t)
    ensures b.EntityList? <==> !IsBinaryLike(t) && t.Aggregate? && t.element.name in names.entities
    ensures b.EntityList? ==> b.element == t.element.name
    ensures b.SelectList? <==> (!IsBinaryLike(t) && t.Aggregate? &&
      t.element.name !in names.entities && t.element.name in names.selections)
    ensures b.Cast? ==> TypeText(names, t) in names.entities && b.target == TypeText(names, t)
    ensures b.EnumFromString? ==>
      TypeText(names, t) !in names.entities && TypeText(names, t) in names.enumerations &&
      b.enumName == TypeText(names, t)
    ensures b.Direct? ==>
      !IsBinaryLike(t) && TypeText(names, t) !in names.entities && TypeText(names, t) !in names.enumerations
    ensures t.Scalar? && t.name in names.entities ==> b == Cast(t.name)
  {
    var text := TypeText(names, t);
    if IsBinaryLike(t) then NotImplemented
    else if t.Aggregate? && t.element.name in names.entities then EntityList(t.element.name)
    else if t.Aggregate? && t.element.name in names.selections then SelectList
    else if text in names.entities then Cast(text)
    else if text in names.enumerations then EnumFromString(text)
    else Direct
  }

  /** The return type rule, which tests enumerations BEFORE entities. */
  function ReturnOf(names: Names, t: AttrType): (r: ReturnType)
    ensures r.EnumValue? <==> TypeText(names, t) in names.enumerations
    ensures r.EntityPointer? <==>
      TypeText(names, t) !in names.enumerations && TypeText(names, t) in names.entities
    ensures r == EnumValue(TypeText(names, t)) || r == EntityPointer(TypeText(names, t)) ||
      r == Plain(TypeText(names, t))
  {
    var text := TypeText(names, t);
    if text in names.enumerations then EnumValue(text)
    else if text in names.entities then EntityPointer(text)
    else Plain(text)
  }

  /** For a named attribute type, body and return type agree when no name
      is both an enumeration and an entity. */
  lemma BodyAgreesWithReturn(names: Names, t: AttrType)
    requires t.Scalar? && names.enumerations !! names.entities
    ensures Classify(names, t).Cast? <==> ReturnOf(names, t).EntityPointer?
    ensures Classify(names, t).EnumFromString? <==> ReturnOf(names, t).EnumValue?
    ensures Classify(names, t).Direct? <==> ReturnOf(names, t).Plain?
  {
  }

  /** A name that is both an entity and an enumeration gets a cast body but
      an enumeration return type. */
  lemma BodyAndReturnDisagreeOnClash(names: Names, n: string)
    requires n in names.enumerations && n in names.entities
    ensures Classify(names, Scalar(n)) == Cast(n)
    ensures ReturnOf(names, Scalar(n)) == EnumValue(n)
  {
  }

  /** One generated accessor: the attribute name, the argument index it
      reads, the body and return type, and for an optional attribute the
      index tested by `has<Name>()` (`!entity->getArgument(i)->isNull()`). */
  datatype Accessor = Accessor(name: string, index: nat, body: Body, returnType: ReturnType, nullCheck: Option<nat>)

  /** `ArgumentList.__str__` in source mode: `argv` starts at `argstart` and
      advances by one per explicit attribute. */
  method Accessors(names: Names, attrs: seq<Attribute>, argstart: nat) returns (out: seq<Accessor>)
    ensures |out| == |attrs|
    ensures forall k :: 0 <= k < |attrs| ==>
      out[k].name == attrs[k].name && out[k].index == argstart + k &&
      out[k].body == Classify(names, attrs[k].attrType) &&
      out[k].returnType == ReturnOf(names, attrs[k].attrType) &&
      out[k].nullCheck == (if attrs[k].optional then Some(argstart + k) else None)
  {
    out := [];
    var argv := argstart;
    var i := 0;
    while i < |attrs|
      invariant 0 <= i <= |attrs| && argv == argstart + i && |out| == i
      invariant forall k :: 0 <= k < i ==>
        out[k].name == attrs[k].name && out[k].index == argstart + k &&
        out[k].body == Classify(names, attrs[k].attrType) &&
        out[k].returnType == ReturnOf(names, attrs[k].attrType) &&
        out[k].nullCheck == (if attrs[k].optional then Some(argstart + k) else None)
    {
      var a := attrs[i];
      var check := if a.optional then Some(argv) else None;
      out := out + [Accessor(a.name, argv, Classify(names, a.attrType), ReturnOf(names, a.attrType), check)];
      argv := argv + 1;
      i := i + 1;
    }
  }

  /** `Classdef.__str__` in source mode: the accessors of `e` start at
      `argument_start(e)`, so the k-th own attribute reads argument
      `argument_start(e) + k`. */
  method ClassAccessors(schema: Schema, e: Entity) returns (out: seq<Accessor>)
    requires StartOf(schema.parentRelations, schema.argumentCount, e.name).Some?
    ensures |out| == |e.attributes|
    ensures forall k :: 0 <= k < |out| ==>
      out[k].index == StartOf(schema.parentRelations, schema.argumentCount, e.name).value + k &&
      out[k].nullCheck == (if e.attributes[k].optional then Some(out[k].index) else None)
  {
    var start := schema.ArgumentStart(e.name);
    out := Accessors(Names(schema.enumerations, schema.selections, schema.entityNames), e.attributes, start);
  }

  // ---- per-enumeration tables ------------------------------------------------

  /** `EnumType`: the value `NULL` is renamed `IFC_NULL`. */
  function EnumValues(values: seq<string>): (v: seq<string>)
    ensures |v| == |values|
    ensures forall i :: 0 <= i < |v| ==> v[i] == (if values[i] == "NULL" then "IFC_NULL" else values[i])
    ensures "NULL" !in v
  {
    if values == [] then [] else [if values[0] == "NULL" then "IFC_NULL" else values[0]] + EnumValues(values[1..])
  }

  /** The generated `E::ToString(v)`: range-checked against the value count. */
  function EnumToString(values: seq<string>, v: int): (r: Result<string>)
    ensures r.Success? <==> 0 <= v < |values|
    ensures r.Success? ==> r.value == values[v]
  {
    if v < 0 || v >= |values| then Failure("throw") else Success(values[v])
  }

  /** The first index from `from` on whose upper-cased name is `s`: the
      chain of `if(s=="...")` tests of the generated `FromString`. */
  function FirstUpperMatch(names: seq<string>, s: string, from: nat): (r: Option<nat>)
    requires from <= |names|
    ensures r.Some? ==> (from <= r.value < |names| && Upper(names[r.value]) == s &&
      forall j :: from <= j < r.value ==> Upper(names[j]) != s)
    ensures r.None? ==> forall j :: from <= j < |names| ==> Upper(names[j]) != s
    decreases |names| - from
  {
    if from == |names| then None
    else if Upper(names[from]) == s then Some(from)
    else FirstUpperMatch(names, s, from + 1)
  }

  /** The generated `E::FromString(s)`, which throws when nothing matches. */
  function EnumFromStringOf(values: seq<string>, s: string): (r: Result<nat>)
    ensures r.Success? ==> r.value < |values| && Upper(values[r.value]) == s
    ensures r.Success? ==> forall j :: 0 <= j < r.value ==> Upper(values[j]) != s
    ensures r.Failure? <==> forall j :: 0 <= j < |values| ==> Upper(values[j]) != s
  {
    match FirstUpperMatch(values, s, 0)
    case None => Failure("throw")
    case Some(i) => Success(i)
  }

  /** No two names of the table agree once upper-cased. */
  predicate DistinctUpper(names: seq<string>)
  {
    forall i, j :: 0 <= i < j < |names| ==> Upper(names[i]) != Upper(names[j])
  }

  /** A string produced by `ToString`, upper-cased, reads back to the same
      value. */
  lemma EnumRoundTrip(values: seq<string>, v: nat)
    requires v < |values| && DistinctUpper(values)
    ensures EnumToString(values, v).Success?
    ensures EnumFromStringOf(values, Upper(EnumToString(values, v).value)) == Success(v)
  {
    var s := Upper(values[v]);
    var r := FirstUpperMatch(values, s, 0);
    assert r.Some? by {
      assert Upper(values[v]) == s;
    }
    assert !(v < r.value) by {
      assert Upper(values[v]) == s;
    }
    assert !(r.value < v) by {
      assert Upper(values[r.value]) == s;
    }
  }

  /** The other direction of `EnumRoundTrip`: whatever `FromString` accepts
      names, through `ToString`, a value whose upper-cased form is the input. */
  lemma EnumFromStringNamesValue(values: seq<string>, s: string)
    requires EnumFromStringOf(values, s).Success?
    ensures EnumToString(values, EnumFromStringOf(values, s).value).Success?
    ensures Upper(EnumToString(values, EnumFromStringOf(values, s).value).value) == s
  {
  }

  // ---- the global Type enumeration --------------------------------------------

  /** `all_enumerations`: the sorted selectable simple types, then the sorted
      entity names; `ALL` takes the next ordinal and has no name. */
  ghost function TypeEnumeration(selectable: set<string>, entities: set<string>): (r: seq<string>)
    ensures |r| == |selectable| + |entities|
    ensures StrictlySorted(r[..|selectable|]) && StrictlySorted(r[|selectable|..])
    ensures forall x :: x in selectable <==> x in r[..|selectable|]
    ensures forall x :: x in entities <==> x in r[|selectable|..]
  {
    var r := Sorted(selectable) + Sorted(entities);
    assert r[..|selectable|] == Sorted(selectable);
    assert r[|selectable|..] == Sorted(entities);
    r
  }

  /** The generated `Type::ToString(v)`, which throws outside `[0, n)`; in
      particular `ALL`, whose ordinal is `n`, has no name. */
  function TypeToString(simple: seq<string>, entities: seq<string>, v: int): (r: Result<string>)
    ensures r.Success? <==> 0 <= v < |simple| + |entities|
    ensures r.Success? ==> r.value == (simple + entities)[v]
  {
    EnumToString(simple + entities, v)
  }

  /** The generated `Type::FromString(s)`: the first name whose upper-cased
      form is `s`, else throw. */
  function TypeFromString(simple: seq<string>, entities: seq<string>, s: string): (r: Result<nat>)
    ensures r.Success? ==> r.value < |simple| + |entities| && Upper((simple + entities)[r.value]) == s
    ensures r.Success? ==> forall j :: 0 <= j < r.value ==> Upper((simple + entities)[j]) != s
    ensures r.Failure? <==> forall j :: 0 <= j < |simple + entities| ==> Upper((simple + entities)[j]) != s
  {
    EnumFromStringOf(simple + entities, s)
  }

  /** Whatever `Type::FromString` accepts names, through `Type::ToString`,
      an enumerator whose upper-cased form is the input. */
  lemma TypeFromStringNamesValue(simple: seq<string>, entities: seq<string>, s: string)
    requires TypeFromString(simple, entities, s).Success?
    ensures TypeToString(simple, entities, TypeFromString(simple, entities, s).value).Success?
    ensures Upper(TypeToString(simple, entities, TypeFromString(simple, entities, s).value).value) == s
  {
  }

  /** What the generated `Type::Parent(v)` returns: `-1`, the ordinal of the
      parent entity, the identifier `None` printed for a root, or a parent
      name that is not an enumerator. */
  datatype ParentResult = NoParent | ParentOrdinal(ordinal: nat) | NoneLiteral | UndeclaredName(name: string)

  /** The index of `x` in `s`, if any. */
  function IndexOf(s: seq<string>, x: string): (r: Option<nat>)
    ensures r.Some? ==> r.value < |s| && s[r.value] == x && forall j :: 0 <= j < r.value ==> s[j] != x
    ensures r.None? ==> x !in s
  {
    if s == [] then None
    else if s[0] == x then Some(0)
    else match IndexOf(s[1..], x)
      case None => None
      case Some(i) => Some(i + 1)
  }

  /** The generated `Type::Parent(v)`. */
  function TypeParent(simple: seq<string>, entities: seq<string>, rel: Relations, v: int): (r: ParentResult)
  {
    if v < 0 || v >= |simple| + |entities| then NoParent
    else if v < |simple| then NoParent
    else
      var e := entities[v - |simple|];
      if e !in rel then NoParent
      else match rel[e]
        case None => NoneLiteral
        case Some(p) =>
          match IndexOf(simple + entities, p)
          case None => UndeclaredName(p)
          case Some(i) => ParentOrdinal(i)
  }

  /** `Parent` is `-1` outside the enumeration and for simple types, the
      parent's ordinal for a subtype of a declared entity, and the `None`
      identifier for a root. */
  lemma TypeParentCases(simple: seq<string>, entities: seq<string>, rel: Relations, v: int)
    requires forall x :: x in entities ==> x in rel
    ensures !(0 <= v < |simple| + |entities|) ==> TypeParent(simple, entities, rel, v) == NoParent
    ensures 0 <= v < |simple| ==> TypeParent(simple, entities, rel, v) == NoParent
    ensures |simple| <= v < |simple| + |entities| ==>
      var e := entities[v - |simple|];
      (rel[e].None? <==> TypeParent(simple, entities, rel, v) == NoneLiteral) &&
      (rel[e].Some? && rel[e].value in simple + entities ==>
        TypeParent(simple, entities, rel, v).ParentOrdinal? &&
        (simple + entities)[TypeParent(simple, entities, rel, v).ordinal] == rel[e].value)
  {
    if |simple| <= v < |simple| + |entities| {
      assert entities[v - |simple|] in entities;
    }
  }

  /** With distinct names, a parent ordinal read back through `ToString`
      gives the parent's name. */
  lemma ParentNameRoundTrip(simple: seq<string>, entities: seq<string>, rel: Relations, v: int)
    requires |simple| <= v < |simple| + |entities|
    requires TypeParent(simple, entities, rel, v).ParentOrdinal?
    ensures TypeToString(simple, entities, TypeParent(simple, entities, rel, v).ordinal) ==
      Success(rel[entities[v - |simple|]].value)
  {
  }

  /** With no two names equal once upper-cased, `FromString` inverts
      `ToString` on every named ordinal. */
  lemma TypeRoundTrip(simple: seq<string>, entities: seq<string>, v: nat)
    requires v < |simple| + |entities| && DistinctUpper(simple + entities)
    ensures TypeFromString(simple, entities, Upper(TypeToString(simple, entities, v).value)) == Success(v)
  {
    EnumRoundTrip(simple + entities, v);
  }

  /** What `SchemaEntity(e)` builds for an instance of ordinal `v`. */
  datatype Wrapped = SelectWrapper(simpleType: string) | EntityWrapper(entity: string)

  /** `if ( e->is(Type::X) ) return ...;` over the simple types in order;
      `Entity::is` is ordinal equality. */
  function DispatchSimple(simple: seq<string>, entities: seq<string>, v: int, i: nat): (r: Result<Wrapped>)
    requires i <= |simple|
    decreases |simple| - i
  {
    if i == |simple| then DispatchEntity(simple, entities, v, 0)
    else if v == i then Success(SelectWrapper(simple[i]))
    else DispatchSimple(simple, entities, v, i + 1)
  }

  function DispatchEntity(simple: seq<string>, entities: seq<string>, v: int, j: nat): (r: Result<Wrapped>)
    requires j <= |entities|
    decreases |entities| - j
  {
    if j == |entities| then Failure("throw")
    else if v == |simple| + j then Success(EntityWrapper(entities[j]))
    else DispatchEntity(simple, entities, v, j + 1)
  }

  lemma {:induction false} DispatchEntityFrom(simple: seq<string>, entities: seq<string>, v: int, j: nat)
    requires j <= |entities|
    ensures |simple| + j <= v < |simple| + |entities| ==>
      DispatchEntity(simple, entities, v, j) == Success(EntityWrapper(entities[v - |simple|]))
    ensures !(|simple| + j <= v < |simple| + |entities|) ==> DispatchEntity(simple, entities, v, j).Failure?
    decreases |entities| - j
  {
    if j < |entities| {
      DispatchEntityFrom(simple, entities, v, j + 1);
    }
  }

  lemma {:induction false} DispatchSimpleFrom(simple: seq<string>, entities: seq<string>, v: int, i: nat)
    requires i <= |simple|
    ensures i <= v < |simple| ==> DispatchSimple(simple, entities, v, i) == Success(SelectWrapper(simple[v]))
    ensures !(i <= v < |simple|) && (v < i || v >= |simple| + |entities|) ==>
      DispatchSimple(simple, entities, v, i).Failure?
    ensures |simple| <= v < |simple| + |entities| ==>
      DispatchSimple(simple, entities, v, i) == Success(EntityWrapper(entities[v - |simple|]))
    decreases |simple| - i
  {
    if i == |simple| {
      DispatchEntityFrom(simple, entities, v, 0);
    } else {
      DispatchSimpleFrom(simple, entities, v, i + 1);
    }
  }

  /** `SchemaEntity` tests the simple types first: an instance of a
      selectable simple type is wrapped as a select, an entity instance as
      its class, anything else throws. */
  lemma SchemaEntityDispatch(simple: seq<string>, entities: seq<string>, v: int)
    ensures 0 <= v < |simple| ==> DispatchSimple(simple, entities, v, 0) == Success(SelectWrapper(simple[v]))
    ensures |simple| <= v < |simple| + |entities| ==>
      DispatchSimple(simple, entities, v, 0) == Success(EntityWrapper(entities[v - |simple|]))
    ensures !(0 <= v < |simple| + |entities|) ==> DispatchSimple(simple, entities, v, 0).Failure?
  {
    DispatchSimpleFrom(simple, entities, v, 0);
  }

  // ---- header emission order -------------------------------------------------

  /** A scalar typedef whose C++ type is not yet defined is printed after the
      selects (`deferred_types`). */
  predicate Deferred(t: Typedef)
  {
    t.body.Alias? && t.body.underlying.Scalar? && !IsBuiltinCpp(t.body.underlying.name)
  }

  /** The four groups the header prints typedefs in: aliases whose type is
      known (0), selects (1), deferred scalar aliases (2), enumerations (3). */
  function Category(t: Typedef): nat
  {
    match t.body
    case Alias(_) => if Deferred(t) then 2 else 0
    case Select(_) => 1
    case Enumeration(_) => 3
  }

  /** The typedefs of group `k`, in declaration order (one list
      comprehension of the header code). */
  function Group(types: seq<Typedef>, k: nat): (r: seq<Typedef>)
    ensures forall x :: x in r <==> x in types && Category(x) == k
  {
    if types == [] then [] else (if Category(types[0]) == k then [types[0]] else []) + Group(types[1..], k)
  }

  /** The typedef order of the header. */
  function TypedefOrder(types: seq<Typedef>): seq<Typedef>
  {
    Group(types, 0) + Group(types, 1) + Group(types, 2) + Group(types, 3)
  }

  predicate CategorySorted(s: seq<Typedef>)
  {
    forall i, j :: 0 <= i < j < |s| ==> Category(s[i]) <= Category(s[j])
  }

  lemma GroupsCover(types: seq<Typedef>)
    ensures multiset(TypedefOrder(types)) == multiset(types)
  {
    forall x ensures multiset(TypedefOrder(types))[x] == multiset(types)[x] {
      GroupCount(types, 0, x);
      GroupCount(types, 1, x);
      GroupCount(types, 2, x);
      GroupCount(types, 3, x);
      assert Category(x) <= 3;
    }
  }

  /** Group `k` holds every typedef of category `k` as often as `types` does. */
  lemma {:induction false} GroupCount(types: seq<Typedef>, k: nat, x: Typedef)
    ensures multiset(Group(types, k))[x] == if Category(x) == k then multiset(types)[x] else 0
  {
    if types != [] {
      GroupCount(types[1..], k, x);
      assert types == [types[0]] + types[1..];
    }
  }

  lemma SortedJoin(a: seq<Typedef>, b: seq<Typedef>)
    requires CategorySorted(a) && CategorySorted(b)
    requires forall x, y :: x in a && y in b ==> Category(x) <= Category(y)
    ensures CategorySorted(a + b)
  {
    forall i, j | 0 <= i < j < |a + b| ensures Category((a + b)[i]) <= Category((a + b)[j]) {
      if i < |a| && j >= |a| {
        assert (a + b)[i] == a[i] && (a + b)[j] == b[j - |a|];
        assert a[i] in a && b[j - |a|] in b;
      } else if i >= |a| {
        assert (a + b)[i] == b[i - |a|] && (a + b)[j] == b[j - |a|];
      }
    }
  }

  /** Every typedef is printed exactly once, and the groups come in order. */
  lemma TypedefOrderIsPermutation(types: seq<Typedef>)
    ensures multiset(TypedefOrder(types)) == multiset(types)
    ensures CategorySorted(TypedefOrder(types))
  {
    GroupsCover(types);
    var g0, g1, g2, g3 := Group(types, 0), Group(types, 1), Group(types, 2), Group(types, 3);
    assert CategorySorted(g0) && CategorySorted(g1) && CategorySorted(g2) && CategorySorted(g3) by {
      assert forall i :: 0 <= i < |g0| ==> g0[i] in g0;
      assert forall i :: 0 <= i < |g1| ==> g1[i] in g1;
      assert forall i :: 0 <= i < |g2| ==> g2[i] in g2;
      assert forall i :: 0 <= i < |g3| ==> g3[i] in g3;
    }
    SortedJoin(g0, g1);
    assert forall x :: x in g0 + g1 ==> Category(x) <= 1;
    SortedJoin(g0 + g1, g2);
    assert forall x :: x in g0 + g1 + g2 ==> Category(x) <= 2;
    SortedJoin(g0 + g1 + g2, g3);
  }

  /** The names of a sequence of entities. */
  function NamesOf(s: seq<Entity>): set<string>
  {
    set i | 0 <= i < |s| :: s[i].name
  }

  predicate UniqueNames(s: seq<Entity>)
  {
    forall i, j :: 0 <= i < j < |s| ==> s[i].name != s[j].name
  }

  /** Every class is printed after the class it derives from. */
  predicate ParentFirst(order: seq<Entity>)
  {
    forall j :: 0 <= j < |order| && order[j].parent.Some? ==> order[j].parent.value in NamesOf(order[..j])
  }

  /** With `defined` printed, some class is left and none of those left can
      ever be printed: the header loop repeats the same round forever. */
  predicate Stuck(entities: seq<Entity>, defined: set<string>)
  {
    (exists i :: 0 <= i < |entities| && entities[i].name !in defined) &&
    forall i :: 0 <= i < |entities| && entities[i].name !in defined ==>
      entities[i].parent.Some? && entities[i].parent.value !in defined
  }

  /** Every parent is a declared entity of strictly smaller rank: the
      parent graph is complete and acyclic. */
  predicate Ranked(entities: seq<Entity>, rank: map<string, nat>)
  {
    forall i :: 0 <= i < |entities| ==>
      entities[i].name in rank &&
      (entities[i].parent.Some? ==>
        entities[i].parent.value in NamesOf(entities) && entities[i].parent.value in rank &&
        rank[entities[i].parent.value] < rank[entities[i].name])
  }

  ghost predicate Acyclic(entities: seq<Entity>)
  {
    exists rank :: Ranked(entities, rank)
  }

  lemma {:induction false} PendingRanksAtLeast(entities: seq<Entity>, rank: map<string, nat>, defined: set<string>, n: nat)
    requires Ranked(entities, rank) && Stuck(entities, defined)
    ensures forall i :: 0 <= i < |entities| && entities[i].name !in defined ==> rank[entities[i].name] >= n
    decreases n
  {
    if n > 0 {
      PendingRanksAtLeast(entities, rank, defined, n - 1);
      forall i | 0 <= i < |entities| && entities[i].name !in defined
        ensures rank[entities[i].name] >= n
      {
        var p := entities[i].parent.value;
        var j :| 0 <= j < |entities| && entities[j].name == p;
        assert rank[entities[j].name] >= n - 1;
      }
    }
  }

  /** A complete, acyclic parent graph never gets the header loop stuck. */
  lemma RankedNeverStuck(entities: seq<Entity>, rank: map<string, nat>, defined: set<string>)
    requires Ranked(entities, rank)
    ensures !Stuck(entities, defined)
  {
    if Stuck(entities, defined) {
      var i :| 0 <= i < |entities| && entities[i].name !in defined;
      PendingRanksAtLeast(entities, rank, defined, rank[entities[i].name] + 1);
      assert false;
    }
  }

  /** The classes not yet printed (`classes` at the start of a round). */
  function Pending(s: seq<Entity>, defined: set<string>): (r: seq<Entity>)
    ensures forall x :: x in r <==> x in s && x.name !in defined
  {
    if s == [] then []
    else (if s[0].name !in defined then [s[0]] else []) + Pending(s[1..], defined)
  }

  /** Dropping entries keeps names unique. */
  lemma {:induction false} PendingUnique(s: seq<Entity>, defined: set<string>)
    requires UniqueNames(s)
    ensures UniqueNames(Pending(s, defined))
  {
    if s != [] {
      PendingUnique(s[1..], defined);
      var rest := Pending(s[1..], defined);
      if s[0].name !in defined {
        var r := [s[0]] + rest;
        forall i, j | 0 <= i < j < |r| ensures r[i].name != r[j].name {
          if i == 0 {
            assert r[j] == rest[j - 1] && rest[j - 1] in s[1..];
            var m :| 0 <= m < |s[1..]| && s[1..][m] == rest[j - 1];
            assert s[m + 1] == r[j];
          } else {
            assert r[i] == rest[i - 1] && r[j] == rest[j - 1];
          }
        }
      }
    }
  }

  lemma NamesOfAppend(s: seq<Entity>, c: Entity)
    ensures NamesOf(s + [c]) == NamesOf(s) + {c.name}
  {
    forall x | x in NamesOf(s + [c]) ensures x in NamesOf(s) + {c.name} {
      var i :| 0 <= i < |s + [c]| && (s + [c])[i].name == x;
      if i < |s| { assert s[i].name == x; }
    }
    forall x | x in NamesOf(s) + {c.name} ensures x in NamesOf(s + [c]) {
      if x in NamesOf(s) {
        var i :| 0 <= i < |s| && s[i].name == x;
        assert (s + [c])[i].name == x;
      } else {
        assert (s + [c])[|s|].name == x;
      }
    }
  }

  lemma ParentFirstAppend(order: seq<Entity>, c: Entity)
    requires ParentFirst(order)
    requires c.parent.Some? ==> c.parent.value in NamesOf(order)
    ensures ParentFirst(order + [c])
  {
    var o := order + [c];
    forall j | 0 <= j < |o| && o[j].parent.Some? ensures o[j].parent.value in NamesOf(o[..j]) {
      if j < |order| {
        assert o[..j] == order[..j] && o[j] == order[j];
      } else {
        assert o[..j] == order;
      }
    }
  }

  lemma UniqueAppend(order: seq<Entity>, c: Entity)
    requires UniqueNames(order) && c.name !in NamesOf(order)
    ensures UniqueNames(order + [c])
  {
    var o := order + [c];
    forall i, j | 0 <= i < j < |o| ensures o[i].name != o[j].name {
      assert o[i] == order[i];
      if j == |order| {
        assert order[i].name in NamesOf(order);
      } else {
        assert o[j] == order[j];
      }
    }
  }

  /** One printing round of the header loop over `classes`: a class is
      printed when it is a root or its parent was printed before, including
      earlier in the same round. */
  method HeaderRound(classes: seq<Entity>, order0: seq<Entity>, defined0: set<string>)
    returns (order: seq<Entity>, defined: set<string>)
    requires defined0 == NamesOf(order0) && ParentFirst(order0)
    requires defined0 !! NamesOf(classes)
    ensures defined == NamesOf(order) && ParentFirst(order) && defined0 <= defined
    ensures forall x :: x in order ==> x in order0 || x in classes
    ensures UniqueNames(order0) && UniqueNames(classes) ==> UniqueNames(order)
    ensures defined == defined0 ==> forall m :: 0 <= m < |classes| ==>
      classes[m].parent.Some? && classes[m].parent.value !in defined0
    ensures defined <= defined0 + NamesOf(classes)
  {
    ghost var unique := UniqueNames(order0) && UniqueNames(classes);
    order, defined := order0, defined0;
    var k := 0;
    while k < |classes|
      invariant 0 <= k <= |classes|
      invariant defined == NamesOf(order) && ParentFirst(order) && defined0 <= defined
      invariant forall x :: x in order ==> x in order0 || x in classes
      invariant unique ==> UniqueNames(order) && forall m :: k <= m < |classes| ==> classes[m].name !in defined
      invariant defined == defined0 ==> forall m :: 0 <= m < k ==>
        classes[m].parent.Some? && classes[m].parent.value !in defined0
      invariant defined <= defined0 + NamesOf(classes)
    {
      var c := classes[k];
      if c.parent.None? || c.parent.value in defined {
        assert c.name in NamesOf(classes);
        if unique {
          UniqueAppend(order, c);
          assert forall m :: k < m < |classes| ==> classes[m].name != c.name;
        }
        ParentFirstAppend(order, c);
        NamesOfAppend(order, c);
        order := order + [c];
        defined := defined + {c.name};
      }
      k := k + 1;
    }
  }

  lemma PendingNames(entities: seq<Entity>, defined: set<string>)
    ensures defined !! NamesOf(Pending(entities, defined))
    ensures NamesOf(Pending(entities, defined)) <= NamesOf(entities)
    ensures Pending(entities, defined) == [] ==> NamesOf(entities) <= defined
  {
    var classes := Pending(entities, defined);
    forall x | x in NamesOf(classes) ensures x !in defined && x in NamesOf(entities) {
      var i :| 0 <= i < |classes| && classes[i].name == x;
      assert classes[i] in classes;
      var j :| 0 <= j < |entities| && entities[j] == classes[i];
    }
    if classes == [] {
      forall x | x in NamesOf(entities) ensures x in defined {
        var i :| 0 <= i < |entities| && entities[i].name == x;
        assert entities[i] !in classes;
      }
    }
  }

  /** A round over the pending classes that prints nothing leaves the loop
      stuck. */
  lemma NoProgressIsStuck(entities: seq<Entity>, defined: set<string>)
    requires Pending(entities, defined) != []
    requires forall m :: 0 <= m < |Pending(entities, defined)| ==>
      Pending(entities, defined)[m].parent.Some? && Pending(entities, defined)[m].parent.value !in defined
    ensures Stuck(entities, defined)
  {
    var classes := Pending(entities, defined);
    assert classes[0] in classes;
    forall i | 0 <= i < |entities| && entities[i].name !in defined
      ensures entities[i].parent.Some? && entities[i].parent.value !in defined
    {
      assert entities[i] in classes;
      var m :| 0 <= m < |classes| && classes[m] == entities[i];
    }
  }

  /** The header's class loop: rounds over the classes not yet printed
      until none is left. When a round prints nothing the source loops
      forever; that outcome is None here, and a stuck table state is then
      exhibited. */
  method HeaderOrder(entities: seq<Entity>) returns (r: Option<seq<Entity>>)
    ensures r.Some? ==> ParentFirst(r.value) && NamesOf(r.value) == NamesOf(entities)
    ensures r.Some? ==> forall x :: x in r.value ==> x in entities
    ensures r.Some? && UniqueNames(entities) ==> UniqueNames(r.value) && |r.value| == |entities|
    ensures r.None? ==> exists d :: d <= NamesOf(entities) && Stuck(entities, d)
    ensures Acyclic(entities) ==> r.Some?
  {
    var defined: set<string> := {};
    var order: seq<Entity> := [];
    while true
      invariant defined == NamesOf(order) && defined <= NamesOf(entities)
      invariant ParentFirst(order)
      invariant forall x :: x in order ==> x in entities
      invariant UniqueNames(entities) ==> UniqueNames(order)
      decreases NamesOf(entities) - defined
    {
      var classes := Pending(entities, defined);
      PendingNames(entities, defined);
      if |classes| == 0 {
        r := Some(order);
        if UniqueNames(entities) {
          UniqueSameNamesSameLength(order, entities);
        }
        return;
      }
      if UniqueNames(entities) {
        PendingUnique(entities, defined);
      }
      var order', defined' := HeaderRound(classes, order, defined);
      if defined' == defined {
        NoProgressIsStuck(entities, defined);
        if Acyclic(entities) {
          var rank :| Ranked(entities, rank);
          RankedNeverStuck(entities, rank, defined);
        }
        return None;
      }
      LessLeftToPrint(NamesOf(entities), defined, defined');
      order, defined := order', defined';
    }
  }

  lemma LessLeftToPrint(all: set<string>, before: set<string>, after: set<string>)
    requires before <= after <= all && before != after
    ensures all - after < all - before
  {
    var x :| x in after && x !in before;
    assert x in all - before;
  }

  /** Unique sequences with the same names have the same length. */
  lemma UniqueSameNamesSameLength(a: seq<Entity>, b: seq<Entity>)
    requires UniqueNames(a) && UniqueNames(b) && NamesOf(a) == NamesOf(b)
    ensures |a| == |b|
  {
    UniqueNamesCount(a);
    UniqueNamesCount(b);
  }

  lemma {:induction false} UniqueNamesCount(a: seq<Entity>)
    requires UniqueNames(a)
    ensures |NamesOf(a)| == |a|
  {
    if a != [] {
      var init := a[..|a| - 1];
      assert a == init + [a[|a| - 1]];
      assert UniqueNames(init);
      UniqueNamesCount(init);
      NamesOfAppend(init, a[|a| - 1]);
    }
  }
}
