/** The schema tables the EXPRESS compiler fills while it parses a schema
    (IfcExpressParser.py): the parsed type and entity records, the global
    sets and dictionaries their constructors update, and the walk up the
    supertype chain that gives each entity's first own attribute index. */
module ExpressSchema {
  import opened Wrappers

  /** `express_to_cpp`: EXPRESS built-in types become C++ types, every other
      name is kept. */
  function CppName(express: string): (cpp: string)
    ensures express == "BOOLEAN" || express == "LOGICAL" ==> cpp == "bool"
    ensures express == "INTEGER" ==> cpp == "int"
    ensures express == "REAL" || express == "NUMBER" ==> cpp == "float"
    ensures express == "STRING" ==> cpp == "std::string"
    ensures express !in {"BOOLEAN", "LOGICAL", "INTEGER", "REAL", "NUMBER", "STRING"} ==> cpp == express
  {
    if express == "BOOLEAN" || express == "LOGICAL" then "bool"
    else if express == "INTEGER" then "int"
    else if express == "REAL" || express == "NUMBER" then "float"
    else if express == "STRING" then "std::string"
    else express
  }

  /** The C++ types every generated header already knows (`defined_types`). */
  predicate IsBuiltinCpp(t: string)
  {
    t == "bool" || t == "int" || t == "float" || t == "std::string"
  }

  /** The EXPRESS built-in simple types `express_to_cpp` knows. */
  predicate IsExpressBuiltin(t: string)
  {
    t in {"BOOLEAN", "LOGICAL", "INTEGER", "REAL", "NUMBER", "STRING"}
  }

  /** After the mapping no EXPRESS built-in remains, a built-in always lands
      on a type every header already knows, and mapping twice changes
      nothing. */
  lemma CppNameMapped(express: string)
    ensures !IsExpressBuiltin(CppName(express))
    ensures IsExpressBuiltin(express) ==> IsBuiltinCpp(CppName(express))
    ensures !IsExpressBuiltin(express) ==> CppName(express) == express
    ensures CppName(CppName(express)) == CppName(express)
  {
  }

  /** The element of an aggregate: `BINARY(n)` or a (mapped) type name. */
  datatype Element = ElementBinary(width: string) | ElementNamed(name: string)

  /** The parsed form of an attribute or defined type: `ScalarType`,
      `ArrayType` (`ARRAY`/`LIST`/`SET` with bounds) and `BinaryType`; names
      are already mapped by `express_to_cpp`. */
  datatype AttrType =
    | Scalar(name: string)
    | Aggregate(kind: string, lower: string, upper: string, element: Element)
    | Binary(width: string)

  /** What the grammar's `>> scalar_type` / `>> array_type` actions build. */
  function ScalarOf(token: string): (t: AttrType)
    ensures t.Scalar? && t.name == CppName(token)
  {
    Scalar(CppName(token))
  }

  function AggregateOf(kind: string, lower: string, upper: string, element: Element): (t: AttrType)
    ensures t.Aggregate? && t.kind == kind && t.lower == lower && t.upper == upper
    ensures element.ElementNamed? ==> t.element == ElementNamed(CppName(element.name))
    ensures element.ElementBinary? ==> t.element == element
  {
    match element
    case ElementBinary(_) => Aggregate(kind, lower, upper, element)
    case ElementNamed(n) => Aggregate(kind, lower, upper, ElementNamed(CppName(n)))
  }

  /** The parse actions leave no EXPRESS built-in name in a parsed type: a
      scalar or an aggregate element names a C++ type or a schema type, and
      a name that is not a built-in is kept as written. */
  lemma ParsedTypesMapped(token: string, kind: string, lower: string, upper: string, element: Element)
    ensures !IsExpressBuiltin(ScalarOf(token).name)
    ensures !IsExpressBuiltin(token) ==> ScalarOf(token) == Scalar(token)
    ensures element.ElementNamed? ==> !IsExpressBuiltin(AggregateOf(kind, lower, upper, element).element.name)
    ensures element.ElementNamed? && !IsExpressBuiltin(element.name) ==>
              AggregateOf(kind, lower, upper, element) == Aggregate(kind, lower, upper, element)
  {
    CppNameMapped(token);
    if element.ElementNamed? {
      CppNameMapped(element.name);
    }
  }

  /** The right-hand side of `TYPE name = ...;`. */
  datatype TypeBody =
    | Alias(underlying: AttrType)
    | Enumeration(values: seq<string>)
    | Select(options: seq<string>)

  datatype Typedef = Typedef(name: string, body: TypeBody)

  /** An explicit attribute `name : [OPTIONAL] type;`. */
  datatype Attribute = Attribute(name: string, optional: bool, attrType: AttrType)

  /** An `ENTITY`: its supertype (`SUBTYPE OF`), explicit attributes and
      inverse attribute names. Derived attributes are skipped by the grammar
      and never reach the record. */
  datatype Entity = Entity(name: string, parent: Option<string>, attributes: seq<Attribute>, inverses: seq<string>)

  /** The parent-relation and argument-count dictionaries seen as values. */
  type Relations = map<string, Option<string>>

  /** The number of inherited attributes a dictionary entry contributes
      (`argument_count[c] if c in argument_count else 0`). */
  function CountOf(counts: map<string, nat>, c: string): nat
  {
    if c in counts then counts[c] else 0
  }

  /** Sum of the attribute counts over a chain of supertypes. */
  function InheritedCount(counts: map<string, nat>, chain: seq<string>): nat
  {
    if chain == [] then 0 else InheritedCount(counts, chain[..|chain| - 1]) + CountOf(counts, chain[|chain| - 1])
  }

  lemma {:induction false} InheritedCountCons(counts: map<string, nat>, p: string, rest: seq<string>)
    ensures InheritedCount(counts, [p] + rest) == CountOf(counts, p) + InheritedCount(counts, rest)
    decreases |rest|
  {
    if rest != [] {
      var front := rest[..|rest| - 1];
      assert ([p] + rest)[..|[p] + rest| - 1] == [p] + front;
      InheritedCountCons(counts, p, front);
    }
  }

  /** `chain` is the supertype chain of `c`: each link is the recorded
      parent of the one before it, and it ends at a root (`None`) or at a
      parent name that is not a recorded entity. */
  predicate ChainOf(rel: Relations, c: string, chain: seq<string>)
    decreases |chain|
  {
    c in rel &&
    match rel[c]
    case None => chain == []
    case Some(p) =>
      chain != [] && chain[0] == p &&
      (p !in rel ==> chain == [p]) &&
      (p in rel ==> ChainOf(rel, p, chain[1..]))
  }

  /** Walks up from `c`, which is in `seen`; None when the walk comes back
      to a name already visited (a cyclic supertype relation). */
  function Walk(rel: Relations, c: string, seen: set<string>): (r: Option<seq<string>>)
    requires c in rel && c in seen
    ensures r.Some? ==> ChainOf(rel, c, r.value) && (forall x :: x in r.value && x in rel ==> x !in seen)
    decreases rel.Keys - seen
  {
    match rel[c]
    case None => Some([])
    case Some(p) =>
      if p !in rel then Some([p])
      else if p in seen then None
      else
        assert rel.Keys - (seen + {p}) < rel.Keys - seen;
        match Walk(rel, p, seen + {p})
        case None => None
        case Some(rest) => Some([p] + rest)
  }

  /** The supertypes of `c`, nearest first; empty for a name that is not an
      entity and for a root; None when the relation is cyclic above `c`. */
  function Ancestors(rel: Relations, c: string): (r: Option<seq<string>>)
    ensures c !in rel ==> r == Some([])
    ensures c in rel && r.Some? ==> ChainOf(rel, c, r.value) && c !in r.value
  {
    if c !in rel then Some([]) else Walk(rel, c, {c})
  }

  /** A walk that started with more names visited agrees with one that
      started with fewer. */
  lemma {:induction false} WalkSeenMonotone(rel: Relations, c: string, big: set<string>, small: set<string>)
    requires c in rel && c in small && small <= big
    requires Walk(rel, c, big).Some?
    ensures Walk(rel, c, small) == Walk(rel, c, big)
    decreases rel.Keys - small
  {
    match rel[c]
    case None =>
    case Some(p) =>
      if p in rel && p !in small {
        assert p !in big;
        assert rel.Keys - (small + {p}) < rel.Keys - small;
        WalkSeenMonotone(rel, p, big + {p}, small + {p});
      }
  }

  /** The value `argument_start(c)` returns, when it returns. */
  function StartOf(rel: Relations, counts: map<string, nat>, c: string): Option<nat>
  {
    match Ancestors(rel, c)
    case None => None
    case Some(chain) => Some(InheritedCount(counts, chain))
  }

  /** A root entity's own attributes start at index 0. */
  lemma RootStartsAtZero(rel: Relations, counts: map<string, nat>, c: string)
    requires c in rel && rel[c].None?
    ensures StartOf(rel, counts, c) == Some(0)
  {
  }

  /** A subtype's attributes follow its parent's: `argument_start(E) =
      argument_count(P) + argument_start(P)` for an entity parent `P`. */
  lemma StartAfterParent(rel: Relations, counts: map<string, nat>, c: string, p: string)
    requires c in rel && rel[c] == Some(p) && p in rel
    requires StartOf(rel, counts, c).Some?
    ensures StartOf(rel, counts, p).Some?
    ensures StartOf(rel, counts, c).value == CountOf(counts, p) + StartOf(rel, counts, p).value
  {
    var rest := Walk(rel, p, {c} + {p}).value;
    WalkSeenMonotone(rel, p, {c} + {p}, {p});
    assert Ancestors(rel, c) == Some([p] + rest);
    InheritedCountCons(counts, p, rest);
  }

  /** A supertype that is not an entity contributes its count (0 when it has
      none) and ends the walk. */
  lemma StartAfterForeignParent(rel: Relations, counts: map<string, nat>, c: string, p: string)
    requires c in rel && rel[c] == Some(p) && p !in rel
    ensures StartOf(rel, counts, c) == Some(CountOf(counts, p))
  {
    assert Ancestors(rel, c) == Some([p]);
    assert [p][..0] == [];
    assert InheritedCount(counts, [p]) == InheritedCount(counts, []) + CountOf(counts, p);
  }

  /** `path` follows the recorded parents from `path[0]`, every name on it
      is a recorded entity, and the parent of its last name is one of the
      names on it: the supertype chain of `path[0]` runs into a cycle. */
  predicate CyclicFrom(rel: Relations, path: seq<string>)
  {
    |path| >= 1 &&
    (forall i :: 0 <= i < |path| ==> path[i] in rel) &&
    (forall i :: 0 <= i < |path| - 1 ==> rel[path[i]] == Some(path[i + 1])) &&
    rel[path[|path| - 1]].Some? && rel[path[|path| - 1]].value in path
  }

  /** A walk along such a path, having visited its first `k + 1` names,
      comes back to a visited name. */
  lemma {:induction false} WalkOnCycle(rel: Relations, path: seq<string>, k: nat, seen: set<string>)
    requires CyclicFrom(rel, path) && k < |path|
    requires forall i :: 0 <= i <= k ==> path[i] in seen
    ensures Walk(rel, path[k], seen) == None
    decreases |path| - k
  {
    if k < |path| - 1 {
      assert rel[path[k]] == Some(path[k + 1]);
      var p := path[k + 1];
      assert path[k + 1] in rel;
      if p !in seen {
        assert rel.Keys - (seen + {p}) < rel.Keys - seen;
        WalkOnCycle(rel, path, k + 1, seen + {p});
      }
    } else {
      var p := rel[path[k]].value;
      var j :| 0 <= j < |path| && path[j] == p;
      assert p in rel && p in seen;
    }
  }

  /** A supertype chain that runs into a cycle has no start index:
      `argument_start` loops forever there. */
  lemma CycleHasNoStart(rel: Relations, counts: map<string, nat>, path: seq<string>)
    requires CyclicFrom(rel, path)
    ensures StartOf(rel, counts, path[0]) == None
  {
    WalkOnCycle(rel, path, 0, {path[0]});
  }

  /** A walk that comes back to a visited name, having visited exactly the
      names of a path that follows the parents up to `path`'s last name,
      has found a cycle that extends that path. */
  lemma {:induction false} WalkNoneCycle(rel: Relations, path: seq<string>, seen: set<string>) returns (cycle: seq<string>)
    requires |path| >= 1 && (forall i :: 0 <= i < |path| ==> path[i] in rel)
    requires forall i :: 0 <= i < |path| - 1 ==> rel[path[i]] == Some(path[i + 1])
    requires forall x :: x in seen <==> x in path
    requires Walk(rel, path[|path| - 1], seen) == None
    ensures CyclicFrom(rel, cycle) && |path| <= |cycle| && cycle[..|path|] == path
    decreases rel.Keys - seen
  {
    var c := path[|path| - 1];
    var p := rel[c].value;
    if p in seen {
      cycle := path;
    } else {
      assert rel.Keys - (seen + {p}) < rel.Keys - seen;
      var path' := path + [p];
      assert path'[|path'| - 1] == p;
      cycle := WalkNoneCycle(rel, path', seen + {p});
      assert cycle[..|path|] == cycle[..|path'|][..|path|];
    }
  }

  /** An entity has no start index exactly when its supertype chain runs
      into a cycle; the cycle returned starts at the entity. */
  lemma NoStartIsCycle(rel: Relations, counts: map<string, nat>, c: string) returns (cycle: seq<string>)
    requires c in rel && StartOf(rel, counts, c) == None
    ensures CyclicFrom(rel, cycle) && cycle[0] == c
  {
    cycle := WalkNoneCycle(rel, [c], {c});
    assert cycle[..1] == [c];
  }

  /** The smallest case: two entities that name each other as parent. */
  lemma TwoClassCycle(counts: map<string, nat>)
    ensures StartOf(map["A" := Some("B"), "B" := Some("A")], counts, "A") == None
    ensures StartOf(map["A" := Some("B"), "B" := Some("A")], counts, "B") == None
  {
    var rel := map["A" := Some("B"), "B" := Some("A")];
    assert CyclicFrom(rel, ["A", "B"]);
    CycleHasNoStart(rel, counts, ["A", "B"]);
    assert CyclicFrom(rel, ["B", "A"]);
    CycleHasNoStart(rel, counts, ["B", "A"]);
  }

  /** The generated `C::is(v)`: `v == C`, or the parent class's `is(v)`
      (a root only tests its own type); None when the recursion would not
      end. A parent that is not an entity only matches itself. */
  function GeneratedIs(rel: Relations, c: string, v: string, seen: set<string>): (r: Option<bool>)
    requires c in rel && c in seen
    decreases rel.Keys - seen
  {
    if v == c then Some(true)
    else match rel[c]
      case None => Some(false)
      case Some(p) =>
        if p !in rel then Some(v == p)
        else if p in seen then None
        else
          assert rel.Keys - (seen + {p}) < rel.Keys - seen;
          GeneratedIs(rel, p, v, seen + {p})
  }

  /** `is(v)` holds exactly for the class itself and its supertypes
      whenever the chain above it ends. */
  lemma {:induction false} GeneratedIsAncestry(rel: Relations, c: string, v: string, seen: set<string>)
    requires c in rel && c in seen
    requires Walk(rel, c, seen).Some?
    ensures GeneratedIs(rel, c, v, seen) == Some(v == c || v in Walk(rel, c, seen).value)
    decreases rel.Keys - seen
  {
    match rel[c]
    case None =>
    case Some(p) =>
      if p in rel && p !in seen {
        assert rel.Keys - (seen + {p}) < rel.Keys - seen;
        GeneratedIsAncestry(rel, p, v, seen + {p});
      }
  }

  lemma IsMeansAncestry(rel: Relations, c: string, v: string)
    requires c in rel && Ancestors(rel, c).Some?
    ensures GeneratedIs(rel, c, v, {c}) == Some(v == c || v in Ancestors(rel, c).value)
  {
    GeneratedIsAncestry(rel, c, v, {c});
  }

  /** The global tables (`enumerations`, `selections`, `entity_names`,
      `simple_types`, `selectable_simple_types`, `argument_count`,
      `parent_relations`) that the `Typedef`, `SelectType` and `Classdef`
      constructors update as the parser builds them. */
  class Schema {
    var enumerations: set<string>
    var selections: set<string>
    var entityNames: set<string>
    var simpleTypes: set<string>
    var selectableSimpleTypes: set<string>
    var argumentCount: map<string, nat>
    var parentRelations: Relations

    /** Every enumeration, select and selectable name is a simple type, and
        exactly the entity names have a parent entry and an argument count. */
    ghost predicate Valid()
      reads this
    {
      enumerations <= simpleTypes && selections <= simpleTypes &&
      selectableSimpleTypes <= simpleTypes &&
      argumentCount.Keys == entityNames && parentRelations.Keys == entityNames
    }

    constructor ()
      ensures Valid()
      ensures enumerations == {} && selections == {} && entityNames == {} && simpleTypes == {}
      ensures selectableSimpleTypes == {} && argumentCount == map[] && parentRelations == map[]
    {
      enumerations, selections, entityNames, simpleTypes := {}, {}, {}, {};
      selectableSimpleTypes, argumentCount, parentRelations := {}, map[], map[];
    }

    /** `Typedef(l)`, preceded for a select by `SelectType(l)`: the select's
        options that are already simple types become selectable; then an
        enumeration or a select is recorded as such, and every defined type
        becomes a simple type. */
    method AddTypedef(t: Typedef)
      requires Valid()
      modifies this
      ensures Valid()
      ensures selectableSimpleTypes == old(selectableSimpleTypes) +
        (if t.body.Select? then set x | x in t.body.options && x in old(simpleTypes) else {})
      ensures enumerations == old(enumerations) + (if t.body.Enumeration? then {t.name} else {})
      ensures selections == old(selections) + (if t.body.Select? then {t.name} else {})
      ensures simpleTypes == old(simpleTypes) + {t.name}
      ensures entityNames == old(entityNames) && argumentCount == old(argumentCount)
      ensures parentRelations == old(parentRelations)
    {
      match t.body {
        case Select(options) =>
          var i := 0;
          while i < |options|
            invariant 0 <= i <= |options|
            invariant selectableSimpleTypes == old(selectableSimpleTypes) +
              (set x | x in options[..i] && x in simpleTypes)
            invariant simpleTypes == old(simpleTypes) && Valid()
            invariant enumerations == old(enumerations) && selections == old(selections)
            invariant entityNames == old(entityNames) && argumentCount == old(argumentCount)
            invariant parentRelations == old(parentRelations)
          {
            if options[i] in simpleTypes {
              selectableSimpleTypes := selectableSimpleTypes + {options[i]};
            }
            assert options[..i + 1] == options[..i] + [options[i]];
            i := i + 1;
          }
          assert options[..i] == options;
          selections := selections + {t.name};
        case Enumeration(_) =>
          enumerations := enumerations + {t.name};
        case Alias(_) =>
      }
      simpleTypes := simpleTypes + {t.name};
    }

    /** `Classdef(l)`: the entity is named, its supertype recorded (`None`
        for a root) and its count of explicit attributes stored; a second
        definition of a name overwrites the first. */
    method AddClassdef(e: Entity)
      requires Valid()
      modifies this
      ensures Valid()
      ensures entityNames == old(entityNames) + {e.name}
      ensures parentRelations == old(parentRelations)[e.name := e.parent]
      ensures argumentCount == old(argumentCount)[e.name := |e.attributes|]
      ensures enumerations == old(enumerations) && selections == old(selections)
      ensures simpleTypes == old(simpleTypes) && selectableSimpleTypes == old(selectableSimpleTypes)
    {
      entityNames := entityNames + {e.name};
      parentRelations := parentRelations[e.name := e.parent];
      argumentCount := argumentCount[e.name := |e.attributes|];
    }

    /** `argument_start(c)`: walks the parent dictionary from `c`, adding
        the attribute count of each supertype. The source loops forever on a
        cyclic relation, so the walk is required to end. */
    method ArgumentStart(c: string) returns (i: nat)
      requires StartOf(parentRelations, argumentCount, c).Some?
      ensures i == StartOf(parentRelations, argumentCount, c).value
    {
      if c !in parentRelations {
        return 0;
      }
      ghost var chain := Ancestors(parentRelations, c).value;
      var cur := c;
      ghost var k := 0;
      i := 0;
      while true
        invariant 0 <= k <= |chain|
        invariant cur in parentRelations && ChainOf(parentRelations, cur, chain[k..])
        invariant i == InheritedCount(argumentCount, chain[..k])
        decreases |chain| - k
      {
        var next := parentRelations[cur];
        assert chain[k..] != [] ==> chain[k..][0] == chain[k];
        if next.None? {
          assert chain[..k] == chain;
          return;
        }
        assert chain[..k + 1][..k] == chain[..k];
        i := i + CountOf(argumentCount, next.value);
        k := k + 1;
        if next.value !in parentRelations {
          assert chain[..k] == chain;
          return;
        }
        assert chain[k - 1..][1..] == chain[k..];
        cur := next.value;
      }
    }
  }
}
