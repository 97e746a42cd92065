/** The runtime typing tables (rt_implementation.py): one descriptor per
    simple type and per entity, entities in parent-before-child order with
    only their own attributes, one descriptor per enumeration, and the
    derived-field index lists. What `mapping.get_assignable_arguments` and
    `mapping.make_argument_type` return is taken as input: each entity
    carries its argument list, each simple type its argument type text. */
module RuntimeTyping {
  import opened Wrappers

  /** One entry of `get_assignable_arguments(type, include_derived = True)`. */
  datatype Argument = Argument(name: string, isInherited: bool, isOptional: bool, isDerived: bool,
                               typeEnum: string, argType: string, index: int)

  datatype SimpleType = SimpleType(name: string, argType: string)

  /** An entry of `schema.entities`: its supertypes and its arguments. */
  datatype EntityType = EntityType(name: string, supertypes: seq<string>, arguments: seq<Argument>)

  datatype EnumerationType = EnumerationType(name: string, values: seq<string>)

  /** `entity_descriptor_attribute`, or its `_enum` variant when `enumType`
      is present. */
  datatype AttributeDescriptor = AttributeDescriptor(name: string, optional: string, typeEnum: string,
                                                     enumType: Option<string>)

  /** `entity_descriptor`; `parent` None is the literal `0`. */
  datatype EntityDescriptor = EntityDescriptor(name: string, parent: Option<string>, attributes: seq<AttributeDescriptor>)

  datatype EnumerationDescriptor = EnumerationDescriptor(name: string, values: seq<string>)

  /** `derived_field_statement`: the entity and its `index - 1` list. */
  datatype DerivedFields = DerivedFields(name: string, indices: seq<int>)

  const EnumerationTag := "IfcUtil::Argument_ENUMERATION"

  // ---- simple types ----------------------------------------------------------

  /** Every simple type gets a descriptor with parent `0` and the one
      attribute `wrappedValue`, not optional, of the simple type's argument
      type. */
  method SimpleDescriptors(simple: seq<SimpleType>) returns (r: seq<EntityDescriptor>)
    ensures |r| == |simple|
    ensures forall k :: 0 <= k < |simple| ==>
      r[k] == EntityDescriptor(simple[k].name, None,
                               [AttributeDescriptor("wrappedValue", "false", simple[k].argType, None)])
  {
    r := [];
    var k := 0;
    while k < |simple|
      invariant k <= |simple| && |r| == k
      invariant forall m :: 0 <= m < k ==>
        r[m] == EntityDescriptor(simple[m].name, None,
                                 [AttributeDescriptor("wrappedValue", "false", simple[m].argType, None)])
    {
      var attr := AttributeDescriptor("wrappedValue", "false", simple[k].argType, None);
      r := r + [EntityDescriptor(simple[k].name, None, [attr])];
      k := k + 1;
    }
  }

  // ---- entity attributes ----------------------------------------------------

  /** The attribute entry of one argument: the enum template when its type
      tag is `Argument_ENUMERATION`; the optional flag as `true`/`false`. */
  function AttributeOf(a: Argument): (d: AttributeDescriptor)
    ensures d.name == a.name && d.typeEnum == a.typeEnum
    ensures d.optional == "true" <==> a.isOptional
    ensures d.optional == "true" || d.optional == "false"
    ensures d.enumType.Some? <==> a.typeEnum == EnumerationTag
    ensures d.enumType.Some? ==> d.enumType.value == a.argType
  {
    AttributeDescriptor(a.name, if a.isOptional then "true" else "false", a.typeEnum,
                        if a.typeEnum == EnumerationTag then Some(a.argType) else None)
  }

  /** The arguments that are not inherited, in their order. */
  function Own(args: seq<Argument>): seq<Argument>
  {
    if args == [] then []
    else (if args[0].isInherited then [] else [args[0]]) + Own(args[1..])
  }

  /** `Own` keeps exactly the arguments that are not inherited. */
  lemma {:induction false} OwnMembers(args: seq<Argument>)
    ensures forall a :: a in Own(args) <==> a in args && !a.isInherited
  {
    if args != [] {
      OwnMembers(args[1..]);
      assert args == [args[0]] + args[1..];
    }
  }

  /** The inner `for arg in constructor_arguments` loop: one entry per
      argument that is not inherited, in order. */
  method AttributeDescriptors(args: seq<Argument>) returns (r: seq<AttributeDescriptor>)
    ensures |r| == |Own(args)|
    ensures forall k :: 0 <= k < |r| ==> r[k] == AttributeOf(Own(args)[k])
  {
    r := [];
    var k := 0;
    while k < |args|
      invariant k <= |args|
      invariant |r| == |Own(args[..k])|
      invariant forall m :: 0 <= m < |r| ==> r[m] == AttributeOf(Own(args[..k])[m])
    {
      OwnSplit(args, k);
      if !args[k].isInherited {
        r := r + [AttributeOf(args[k])];
      }
      k := k + 1;
    }
    assert args[..k] == args;
  }

  /** Taking one more argument into the prefix. */
  lemma OwnSplit(args: seq<Argument>, k: nat)
    requires k < |args|
    ensures Own(args[..k + 1]) == Own(args[..k]) + (if args[k].isInherited then [] else [args[k]])
  {
    OwnAppend(args[..k], args[k]);
    assert args[..k + 1] == args[..k] + [args[k]];
  }

  lemma {:induction false} OwnAppend(args: seq<Argument>, a: Argument)
    ensures Own(args + [a]) == Own(args) + (if a.isInherited then [] else [a])
  {
    if args == [] {
      assert [a][1..] == [];
    } else {
      assert (args + [a])[1..] == args[1..] + [a];
      OwnAppend(args[1..], a);
    }
  }

  // ---- entity order ----------------------------------------------------------

  function Names(es: seq<EntityType>): set<string>
  {
    set k | 0 <= k < |es| :: es[k].name
  }

  /** `schema.entities` is a dict: its names are distinct. */
  predicate UniqueNames(es: seq<EntityType>)
  {
    forall k, l :: 0 <= k < l < |es| ==> es[k].name != es[l].name
  }

  /** The emission test. As written (`strict`) the supertypes must form a
      PROPER subset of the emitted set; `strict == false` is the plain
      subset test. */
  predicate Ready(e: EntityType, emitted: set<string>, strict: bool)
  {
    var sup := set s | s in e.supertypes;
    |e.supertypes| == 0 || (if strict then sup < emitted else sup <= emitted)
  }

  /** The rest of one pass of the `for name, type in entities` loop, from
      position `i`: the emitted set afterwards and the positions emitted, in
      order. An entity emitted earlier in the pass counts at once. */
  function Pass(es: seq<EntityType>, i: nat, emitted: set<string>, strict: bool): (r: (set<string>, seq<nat>))
    requires i <= |es|
    ensures emitted <= r.0 <= emitted + Names(es)
    ensures r.1 == [] <==> r.0 == emitted
    decreases |es| - i
  {
    if i == |es| then (emitted, [])
    else if es[i].name in emitted then Pass(es, i + 1, emitted, strict)
    else if Ready(es[i], emitted, strict) then
      var rest := Pass(es, i + 1, emitted + {es[i].name}, strict);
      (rest.0, [i] + rest.1)
    else Pass(es, i + 1, emitted, strict)
  }

  /** The `while len(emitted) < len(entities)` loop from a given emitted
      set: the positions in emission order, or None when a pass emits
      nothing, where the source loops forever. */
  function Schedule(es: seq<EntityType>, emitted: set<string>, strict: bool): Option<seq<nat>>
    requires emitted <= Names(es)
    decreases Names(es) - emitted
  {
    if emitted == Names(es) then Some([])
    else
      var p := Pass(es, 0, emitted, strict);
      if p.1 == [] then None
      else
        match Schedule(es, p.0, strict)
        case None => None
        case Some(rest) => Some(p.1 + rest)
  }

  /** The emitted set after emitting the entities at positions `o`. */
  function After(es: seq<EntityType>, emitted: set<string>, o: seq<nat>): set<string>
    decreases |o|
  {
    if o == [] then emitted
    else After(es, if o[0] < |es| then emitted + {es[o[0]].name} else emitted, o[1..])
  }

  /** Emitting the entities at `o` in turn is allowed: each is an entity
      not emitted yet and ready at its turn. */
  predicate EmitsInOrder(es: seq<EntityType>, emitted: set<string>, o: seq<nat>, strict: bool)
    decreases |o|
  {
    o == [] ||
    (o[0] < |es| && es[o[0]].name !in emitted && Ready(es[o[0]], emitted, strict) &&
     EmitsInOrder(es, emitted + {es[o[0]].name}, o[1..], strict))
  }

  /** A pass emits in order, and what it reports as emitted is what its
      positions add. */
  lemma {:induction false} PassSound(es: seq<EntityType>, i: nat, emitted: set<string>, strict: bool)
    requires i <= |es|
    ensures EmitsInOrder(es, emitted, Pass(es, i, emitted, strict).1, strict)
    ensures Pass(es, i, emitted, strict).0 == After(es, emitted, Pass(es, i, emitted, strict).1)
    decreases |es| - i
  {
    if i < |es| {
      if es[i].name !in emitted && Ready(es[i], emitted, strict) {
        var e' := emitted + {es[i].name};
        PassSound(es, i + 1, e', strict);
        var o := [i] + Pass(es, i + 1, e', strict).1;
        assert o[1..] == Pass(es, i + 1, e', strict).1;
      } else {
        PassSound(es, i + 1, emitted, strict);
      }
    }
  }

  /** Emitting `a` then `b` is emitting `a + b`. */
  lemma {:induction false} EmitsAppend(es: seq<EntityType>, emitted: set<string>, a: seq<nat>, b: seq<nat>, strict: bool)
    requires EmitsInOrder(es, emitted, a, strict) && EmitsInOrder(es, After(es, emitted, a), b, strict)
    ensures EmitsInOrder(es, emitted, a + b, strict)
    ensures After(es, emitted, a + b) == After(es, After(es, emitted, a), b)
    decreases |a|
  {
    if a != [] {
      EmitsAppend(es, emitted + {es[a[0]].name}, a[1..], b, strict);
      assert (a + b)[1..] == a[1..] + b;
    } else {
      assert a + b == b;
    }
  }

  /** Emitting only ever adds entity names. */
  lemma {:induction false} AfterGrows(es: seq<EntityType>, emitted: set<string>, o: seq<nat>)
    ensures emitted <= After(es, emitted, o) <= emitted + Names(es)
    decreases |o|
  {
    if o != [] {
      var e' := if o[0] < |es| then emitted + {es[o[0]].name} else emitted;
      AfterGrows(es, e', o[1..]);
    }
  }

  /** In an order that is allowed no entity is emitted twice. */
  lemma {:induction false} EmitsOnce(es: seq<EntityType>, emitted: set<string>, o: seq<nat>, strict: bool)
    requires EmitsInOrder(es, emitted, o, strict)
    ensures forall k :: 0 <= k < |o| ==> o[k] < |es| && es[o[k]].name !in emitted
    ensures forall k, l :: 0 <= k < l < |o| ==> es[o[k]].name != es[o[l]].name
    decreases |o|
  {
    if o != [] {
      EmitsOnce(es, emitted + {es[o[0]].name}, o[1..], strict);
      forall k | 0 < k < |o| ensures o[k] == o[1..][k - 1] { }
    }
  }

  /** A finished schedule emits every entity exactly once, each when it
      is ready. */
  lemma {:induction false} ScheduleSound(es: seq<EntityType>, emitted: set<string>, strict: bool)
    requires emitted <= Names(es) && Schedule(es, emitted, strict).Some?
    ensures EmitsInOrder(es, emitted, Schedule(es, emitted, strict).value, strict)
    ensures After(es, emitted, Schedule(es, emitted, strict).value) == Names(es)
    decreases Names(es) - emitted
  {
    if emitted != Names(es) {
      var p := Pass(es, 0, emitted, strict);
      PassSound(es, 0, emitted, strict);
      ScheduleSound(es, p.0, strict);
      EmitsAppend(es, emitted, p.1, Schedule(es, p.0, strict).value, strict);
    }
  }

  /** A pass emits something when some entity from `i` on is pending and
      ready: readiness only grows as the pass emits. */
  lemma {:induction false} PassProgress(es: seq<EntityType>, i: nat, emitted: set<string>, strict: bool, j: nat)
    requires i <= j < |es| && es[j].name !in emitted && Ready(es[j], emitted, strict)
    ensures Pass(es, i, emitted, strict).1 != []
    decreases |es| - i
  {
    if es[i].name in emitted || !Ready(es[i], emitted, strict) {
      assert j != i;
      PassProgress(es, i + 1, emitted, strict, j);
    }
  }

  /** The supertype set of the two-entity example: `B` derives from `A`. */
  lemma ExampleSupertypes(es: seq<EntityType>)
    requires es == [EntityType("A", [], []), EntityType("B", ["A"], [])]
    ensures Names(es) == {"A", "B"}
    ensures (set s | s in es[1].supertypes) == {"A"}
  {
    assert es[0].name == "A" && es[1].name == "B";
    assert "A" in es[1].supertypes;
  }

  /** As written, a root entity `A` with one subtype `B` never finishes:
      after `A` is emitted, `{A} < {A}` is false on every later pass. */
  lemma ProperSubsetHangs()
    ensures Schedule([EntityType("A", [], []), EntityType("B", ["A"], [])], {}, true).None?
  {
    var es := [EntityType("A", [], []), EntityType("B", ["A"], [])];
    ExampleSupertypes(es);
    var a: set<string> := {"A"};
    assert {} + {es[0].name} == a;
    assert es[1].name !in a && !Ready(es[1], a, true);
    assert Pass(es, 2, a, true) == (a, []);
    assert Pass(es, 1, a, true) == (a, []);
    assert es[0].name !in {} && Ready(es[0], {}, true);
    var r1 := Pass(es, 1, {} + {es[0].name}, true);
    assert Pass(es, 0, {}, true) == (r1.0, [0] + r1.1);
    assert r1 == (a, []);
    assert [0] + r1.1 == [0];
    assert es[0].name in a;
    assert Pass(es, 0, a, true) == (a, []);
    assert a != Names(es);
  }

  /** With the plain subset test the same schema is emitted parent first. */
  lemma SubsetEmitsChild()
    ensures Schedule([EntityType("A", [], []), EntityType("B", ["A"], [])], {}, false) == Some([0, 1])
  {
    var es := [EntityType("A", [], []), EntityType("B", ["A"], [])];
    ExampleSupertypes(es);
    var a: set<string> := {"A"};
    var ab: set<string> := {"A", "B"};
    assert {} + {es[0].name} == a;
    assert a + {es[1].name} == ab;
    assert es[1].name !in a && Ready(es[1], a, false);
    assert Pass(es, 2, ab, false) == (ab, []);
    var r2 := Pass(es, 2, a + {es[1].name}, false);
    assert r2 == (ab, []) && [1] + r2.1 == [1];
    assert Pass(es, 1, a, false) == (ab, [1]);
    var r1 := Pass(es, 1, {} + {es[0].name}, false);
    assert r1 == (ab, [1]) && [0] + r1.1 == [0, 1];
    assert Pass(es, 0, {}, false) == (ab, [0, 1]);
    assert ab == Names(es);
    assert Schedule(es, ab, false) == Some([]);
    assert [0, 1] + [] == [0, 1];
  }

  /** Every supertype names an entity, and supertypes rank lower. */
  predicate Hierarchy(es: seq<EntityType>, rank: map<string, nat>)
  {
    (forall k :: 0 <= k < |es| ==> es[k].name in rank) &&
    forall k, s :: 0 <= k < |es| && s in es[k].supertypes ==> s in Names(es) && s in rank && rank[s] < rank[es[k].name]
  }

  /** With the plain subset test and an acyclic hierarchy, some pending
      entity is ready whenever one is pending. */
  lemma {:induction false} SomeReady(es: seq<EntityType>, rank: map<string, nat>, emitted: set<string>, j: nat)
    requires Hierarchy(es, rank) && j < |es| && es[j].name !in emitted
    ensures exists m :: 0 <= m < |es| && es[m].name !in emitted && Ready(es[m], emitted, false)
    decreases rank[es[j].name]
  {
    if !Ready(es[j], emitted, false) {
      var sup := set s | s in es[j].supertypes;
      var s :| s in sup && s !in emitted;
      assert s in es[j].supertypes;
      assert s in Names(es);
      var m :| 0 <= m < |es| && es[m].name == s;
      SomeReady(es, rank, emitted, m);
    }
  }

  /** The corrected loop always finishes on an acyclic hierarchy whose
      supertypes are all entities. */
  lemma {:induction false} SubsetTerminates(es: seq<EntityType>, rank: map<string, nat>, emitted: set<string>)
    requires Hierarchy(es, rank) && emitted <= Names(es)
    ensures Schedule(es, emitted, false).Some?
    decreases Names(es) - emitted
  {
    if emitted != Names(es) {
      var x :| x in Names(es) && x !in emitted;
      var j :| 0 <= j < |es| && es[j].name == x;
      SomeReady(es, rank, emitted, j);
      var m :| 0 <= m < |es| && es[m].name !in emitted && Ready(es[m], emitted, false);
      PassProgress(es, 0, emitted, false, m);
      var p := Pass(es, 0, emitted, false);
      SubsetTerminates(es, rank, p.0);
    }
  }

  /** The descriptor of an entity: parent `0` unless there is exactly one
      supertype, and its own attributes. */
  function Describe(e: EntityType): (d: EntityDescriptor)
  {
    EntityDescriptor(e.name, if |e.supertypes| == 1 then Some(e.supertypes[0]) else None,
                     seq(|Own(e.arguments)|, k requires 0 <= k < |Own(e.arguments)| => AttributeOf(Own(e.arguments)[k])))
  }

  /** The parent link names the one supertype, and only then. */
  lemma DescribeParent(e: EntityType)
    ensures Describe(e).parent.Some? <==> |e.supertypes| == 1
    ensures |e.supertypes| == 1 ==> Describe(e).parent == Some(e.supertypes[0])
    ensures forall d :: d in Describe(e).attributes <==> exists a :: a in e.arguments && !a.isInherited && d == AttributeOf(a)
  {
    OwnMembers(e.arguments);
    var ds := Describe(e).attributes;
    forall d | d in ds ensures exists a :: a in e.arguments && !a.isInherited && d == AttributeOf(a) {
      var k :| 0 <= k < |ds| && ds[k] == d;
      assert Own(e.arguments)[k] in Own(e.arguments);
    }
    forall a | a in e.arguments && !a.isInherited ensures AttributeOf(a) in ds {
      var k :| 0 <= k < |Own(e.arguments)| && Own(e.arguments)[k] == a;
      assert ds[k] == AttributeOf(a);
    }
  }

  /** The descriptors of the entities at positions `o`, in order. */
  predicate DescribesAt(es: seq<EntityType>, o: seq<nat>, ds: seq<EntityDescriptor>)
  {
    |ds| == |o| && forall k :: 0 <= k < |o| ==> o[k] < |es| && ds[k] == Describe(es[o[k]])
  }

  /** One pass of the `for` loop over all entities, emitting each
      pending entity whose supertypes are a proper subset of the emitted
      set. */
  method EmitPass(es: seq<EntityType>, emitted0: set<string>) returns (emitted: set<string>, ds: seq<EntityDescriptor>, ghost o: seq<nat>)
    ensures (emitted, o) == Pass(es, 0, emitted0, true)
    ensures DescribesAt(es, o, ds)
  {
    emitted, ds, o := emitted0, [], [];
    var k := 0;
    assert o + Pass(es, 0, emitted, true).1 == Pass(es, 0, emitted, true).1;
    while k < |es|
      invariant k <= |es|
      invariant Pass(es, 0, emitted0, true) == (Pass(es, k, emitted, true).0, o + Pass(es, k, emitted, true).1)
      invariant DescribesAt(es, o, ds)
    {
      var e := es[k];
      PassStep(es, k, emitted, o);
      if e.name !in emitted && Ready(e, emitted, true) {
        var attrs := AttributeDescriptors(e.arguments);
        emitted := emitted + {e.name};
        var parent := if |e.supertypes| != 1 then None else Some(e.supertypes[0]);
        ds := ds + [EntityDescriptor(e.name, parent, attrs)];
        o := o + [k];
        assert Describe(e).attributes == attrs;
      }
      k := k + 1;
    }
    assert o + [] == o;
  }

  /** One step of a pass, seen from the positions emitted so far. */
  lemma PassStep(es: seq<EntityType>, k: nat, emitted: set<string>, o: seq<nat>)
    requires k < |es|
    ensures var r := Pass(es, k, emitted, true);
      if es[k].name !in emitted && Ready(es[k], emitted, true) then
        var r' := Pass(es, k + 1, emitted + {es[k].name}, true);
        r == (r'.0, [k] + r'.1) && o + r.1 == (o + [k]) + r'.1
      else r == Pass(es, k + 1, emitted, true)
  {
    if es[k].name !in emitted && Ready(es[k], emitted, true) {
      var r' := Pass(es, k + 1, emitted + {es[k].name}, true);
      assert o + ([k] + r'.1) == (o + [k]) + r'.1;
    }
  }

  /** The entity descriptors in emission order, or None where the source
      never leaves its `while` loop. */
  method EntityDescriptors(es: seq<EntityType>) returns (r: Option<seq<EntityDescriptor>>)
    requires UniqueNames(es)
    ensures r.None? <==> Schedule(es, {}, true).None?
    ensures r.Some? ==> DescribesAt(es, Schedule(es, {}, true).value, r.value)
  {
    ghost var whole := Schedule(es, {}, true);
    var emitted: set<string> := {};
    var out: seq<EntityDescriptor> := [];
    ghost var done: seq<nat> := [];
    assert whole == (match Schedule(es, emitted, true) case None => None case Some(rest) => Some(done + rest)) by {
      if whole.Some? { assert done + whole.value == whole.value; }
    }
    while |emitted| < |es|
      invariant emitted <= Names(es)
      invariant whole == (match Schedule(es, emitted, true) case None => None case Some(rest) => Some(done + rest))
      invariant DescribesAt(es, done, out)
      decreases Names(es) - emitted
    {
      ghost var before := emitted;
      NamesCount(es);
      var ds;
      ghost var o;
      emitted, ds, o := EmitPass(es, emitted);
      if ds == [] {
        return None;
      }
      LessPending(Names(es), before, emitted);
      ScheduleStep(es, before, done);
      DescribesAppend(es, done, o, out, ds);
      done, out := done + o, out + ds;
    }
    SubsetOfNames(es, emitted);
    assert done + [] == done;
    return Some(out);
  }

  /** One more pass of the schedule. */
  lemma ScheduleStep(es: seq<EntityType>, emitted: set<string>, done: seq<nat>)
    requires emitted <= Names(es) && emitted != Names(es) && Pass(es, 0, emitted, true).1 != []
    ensures var p := Pass(es, 0, emitted, true);
      (match Schedule(es, emitted, true) case None => None case Some(rest) => Some(done + rest)) ==
      (match Schedule(es, p.0, true) case None => None case Some(rest) => Some((done + p.1) + rest))
  {
    var p := Pass(es, 0, emitted, true);
    match Schedule(es, p.0, true)
    case None =>
    case Some(rest) =>
      assert done + (p.1 + rest) == (done + p.1) + rest;
  }

  lemma DescribesAppend(es: seq<EntityType>, o1: seq<nat>, o2: seq<nat>, d1: seq<EntityDescriptor>, d2: seq<EntityDescriptor>)
    requires DescribesAt(es, o1, d1) && DescribesAt(es, o2, d2)
    ensures DescribesAt(es, o1 + o2, d1 + d2)
  {
    forall k | |o1| <= k < |o1| + |o2| ensures (o1 + o2)[k] == o2[k - |o1|] && (d1 + d2)[k] == d2[k - |o1|] { }
  }

  lemma LessPending(all: set<string>, before: set<string>, after: set<string>)
    requires before <= after <= all && after != before
    ensures all - after < all - before
  {
    var x :| x in after && x !in before;
  }

  lemma {:induction false} NamesCount(es: seq<EntityType>)
    requires UniqueNames(es)
    ensures |Names(es)| == |es|
  {
    if es != [] {
      var init := es[..|es| - 1];
      NamesCount(init);
      assert Names(es) == Names(init) + {es[|es| - 1].name} by {
        forall x | x in Names(es) ensures x in Names(init) + {es[|es| - 1].name} {
          var k :| 0 <= k < |es| && es[k].name == x;
          if k < |es| - 1 { assert init[k].name == x; }
        }
      }
      assert es[|es| - 1].name !in Names(init);
    }
  }

  /** Once as many names are emitted as there are entities, all are. */
  lemma SubsetOfNames(es: seq<EntityType>, emitted: set<string>)
    requires UniqueNames(es) && emitted <= Names(es) && |emitted| >= |es|
    ensures emitted == Names(es)
  {
    NamesCount(es);
    if emitted != Names(es) {
      ProperSubsetCard(emitted, Names(es));
    }
  }

  lemma ProperSubsetCard(a: set<string>, b: set<string>)
    requires a < b
    ensures |a| < |b|
  {
    var x :| x in b && x !in a;
    SubsetCard(a, b - {x});
  }

  lemma {:induction false} SubsetCard(a: set<string>, b: set<string>)
    requires a <= b
    ensures |a| <= |b|
    decreases a
  {
    if a != {} {
      var x :| x in a;
      SubsetCard(a - {x}, b - {x});
    }
  }

  // ---- enumerations and derived fields -----------------------------------------

  /** One enumeration descriptor per enumeration, values in declaration
      order. */
  method EnumerationDescriptors(enums: seq<EnumerationType>) returns (r: seq<EnumerationDescriptor>)
    ensures |r| == |enums|
    ensures forall k :: 0 <= k < |enums| ==> r[k].name == enums[k].name && r[k].values == enums[k].values
  {
    r := [];
    var k := 0;
    while k < |enums|
      invariant k <= |enums| && |r| == k
      invariant forall m :: 0 <= m < k ==> r[m].name == enums[m].name && r[m].values == enums[m].values
    {
      r := r + [EnumerationDescriptor(enums[k].name, enums[k].values)];
      k := k + 1;
    }
  }

  /** `index - 1` of every derived argument, in order. */
  function DerivedIndices(args: seq<Argument>): (r: seq<int>)
    ensures |r| <= |args|
  {
    if args == [] then []
    else (if args[0].isDerived then [args[0].index - 1] else []) + DerivedIndices(args[1..])
  }

  /** The list is empty exactly when no argument is derived. */
  lemma {:induction false} DerivedIndicesEmpty(args: seq<Argument>)
    ensures DerivedIndices(args) == [] <==> forall k :: 0 <= k < |args| ==> !args[k].isDerived
  {
    if args != [] {
      DerivedIndicesEmpty(args[1..]);
      forall k | 1 <= k < |args| ensures args[k] == args[1..][k - 1] { }
    }
  }

  /** It holds `index - 1` of every derived argument and nothing else. */
  lemma {:induction false} DerivedIndicesMembers(args: seq<Argument>, x: int)
    ensures x in DerivedIndices(args) <==> exists k :: 0 <= k < |args| && args[k].isDerived && x == args[k].index - 1
  {
    if args != [] {
      DerivedIndicesMembers(args[1..], x);
      if x in DerivedIndices(args[1..]) {
        var k :| 0 <= k < |args[1..]| && args[1..][k].isDerived && x == args[1..][k].index - 1;
        assert args[k + 1] == args[1..][k];
      }
      if k :| 0 <= k < |args| && args[k].isDerived && x == args[k].index - 1 {
        if k > 0 {
          assert args[1..][k - 1] == args[k];
        }
      }
    }
  }

  /** The derived-field routine of each entity that has a derived
      argument, in entity order. */
  function DerivedOf(es: seq<EntityType>): seq<DerivedFields>
  {
    if es == [] then []
    else
      var ix := DerivedIndices(es[0].arguments);
      (if |ix| > 0 then [DerivedFields(es[0].name, ix)] else []) + DerivedOf(es[1..])
  }

  /** Exactly the entities with a derived argument get a routine. */
  lemma {:induction false} DerivedOfMembers(es: seq<EntityType>)
    ensures forall d :: d in DerivedOf(es) ==> (|d.indices| > 0 &&
      exists e :: e in es && e.name == d.name && d.indices == DerivedIndices(e.arguments))
    ensures forall e :: e in es && DerivedIndices(e.arguments) != [] ==>
      DerivedFields(e.name, DerivedIndices(e.arguments)) in DerivedOf(es)
  {
    if es != [] {
      DerivedOfMembers(es[1..]);
      assert es == [es[0]] + es[1..];
    }
  }

  /** The last `for name, type in entities` loop. */
  method DerivedFieldStatements(es: seq<EntityType>) returns (r: seq<DerivedFields>)
    ensures r == DerivedOf(es)
  {
    r := [];
    var k := 0;
    while k < |es|
      invariant k <= |es|
      invariant DerivedOf(es) == r + DerivedOf(es[k..])
    {
      assert es[k..][1..] == es[k + 1..];
      var statements := DerivedIndices(es[k].arguments);
      if |statements| > 0 {
        r := r + [DerivedFields(es[k].name, statements)];
      }
      k := k + 1;
    }
  }

  /** Everything the constructor builds; None where its entity loop never
      ends. */
  datatype Tables = Tables(entityDescriptors: seq<EntityDescriptor>, enumerationDescriptors: seq<EnumerationDescriptor>,
                           derivedFields: seq<DerivedFields>)

  /** `RuntimeTypingImplementation.__init__`: simple type descriptors, then
      entity descriptors, then the enumeration and derived-field tables. */
  method Build(simple: seq<SimpleType>, es: seq<EntityType>, enums: seq<EnumerationType>) returns (r: Option<Tables>)
    requires UniqueNames(es)
    ensures r.None? <==> Schedule(es, {}, true).None?
    ensures r.Some? ==> (|r.value.entityDescriptors| >= |simple| &&
      (forall k :: 0 <= k < |simple| ==>
        r.value.entityDescriptors[k] == EntityDescriptor(simple[k].name, None,
          [AttributeDescriptor("wrappedValue", "false", simple[k].argType, None)])) &&
      DescribesAt(es, Schedule(es, {}, true).value, r.value.entityDescriptors[|simple|..]) &&
      |r.value.enumerationDescriptors| == |enums| &&
      (forall k :: 0 <= k < |enums| ==>
        r.value.enumerationDescriptors[k].name == enums[k].name &&
        r.value.enumerationDescriptors[k].values == enums[k].values) &&
      r.value.derivedFields == DerivedOf(es))
  {
    var simpleDs := SimpleDescriptors(simple);
    var entityDs := EntityDescriptors(es);
    if entityDs.None? {
      return None;
    }
    var enumDs := EnumerationDescriptors(enums);
    var derived := DerivedFieldStatements(es);
    assert (simpleDs + entityDs.value)[|simple|..] == entityDs.value;
    assert forall k :: 0 <= k < |simple| ==> (simpleDs + entityDs.value)[k] == simpleDs[k];
    return Some(Tables(simpleDs + entityDs.value, enumDs, derived));
  }
}
