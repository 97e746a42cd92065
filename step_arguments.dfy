/** The argument reader of the STEP parser (IfcParse.cpp, `ArgumentList`,
    `TokenArgument`, `EntityArgument`, `Entity::Load`): a parenthesised,
    comma-separated list of tokens, nested lists and typed values such as
    `IFCLABEL('x')`, read from the token stream, collecting the number of
    every `#n` it meets. */
module StepArguments {
  import opened Wrappers
  import opened StepFile
  import opened StepLexer

  /** An argument: a token, a nested list, or a typed value (an entity
      with id 0, its datatype name as written, the position of that name,
      and its own arguments). */
  datatype Argument =
    | TokenArgument(token: Token)
    | ListArgument(items: seq<Argument>)
    | EntityArgument(typeName: seq<char>, offset: nat, args: seq<Argument>)

  /** What one reading of a list yields: the items, the id vector after
      it, and where the cursor is left. */
  datatype Read = Read(items: seq<Argument>, ids: seq<nat>, pos: nat)

  /** The conversion of `int` to `unsigned int`. */
  function ToU32(x: int): nat { x % U32 }

  /** A measure of the input left from `p`. */
  function Rank(s: seq<char>, p: nat): nat
  {
    if p <= |s| then |s| + 1 - p else 0
  }

  /** The `ArgumentList` constructor from cursor `p`: `,` is skipped, `)`
      (or the end of the tokens) closes the list, `(` reads a nested list,
      a datatype token reads a typed value, anything else is a token
      argument; the number of every identifier is appended to `ids`. */
  function ReadList(s: seq<char>, p: nat, ids: seq<nat>): (r: Result<Read>)
    ensures r.Success? ==> p <= r.value.pos && (p <= |s| ==> r.value.pos <= |s|)
    decreases 2 * Rank(s, p) + 2, 0
  {
    NextShape'(s, p);
    var (next, p1) := NextToken(s, p);
    if next == NullToken then Success(Read([], ids, p1))
    else if IsOperator(next, ',') then ReadList(s, p1, ids)
    else if IsOperator(next, ')') then Success(Read([], ids, p1))
    else if IsOperator(next, '(') then
      match ReadList(s, p1, ids)
      case Failure(e) => Failure(e)
      case Success(sub) =>
        Prepend(ListArgument(sub.items), ReadList(s, sub.pos, sub.ids))
    else
      var ids' := IdsAfter(s, next, ids);
      if IsDatatype(s, next) then
        match LoadAt(s, Offset(next), ids')
        case Failure(e) => Failure(e)
        case Success(l) =>
          Prepend(EntityArgument(l.0, Offset(next), l.1.items), ReadList(s, l.1.pos, l.1.ids))
      else Prepend(TokenArgument(next), ReadList(s, p1, ids'))
  }

  /** `NextShape` for any cursor: past the end there is only the null
      token. */
  lemma NextShape'(s: seq<char>, p: nat)
    ensures NextToken(s, p).0 != NullToken ==> p < NextToken(s, p).1 <= |s|
    ensures NextToken(s, p).0 >= 128 ==> p <= Offset(NextToken(s, p).0) < |s|
    ensures p <= NextToken(s, p).1 && (p <= |s| ==> NextToken(s, p).1 <= |s|)
  {
    if p <= |s| {
      NextShape(s, p);
    }
  }

  function Prepend(a: Argument, r: Result<Read>): Result<Read>
  {
    match r
    case Failure(e) => Failure(e)
    case Success(rest) => Success(Read([a] + rest.items, rest.ids, rest.pos))
  }

  /** `Entity::Load(ids, true)` at position `o`: the datatype token (an
      error if it is not one), one token assumed to be `(`, the argument
      list, then a `;` that is consumed only if it is there. Yields the
      datatype name and the list read. */
  function LoadAt(s: seq<char>, o: nat, ids: seq<nat>): (r: Result<(seq<char>, Read)>)
    ensures r.Success? ==> o < r.value.1.pos <= |s|
    decreases 2 * Rank(s, o) + 1, 0
  {
    NextShape'(s, o);
    var (dt, p1) := NextToken(s, o);
    if !IsDatatype(s, dt) then Failure(Unexpected)
    else
      var name := TokenText(s, Offset(dt));
      NextShape'(s, p1);
      var p2 := NextToken(s, p1).1;
      match ReadList(s, p2, ids)
      case Failure(e) => Failure(e)
      case Success(r) =>
        NextShape'(s, r.pos);
        var (semi, p3) := NextToken(s, r.pos);
        Success((name, Read(r.items, r.ids, if IsOperator(semi, ';') then p3 else r.pos)))
  }

  /** The one exception the reader raises is an entity without a datatype. */
  const Unexpected := "Unexpected token while parsing entity"

  lemma {:induction false} ReadListError(s: seq<char>, p: nat, ids: seq<nat>)
    ensures ReadList(s, p, ids).Failure? ==> ReadList(s, p, ids).error == Unexpected
    decreases 2 * Rank(s, p) + 2, 1
  {
    NextShape'(s, p);
    var (next, p1) := NextToken(s, p);
    if ReadList(s, p, ids).Failure? && ItemToken(next) {
      if IsDatatype(s, next) {
        ReadListErrorEntity(s, p, ids);
      } else {
        ReadListError(s, p1, IdsAfter(s, next, ids));
      }
    } else if ReadList(s, p, ids).Failure? && IsOperator(next, ',') {
      ReadListError(s, p1, ids);
    } else if ReadList(s, p, ids).Failure? && IsOperator(next, '(') {
      ReadListError(s, p1, ids);
      if ReadList(s, p1, ids).Success? {
        var sub := ReadList(s, p1, ids).value;
        ReadListError(s, sub.pos, sub.ids);
      }
    }
  }

  lemma {:induction false} ReadListErrorEntity(s: seq<char>, p: nat, ids: seq<nat>)
    requires ItemToken(NextToken(s, p).0) && IsDatatype(s, NextToken(s, p).0)
    ensures ReadList(s, p, ids).Failure? ==> ReadList(s, p, ids).error == Unexpected
    decreases 2 * Rank(s, p) + 2, 0
  {
    NextShape'(s, p);
    var next := NextToken(s, p).0;
    var ids' := IdsAfter(s, next, ids);
    LoadAtError(s, Offset(next), ids');
    if LoadAt(s, Offset(next), ids').Success? {
      var l := LoadAt(s, Offset(next), ids').value;
      ReadListError(s, l.1.pos, l.1.ids);
    }
  }

  lemma {:induction false} LoadAtError(s: seq<char>, o: nat, ids: seq<nat>)
    ensures LoadAt(s, o, ids).Failure? ==> LoadAt(s, o, ids).error == Unexpected
    decreases 2 * Rank(s, o) + 1, 0
  {
    NextShape'(s, o);
    var (dt, p1) := NextToken(s, o);
    if IsDatatype(s, dt) {
      NextShape'(s, p1);
      ReadListError(s, NextToken(s, p1).1, ids);
    }
  }

  // ---- what a list holds -------------------------------------------------------

  function Size(a: Argument): nat
  {
    match a
    case TokenArgument(_) => 1
    case ListArgument(items) => 1 + SizeAll(items)
    case EntityArgument(_, _, args) => 1 + SizeAll(args)
  }

  function SizeAll(items: seq<Argument>): nat
  {
    if items == [] then 0 else 1 + Size(items[0]) + SizeAll(items[1..])
  }

  /** The numbers of the identifiers in `items`, depth first. */
  function IdsOf(s: seq<char>, items: seq<Argument>): seq<nat>
    decreases SizeAll(items), 0
  {
    if items == [] then []
    else ItemIds(s, items[0]) + IdsOf(s, items[1..])
  }

  function ItemIds(s: seq<char>, a: Argument): seq<nat>
    decreases Size(a), 1
  {
    match a
    case TokenArgument(t) => if IsIdentifier(s, t) then [ToU32(AsInt(s, t).value)] else []
    case ListArgument(items) => assert SizeAll(items) < Size(a); IdsOf(s, items)
    case EntityArgument(_, _, args) => assert SizeAll(args) < Size(a); IdsOf(s, args)
  }

  /** The id vector grows by exactly the identifiers of what was read, in
      reading order. */
  lemma {:induction false} ReadIds(s: seq<char>, p: nat, ids: seq<nat>)
    ensures ReadList(s, p, ids).Success? ==> ReadList(s, p, ids).value.ids == ids + IdsOf(s, ReadList(s, p, ids).value.items)
    decreases 2 * Rank(s, p) + 2, 1
  {
    NextShape'(s, p);
    var (next, p1) := NextToken(s, p);
    if ReadList(s, p, ids).Success? && next != NullToken && !IsOperator(next, ')') {
      if IsOperator(next, ',') {
        ReadIds(s, p1, ids);
      } else if IsOperator(next, '(') {
        ReadIdsNested(s, p, ids);
      } else if IsDatatype(s, next) {
        ReadIdsEntity(s, p, ids);
      } else {
        ReadIdsToken(s, p, ids);
      }
    }
  }

  /** The case of a nested list. */
  lemma {:induction false} ReadIdsNested(s: seq<char>, p: nat, ids: seq<nat>)
    requires IsOperator(NextToken(s, p).0, '(') && ReadList(s, p, ids).Success?
    ensures ReadList(s, p, ids).value.ids == ids + IdsOf(s, ReadList(s, p, ids).value.items)
    decreases 2 * Rank(s, p) + 2, 0
  {
    NextShape'(s, p);
    var p1 := NextToken(s, p).1;
    ReadIds(s, p1, ids);
    var sub := ReadList(s, p1, ids).value;
    ReadIds(s, sub.pos, sub.ids);
    var a := ListArgument(sub.items);
    assert ReadList(s, p, ids) == Prepend(a, ReadList(s, sub.pos, sub.ids));
    PrependChain(s, ids, a, sub.ids, ReadList(s, sub.pos, sub.ids).value);
  }

  /** The ids of one item followed by a list read after it. */
  lemma PrependChain(s: seq<char>, ids: seq<nat>, a: Argument, mid: seq<nat>, rest: Read)
    requires mid == ids + ItemIds(s, a) && rest.ids == mid + IdsOf(s, rest.items)
    ensures rest.ids == ids + IdsOf(s, [a] + rest.items)
  {
    PrependIds(a, s, rest);
    assert ids + (ItemIds(s, a) + IdsOf(s, rest.items)) == ids + ItemIds(s, a) + IdsOf(s, rest.items);
  }

  /** A token that is neither a separator nor an opener. */
  predicate ItemToken(t: Token)
  {
    t != NullToken && !IsOperator(t, ',') && !IsOperator(t, ')') && !IsOperator(t, '(')
  }

  /** `ids` after the item token `t`. */
  function IdsAfter(s: seq<char>, t: Token, ids: seq<nat>): seq<nat>
  {
    if IsIdentifier(s, t) then ids + [ToU32(AsInt(s, t).value)] else ids
  }

  /** The case of a typed value. */
  lemma {:induction false} ReadIdsEntity(s: seq<char>, p: nat, ids: seq<nat>)
    requires ItemToken(NextToken(s, p).0) && IsDatatype(s, NextToken(s, p).0) && ReadList(s, p, ids).Success?
    ensures ReadList(s, p, ids).value.ids == ids + IdsOf(s, ReadList(s, p, ids).value.items)
    decreases 2 * Rank(s, p) + 2, 0
  {
    NextShape'(s, p);
    var next := NextToken(s, p).0;
    assert !IsIdentifier(s, next);
    assert IdsAfter(s, next, ids) == ids;
    var o := Offset(next);
    LoadIds(s, o, ids);
    var l := LoadAt(s, o, ids).value;
    ReadIds(s, l.1.pos, l.1.ids);
    var a := EntityArgument(l.0, o, l.1.items);
    assert ReadList(s, p, ids) == Prepend(a, ReadList(s, l.1.pos, l.1.ids));
    assert ItemIds(s, a) == IdsOf(s, l.1.items);
    PrependChain(s, ids, a, l.1.ids, ReadList(s, l.1.pos, l.1.ids).value);
  }

  /** The case of a plain token. */
  lemma {:induction false} ReadIdsToken(s: seq<char>, p: nat, ids: seq<nat>)
    requires ItemToken(NextToken(s, p).0) && !IsDatatype(s, NextToken(s, p).0) && ReadList(s, p, ids).Success?
    ensures ReadList(s, p, ids).value.ids == ids + IdsOf(s, ReadList(s, p, ids).value.items)
    decreases 2 * Rank(s, p) + 2, 0
  {
    NextShape'(s, p);
    var (next, p1) := NextToken(s, p);
    var ids' := IdsAfter(s, next, ids);
    ReadIds(s, p1, ids');
    assert ReadList(s, p, ids) == Prepend(TokenArgument(next), ReadList(s, p1, ids'));
    PrependChain(s, ids, TokenArgument(next), ids', ReadList(s, p1, ids').value);
  }

  lemma {:induction false} LoadIds(s: seq<char>, o: nat, ids: seq<nat>)
    ensures LoadAt(s, o, ids).Success? ==> LoadAt(s, o, ids).value.1.ids == ids + IdsOf(s, LoadAt(s, o, ids).value.1.items)
    decreases 2 * Rank(s, o) + 1, 0
  {
    NextShape'(s, o);
    var (dt, p1) := NextToken(s, o);
    if IsDatatype(s, dt) {
      NextShape'(s, p1);
      ReadIds(s, NextToken(s, p1).1, ids);
    }
  }

  lemma PrependIds(a: Argument, s: seq<char>, rest: Read)
    ensures IdsOf(s, [a] + rest.items) == ItemIds(s, a) + IdsOf(s, rest.items)
  {
    assert ([a] + rest.items)[1..] == rest.items;
  }

  /** A list read never holds the separators `,` and `)`, the opener `(`
      or the null token: those shape the list instead. */
  lemma {:induction false} ReadItemsShape(s: seq<char>, p: nat, ids: seq<nat>)
    ensures ReadList(s, p, ids).Success? ==>
      forall k :: 0 <= k < |ReadList(s, p, ids).value.items| ==> Plain(ReadList(s, p, ids).value.items[k])
    decreases 2 * Rank(s, p) + 2, 0
  {
    NextShape'(s, p);
    var (next, p1) := NextToken(s, p);
    var r := ReadList(s, p, ids);
    if r.Success? && next != NullToken && !IsOperator(next, ')') {
      if IsOperator(next, ',') {
        ReadItemsShape(s, p1, ids);
      } else if IsOperator(next, '(') {
        var sub := ReadList(s, p1, ids).value;
        ReadItemsShape(s, sub.pos, sub.ids);
        PrependShape(ListArgument(sub.items), ReadList(s, sub.pos, sub.ids).value);
      } else {
        var ids' := IdsAfter(s, next, ids);
        if IsDatatype(s, next) {
          var l := LoadAt(s, Offset(next), ids').value;
          ReadItemsShape(s, l.1.pos, l.1.ids);
          PrependShape(EntityArgument(l.0, Offset(next), l.1.items), ReadList(s, l.1.pos, l.1.ids).value);
        } else {
          ReadItemsShape(s, p1, ids');
          PrependShape(TokenArgument(next), ReadList(s, p1, ids').value);
        }
      }
    }
  }

  /** An item that is not a separator token. */
  predicate Plain(a: Argument)
  {
    a.TokenArgument? ==> a.token != NullToken && !IsOperator(a.token, ',') && !IsOperator(a.token, ')') && !IsOperator(a.token, '(')
  }

  lemma PrependShape(a: Argument, rest: Read)
    requires Plain(a) && forall k :: 0 <= k < |rest.items| ==> Plain(rest.items[k])
    ensures forall k :: 0 <= k < |([a] + rest.items)| ==> Plain(([a] + rest.items)[k])
  {
    forall k | 0 < k < |([a] + rest.items)| ensures ([a] + rest.items)[k] == rest.items[k - 1] { }
  }

  // ---- the argument interface ------------------------------------------------------

  /** `Size()`: a list's element count; a token or typed value counts 1. */
  function Count(a: Argument): nat
  {
    match a
    case ListArgument(items) => |items|
    case _ => 1
  }

  /** `operator[]`. */
  function At(a: Argument, i: nat): (r: Result<Argument>)
  {
    match a
    case ListArgument(items) => if i >= |items| then Failure("Argument index out of range") else Success(items[i])
    case _ => Failure("Argument is not a list of arguments")
  }

  /** Indexing succeeds exactly on a list below its size, and yields the
      element at that place. */
  lemma AtBounds(a: Argument, i: nat)
    ensures At(a, i).Success? <==> a.ListArgument? && i < Count(a)
    ensures At(a, i).Success? ==> At(a, i).value == a.items[i]
    ensures a.ListArgument? && i >= Count(a) ==> At(a, i) == Failure("Argument index out of range")
  {
  }

  /** `isNull`: only the `$` token. */
  predicate IsNull(a: Argument)
  {
    match a
    case TokenArgument(t) => IsOperator(t, '$')
    case _ => false
  }

  /** `toString`: a token as `asString` gives it (so `$` prints empty and
      the other operators fail), a list as its elements joined by commas
      inside parentheses, and a typed value as `#0=` followed by its name
      and its list. */
  function ArgText(s: seq<char>, a: Argument): Result<seq<char>>
    decreases Size(a), 1
  {
    match a
    case TokenArgument(t) => AsString(s, t)
    case ListArgument(items) =>
      assert SizeAll(items) < Size(a);
      (match Joined(s, items)
       case Failure(e) => Failure(e)
       case Success(body) => Success("(" + body + ")"))
    case EntityArgument(name, _, args) =>
      assert SizeAll(args) < Size(a);
      match Joined(s, args)
      case Failure(e) => Failure(e)
      case Success(body) => Success("#0=" + name + "(" + body + ")")
  }

  /** The elements' texts, comma-separated. */
  function Joined(s: seq<char>, items: seq<Argument>): Result<seq<char>>
    decreases SizeAll(items), 0
  {
    if items == [] then Success("")
    else
      match ArgText(s, items[0])
      case Failure(e) => Failure(e)
      case Success(head) =>
        if |items| == 1 then Success(head)
        else
          match Joined(s, items[1..])
          case Failure(e) => Failure(e)
          case Success(tail) => Success(head + "," + tail)
  }

  /** A list prints when each element prints, and then consists of the
      elements' texts with one comma between neighbours. */
  lemma {:induction false} JoinedParts(s: seq<char>, items: seq<Argument>)
    ensures Joined(s, items).Success? <==> forall k :: 0 <= k < |items| ==> ArgText(s, items[k]).Success?
    ensures Joined(s, items).Success? && |items| > 0 ==>
      |Joined(s, items).value| == Lengths(s, items) + |items| - 1
    decreases |items|
  {
    if items != [] {
      JoinedParts(s, items[1..]);
      forall k | 1 <= k < |items| ensures items[k] == items[1..][k - 1] { }
    }
  }

  /** The total length of the elements' texts, where they all print. */
  function Lengths(s: seq<char>, items: seq<Argument>): nat
    decreases |items|
  {
    if items == [] then 0
    else (if ArgText(s, items[0]).Success? then |ArgText(s, items[0]).value| else 0) + Lengths(s, items[1..])
  }

  /** `$` is the only null argument and prints as nothing. */
  lemma NullPrintsEmpty(s: seq<char>, a: Argument)
    ensures IsNull(a) <==> a == TokenArgument('$' as nat)
    ensures IsNull(a) ==> ArgText(s, a) == Success("")
  {
  }

  // ---- the reader over a token stream ---------------------------------------------

  /** `ArgumentList(t, ids)`. */
  method ReadArguments(t: Tokens, ids: seq<nat>) returns (r: Result<Read>)
    requires t.file.Valid()
    modifies t.file
    ensures t.file.Valid()
    ensures r == ReadList(t.file.content, old(t.file.Tell()), ids)
    ensures r.Success? ==> t.file.Tell() == r.value.pos
    decreases 2 * Rank(t.file.content, t.file.Tell()) + 2, 3
  {
    ghost var s := t.file.content;
    ghost var p0 := t.file.Tell();
    var list: seq<Argument> := [];
    var current := ids;
    assert PrependAll(list, ReadList(s, p0, ids)) == ReadList(s, p0, ids) by {
      if ReadList(s, p0, ids).Success? { assert list + ReadList(s, p0, ids).value.items == ReadList(s, p0, ids).value.items; }
    }
    while true
      invariant t.file.Valid()
      invariant ReadList(s, p0, ids) == PrependAll(list, ReadList(s, t.file.Tell(), current))
      decreases Rank(s, t.file.Tell())
    {
      ghost var p := t.file.Tell();
      NextShape'(s, p);
      var next := t.Next();
      if next == NullToken || IsOperator(next, ')') {
        assert ReadList(s, p, current) == Success(Read([], current, t.file.Tell()));
        assert list + [] == list;
        return Success(Read(list, current, t.file.Tell()));
      }
      ghost var p1 := t.file.Tell();
      assert p < p1 <= |s|;
      if IsOperator(next, ',') {
        RankDown(s, p, p1);
        continue;
      }
      var item := ReadItem(t, next, current, p);
      if item.Failure? {
        return Failure(item.error);
      }
      PrependStep(list, item.value.0, ReadList(s, t.file.Tell(), item.value.1));
      list, current := list + [item.value.0], item.value.1;
    }
  }

  /** One element of the list in `ArgumentList(t, ids)`, after its first
      token `next` was read at `p`: a nested list, a typed value or a
      token, and the id vector after it. */
  method ReadItem(t: Tokens, next: Token, current: seq<nat>, ghost p: nat) returns (r: Result<(Argument, seq<nat>)>)
    requires t.file.Valid() && (next, t.file.Tell()) == NextToken(t.file.content, p)
    requires next != NullToken && !IsOperator(next, ',') && !IsOperator(next, ')')
    modifies t.file
    ensures t.file.Valid()
    ensures r.Failure? ==> ReadList(t.file.content, p, current) == Failure(r.error)
    ensures r.Success? ==>
      ReadList(t.file.content, p, current) == Prepend(r.value.0, ReadList(t.file.content, t.file.Tell(), r.value.1)) &&
      Rank(t.file.content, t.file.Tell()) < Rank(t.file.content, p)
    decreases 2 * Rank(t.file.content, p) + 2, 2
  {
    ghost var s := t.file.content;
    NextShape'(s, p);
    if IsOperator(next, '(') {
      var sub := ReadArguments(t, current);
      if sub.Failure? {
        return Failure(sub.error);
      }
      return Success((ListArgument(sub.value.items), sub.value.ids));
    }
    var ids := current;
    if IsIdentifier(t.file.content, next) {
      var n := AsInt(t.file.content, next);
      ids := ids + [ToU32(n.value)];
    }
    assert ids == IdsAfter(s, next, current);
    if IsDatatype(t.file.content, next) {
      var l := LoadEntity(t, Offset(next), ids);
      if l.Failure? {
        return Failure(l.error);
      }
      return Success((EntityArgument(l.value.0, Offset(next), l.value.1.items), l.value.1.ids));
    }
    return Success((TokenArgument(next), ids));
  }

  lemma RankDown(s: seq<char>, p: nat, q: nat)
    requires p < q <= |s|
    ensures Rank(s, q) < Rank(s, p)
  {
  }

  function PrependAll(list: seq<Argument>, r: Result<Read>): Result<Read>
  {
    match r
    case Failure(e) => Failure(e)
    case Success(rest) => Success(Read(list + rest.items, rest.ids, rest.pos))
  }

  lemma PrependStep(list: seq<Argument>, a: Argument, r: Result<Read>)
    ensures PrependAll(list, Prepend(a, r)) == PrependAll(list + [a], r)
  {
    if r.Success? {
      assert list + ([a] + r.value.items) == (list + [a]) + r.value.items;
    }
  }

  /** `Entity::Load(ids, true)` for the entity whose datatype token is at
      `o`. */
  method LoadEntity(t: Tokens, o: nat, ids: seq<nat>) returns (r: Result<(seq<char>, Read)>)
    requires t.file.Valid()
    modifies t.file
    ensures t.file.Valid()
    ensures r == LoadAt(t.file.content, o, ids)
    ensures r.Success? ==> t.file.Tell() == r.value.1.pos
    decreases 2 * Rank(t.file.content, o) + 1, 1
  {
    ghost var s := t.file.content;
    t.file.Seek(o);
    NextShape'(s, o);
    var dt := t.Next();
    if !IsDatatype(t.file.content, dt) {
      return Failure(Unexpected);
    }
    var name := t.TokenString(Offset(dt));
    NextShape'(s, t.file.Tell());
    var open := t.Next();
    var args := ReadArguments(t, ids);
    if args.Failure? {
      return Failure(args.error);
    }
    var oldOffset := t.file.Tell();
    NextShape'(s, oldOffset);
    var semicolon := t.Next();
    if !IsOperator(semicolon, ';') {
      t.file.Seek(oldOffset);
    }
    return Success((name, Read(args.value.items, args.value.ids, t.file.Tell())));
  }
}
