/** The containers and nullable values of IfcUtil.h: the typed entity list
    `IfcTemplatedEntityList<T>` (a pointer vector that never stores null),
    `Nullable<T>` and the `Null` marker. A null pointer is `None`. */
module IfcUtil {
  import opened Wrappers

  /** What `push(t)` leaves in a list holding `ls`: `t` at the end, unless
      it is null. */
  function Pushed<T>(ls: seq<T>, t: Option<T>): (r: seq<T>)
  {
    if t.Some? then ls + [t.value] else ls
  }

  /** A push keeps what was there and adds at most the one element. */
  lemma PushedShape<T>(ls: seq<T>, t: Option<T>)
    ensures |Pushed(ls, t)| == |ls| + (if t.Some? then 1 else 0)
    ensures Pushed(ls, t)[..|ls|] == ls
    ensures t.Some? ==> Pushed(ls, t)[|ls|] == t.value
    ensures t.None? ==> Pushed(ls, t) == ls
  {
  }

  /** `IfcTemplatedEntityList<T>`: `ls` is its vector, in insertion order. */
  class EntityList<T> {
    var ls: seq<T>

    constructor ()
      ensures ls == []
    {
      ls := [];
    }

    /** `push(T* t)`. */
    method Push(t: Option<T>)
      modifies this
      ensures ls == Pushed(old(ls), t)
    {
      if t.Some? {
        ls := ls + [t.value];
      }
    }

    /** `push(list)`: each element of `other` in its order. The elements
        of a list are never null, so all of them are appended. Pushing a
        list onto itself invalidates the iteration in the source, so
        `other` is another list. */
    method PushAll(other: EntityList<T>)
      requires other != this
      modifies this
      ensures ls == old(ls) + other.ls
    {
      var i := 0;
      while i < |other.ls|
        invariant 0 <= i <= |other.ls|
        invariant ls == old(ls) + other.ls[..i]
      {
        Push(Some(other.ls[i]));
        assert other.ls[..i + 1] == other.ls[..i] + [other.ls[i]];
        i := i + 1;
      }
      assert other.ls[..i] == other.ls;
    }

    /** `Size()`. */
    function Size(): (n: nat)
      reads this
      ensures n == |ls|
    {
      |ls|
    }

    /** `operator[](i)`. */
    function At(i: nat): (r: T)
      reads this
      requires i < |ls|
      ensures r == ls[i]
    {
      ls[i]
    }

    /** `generalize()`: a new untyped list with the same elements in the
        same order. */
    method Generalize() returns (r: EntityList<T>)
      ensures fresh(r) && r.ls == ls
    {
      r := new EntityList();
      var i := 0;
      while i < |ls|
        invariant 0 <= i <= |ls|
        invariant r.ls == ls[..i]
      {
        r.Push(Some(ls[i]));
        assert ls[..i + 1] == ls[..i] + [ls[i]];
        i := i + 1;
      }
      assert ls[..i] == ls;
    }
  }

  /** Pushing elements one at a time builds exactly the non-null ones, in
      order: the list a sequence of pushes leaves behind. */
  function PushedAll<T>(ls: seq<T>, ts: seq<Option<T>>): seq<T>
    decreases |ts|
  {
    if ts == [] then ls else PushedAll(Pushed(ls, ts[0]), ts[1..])
  }

  /** The non-null values among `ts`, in order. */
  function Present<T>(ts: seq<Option<T>>): (r: seq<T>)
    decreases |ts|
  {
    if ts == [] then [] else (if ts[0].Some? then [ts[0].value] else []) + Present(ts[1..])
  }

  /** After any sequence of pushes the list holds its old elements followed
      by exactly the non-null pushed ones, in the order they were pushed. */
  lemma {:induction false} PushesKeepOrder<T>(ls: seq<T>, ts: seq<Option<T>>)
    ensures PushedAll(ls, ts) == ls + Present(ts)
    decreases |ts|
  {
    if ts != [] {
      PushesKeepOrder(Pushed(ls, ts[0]), ts[1..]);
      assert Pushed(ls, ts[0]) == ls + (if ts[0].Some? then [ts[0].value] else []);
      assert ls + ((if ts[0].Some? then [ts[0].value] else []) + Present(ts[1..])) ==
        ls + (if ts[0].Some? then [ts[0].value] else []) + Present(ts[1..]);
    }
  }

  // ---- Nullable ------------------------------------------------------------------

  /** `Nullable<T>` and `Nullable<std::string>`: the value and the `null`
      flag. A null value holds the default value of `T`. */
  datatype Nullable<T> = Nullable(value: T, isNull: bool)

  /** `Nullable(v)`. */
  function Of<T>(v: T): (n: Nullable<T>)
    ensures !n.isNull && n.value == v
  {
    Nullable(v, false)
  }

  /** `Nullable()`; `default` is what a default-constructed `T` holds. */
  function NullOf<T>(default: T): (n: Nullable<T>)
    ensures n.isNull
  {
    Nullable(default, true)
  }

  /** `operator T()`: the held value, whether null or not. */
  function Value<T>(n: Nullable<T>): T
  {
    n.value
  }

  /** `IsNull()`. */
  predicate IsNull<T>(n: Nullable<T>)
  {
    n.isNull
  }

  /** `Nullable<std::string>::operator=(const char*)` as written: the text
      is replaced and the null flag left as it was. */
  function AssignAsWritten(n: Nullable<seq<char>>, c: seq<char>): (r: Nullable<seq<char>>)
    ensures Value(r) == c && (IsNull(r) <==> IsNull(n))
  {
    n.(value := c)
  }

  /** The assignment with the evidently intended effect: the result holds
      `c` and is not null. */
  function Assign(n: Nullable<seq<char>>, c: seq<char>): (r: Nullable<seq<char>>)
    ensures Value(r) == c && !IsNull(r)
    ensures r == Of(c)
  {
    Nullable(c, false)
  }

  /** Assigning text to a null string as written leaves it null. */
  lemma AssignKeepsNull()
    ensures IsNull(AssignAsWritten(NullOf(""), "IFC")) && Value(AssignAsWritten(NullOf(""), "IFC")) == "IFC"
    ensures !IsNull(Assign(NullOf(""), "IFC"))
  {
  }

  /** A value converts back to itself and is not null; `Nullable()` is
      null. The two constructors never agree, a value is determined by what
      it converts back to, and every `Nullable` is built by exactly one of
      them from the value it holds. */
  lemma NullableCases<T>(v: T, w: T, default: T, n: Nullable<T>)
    ensures !IsNull(Of(v)) && Value(Of(v)) == v
    ensures IsNull(NullOf(default)) && Value(NullOf(default)) == default
    ensures Of(v) != NullOf(default)
    ensures Of(v) == Of(w) <==> v == w
    ensures n == (if IsNull(n) then NullOf(Value(n)) else Of(Value(n)))
  {
  }

  /** The `Null` marker. */
  datatype Null = Null

  /** `operator Nullable<std::string>()`. */
  function NullString(n: Null): (r: Nullable<seq<char>>)
    ensures IsNull(r)
  {
    NullOf("")
  }

  /** `operator int()`. */
  function NullInt(n: Null): (r: int)
    ensures r == 0
  {
    0
  }
}
