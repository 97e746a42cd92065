/** The bootstrap that turns the EXPRESS grammar (a list of `id = expr .`
    rules) into a Python parser module (bootstrap.py): the grammar
    expression tree, its rendering as pyparsing combinators, `find_keywords`,
    and the dependency-ordered emission of rule statements, with `Forward()`
    declarations and `<<` bindings for the rules that cannot be ordered. */
module GrammarBootstrap {
  import opened Wrappers

  /** The parse actions build these nodes. `Union`, `Concat`, `Optional`,
      `Repeated` and `Term` are `Expression`s; `Term` holds one node. */
  datatype Expr =
    | Union(children: seq<Expr>)
    | Concat(children: seq<Expr>)
    | Optional(children: seq<Expr>)
    | Repeated(children: seq<Expr>)
    | Term(inner: Expr)
    | Keyword(name: string)
    | Terminal(text: string)

  predicate IsLeaf(e: Expr) { e.Keyword? || e.Terminal? }

  function Size(e: Expr): (n: nat)
    ensures n >= 1
  {
    match e
    case Union(cs) => 1 + SizeAll(cs)
    case Concat(cs) => 1 + SizeAll(cs)
    case Optional(cs) => 1 + SizeAll(cs)
    case Repeated(cs) => 1 + SizeAll(cs)
    case Term(x) => 1 + Size(x)
    case Keyword(_) => 1
    case Terminal(_) => 1
  }

  function SizeAll(cs: seq<Expr>): nat
  {
    if cs == [] then 0 else 1 + Size(cs[0]) + SizeAll(cs[1..])
  }

  /** `for term in e` on an `Expression`: a `Term` forwards to its content,
      which fails (None) when that content is a `Keyword` or `Terminal`, as
      these cannot be iterated. */
  function Elements(e: Expr): (r: Option<seq<Expr>>)
    requires !IsLeaf(e)
    ensures r.Some? ==> SizeAll(r.value) < Size(e)
  {
    match e
    case Union(cs) => Some(cs)
    case Concat(cs) => Some(cs)
    case Optional(cs) => Some(cs)
    case Repeated(cs) => Some(cs)
    case Term(x) => if IsLeaf(x) then None else Elements(x)
  }

  /** `find_keywords(e)`: a `Term` is unwrapped once; a `Keyword` adds its
      name; the members of an `Expression` are searched in order. None is
      the exception raised when a `Term` of a leaf is iterated. */
  function FindKeywords(e: Expr): (r: Option<seq<string>>)
    decreases Size(e), 1
  {
    var u := if e.Term? then e.inner else e;
    assert Size(u) <= Size(e);
    if u.Keyword? then Some([u.name])
    else if u.Terminal? then Some([])
    else match Elements(u)
      case None => None
      case Some(cs) => FindInAll(cs)
  }

  function FindInAll(cs: seq<Expr>): (r: Option<seq<string>>)
    decreases SizeAll(cs), 0
  {
    if cs == [] then Some([])
    else match FindKeywords(cs[0])
      case None => None
      case Some(k) =>
        match FindInAll(cs[1..])
        case None => None
        case Some(rest) => Some(k + rest)
  }

  /** Reference: the names of all `Keyword` leaves in the tree. */
  function Mentions(e: Expr): set<string>
    decreases Size(e), 1
  {
    match e
    case Keyword(n) => {n}
    case Terminal(_) => {}
    case Term(x) => Mentions(x)
    case Union(cs) => MentionsAll(cs)
    case Concat(cs) => MentionsAll(cs)
    case Optional(cs) => MentionsAll(cs)
    case Repeated(cs) => MentionsAll(cs)
  }

  function MentionsAll(cs: seq<Expr>): set<string>
    decreases SizeAll(cs), 0
  {
    if cs == [] then {} else Mentions(cs[0]) + MentionsAll(cs[1..])
  }

  /** The members a successful `Elements` yields mention the same keywords
      as the node iterated. */
  lemma {:induction false} ElementsMentions(e: Expr)
    requires !IsLeaf(e) && Elements(e).Some?
    ensures MentionsAll(Elements(e).value) == Mentions(e)
    decreases Size(e)
  {
    if e.Term? {
      ElementsMentions(e.inner);
    }
  }

  /** When `find_keywords` succeeds it finds exactly the keyword leaves
      reachable through the tree; terminals contribute nothing. */
  lemma {:induction false} FindKeywordsSound(e: Expr)
    requires FindKeywords(e).Some?
    ensures (set k | k in FindKeywords(e).value) == Mentions(e)
    decreases Size(e), 1
  {
    var u := if e.Term? then e.inner else e;
    if !IsLeaf(u) {
      var cs := Elements(u).value;
      FindInAllSound(cs);
      ElementsMentions(u);
    }
  }

  lemma {:induction false} FindInAllSound(cs: seq<Expr>)
    requires FindInAll(cs).Some?
    ensures (set k | k in FindInAll(cs).value) == MentionsAll(cs)
    decreases SizeAll(cs), 0
  {
    if cs != [] {
      FindKeywordsSound(cs[0]);
      FindInAllSound(cs[1..]);
      var k, rest := FindKeywords(cs[0]).value, FindInAll(cs[1..]).value;
      assert (set x | x in k + rest) == (set x | x in k) + (set x | x in rest);
    }
  }

  /** No `Term` directly holds another `Term`. */
  predicate TermNormal(e: Expr)
    decreases Size(e), 1
  {
    match e
    case Keyword(_) => true
    case Terminal(_) => true
    case Term(x) => !x.Term? && TermNormal(x)
    case Union(cs) => AllTermNormal(cs)
    case Concat(cs) => AllTermNormal(cs)
    case Optional(cs) => AllTermNormal(cs)
    case Repeated(cs) => AllTermNormal(cs)
  }

  predicate AllTermNormal(cs: seq<Expr>)
    decreases SizeAll(cs), 0
  {
    cs == [] || (TermNormal(cs[0]) && AllTermNormal(cs[1..]))
  }

  /** Trees without a `Term` directly inside a `Term` never make
      `find_keywords` raise. */
  lemma {:induction false} FindKeywordsTotal(e: Expr)
    requires TermNormal(e)
    ensures FindKeywords(e).Some?
    decreases Size(e), 1
  {
    var u := if e.Term? then e.inner else e;
    if !IsLeaf(u) {
      assert !u.Term?;
      assert Size(u) == 1 + SizeAll(u.children) && Size(u) <= Size(e);
      assert AllTermNormal(u.children);
      FindInAllTotal(u.children);
    }
  }

  lemma {:induction false} FindInAllTotal(cs: seq<Expr>)
    requires AllTermNormal(cs)
    ensures FindInAll(cs).Some?
    decreases SizeAll(cs), 0
  {
    if cs != [] {
      FindKeywordsTotal(cs[0]);
      FindInAllTotal(cs[1..]);
    }
  }

  /** A parenthesised single leaf, `( a )`, parses as a `Term` of a
      `Term`; `find_keywords` unwraps one `Term` and then iterates the inner
      one, whose content is a `Keyword` or `Terminal`, and so raises. */
  lemma NestedTermRaises(x: Expr)
    requires IsLeaf(x)
    ensures FindKeywords(Term(Term(x))) == None
  {
    assert Elements(Term(x)) == None;
  }

  /** One level of `Term` is transparent: a wrapped keyword gives its name
      and a wrapped terminal gives nothing. */
  lemma TermOfLeaf(n: string, t: string)
    ensures FindKeywords(Term(Keyword(n))) == Some([n])
    ensures FindKeywords(Term(Terminal(t))) == Some([])
  {
  }

  // ---- rendering -----------------------------------------------------------

  predicate IsAlnumOrUnderscore(c: char)
  {
    ('a' <= c <= 'z') || ('A' <= c <= 'Z') || ('0' <= c <= '9') || c == '_'
  }

  /** A terminal becomes a `CaselessKeyword` when it is a double-quoted word
      of at least two characters. */
  predicate IsKeywordTerminal(s: string)
  {
    |s| >= 4 && s[0] == '"' && s[|s| - 1] == '"' &&
    forall i :: 1 <= i < |s| - 1 ==> IsAlnumOrUnderscore(s[i])
  }

  function RenderTerminal(s: string): (r: string)
    ensures IsKeywordTerminal(s) ==> r == "CaselessKeyword(" + s + ")"
    ensures !IsKeywordTerminal(s) ==> r == "CaselessLiteral(" + s + ")"
  {
    (if IsKeywordTerminal(s) then "CaselessKeyword" else "CaselessLiteral") + "(" + s + ")"
  }

  lemma TerminalExamples()
    ensures RenderTerminal("\"END\"") == "CaselessKeyword(\"END\")"
    ensures RenderTerminal("\"A\"") == "CaselessLiteral(\"A\")"
    ensures RenderTerminal("\"a-b\"") == "CaselessLiteral(\"a-b\")"
    ensures RenderTerminal("'END'") == "CaselessLiteral('END')"
    ensures RenderTerminal("\"x\"") == "CaselessLiteral(\"x\")"
  {
    assert !IsAlnumOrUnderscore("\"a-b\""[2]);
  }

  /** A double-quoted word of at least two identifier characters becomes
      a `CaselessKeyword`, and any other double-quoted text a
      `CaselessLiteral`; a single-quoted terminal is always a literal. */
  lemma KeywordTerminals(w: string)
    ensures IsKeywordTerminal("\"" + w + "\"") <==> |w| >= 2 && forall i :: 0 <= i < |w| ==> IsAlnumOrUnderscore(w[i])
    ensures RenderTerminal("'" + w + "'") == "CaselessLiteral('" + w + "')"
  {
    var s := "\"" + w + "\"";
    assert |s| == |w| + 2 && s[0] == '"' && s[|s| - 1] == '"';
    assert forall i :: 1 <= i < |s| - 1 ==> s[i] == w[i - 1];
    if IsKeywordTerminal(s) {
      forall i | 0 <= i < |w| ensures IsAlnumOrUnderscore(w[i]) {
        assert s[i + 1] == w[i];
      }
    }
    var q := "'" + w + "'";
    assert q[0] == '\'';
  }

  function Join(parts: seq<string>, sep: string): string
  {
    if parts == [] then "" else if |parts| == 1 then parts[0] else parts[0] + sep + Join(parts[1..], sep)
  }

  lemma JoinTwo(p: string, q: string, sep: string)
    ensures Join([p, q], sep) == p + sep + q
  {
    assert [p, q][1..] == [q];
  }

  /** `repr(e)`: unions and concatenations are parenthesised with ` | ` and
      ` + ` between members; optional and repeated parts wrap their
      space-separated members; a `Term` is its content. */
  function Render(e: Expr): (r: string)
    decreases Size(e), 1
  {
    match e
    case Keyword(n) => n
    case Terminal(s) => RenderTerminal(s)
    case Term(x) => Render(x)
    case Union(cs) => "(" + Join(RenderAll(cs), " | ") + ")"
    case Concat(cs) => "(" + Join(RenderAll(cs), " + ") + ")"
    case Optional(cs) => "Optional(" + Join(RenderAll(cs), " ") + ")"
    case Repeated(cs) => "ZeroOrMore(" + Join(RenderAll(cs), " ") + ")"
  }

  function RenderAll(cs: seq<Expr>): (r: seq<string>)
    ensures |r| == |cs|
    decreases SizeAll(cs), 0
  {
    if cs == [] then [] else [Render(cs[0])] + RenderAll(cs[1..])
  }

  /** `[str(c) for c in contents]`: the i-th rendering is that of the i-th
      member. */
  lemma {:induction false} RenderAllMembers(cs: seq<Expr>)
    ensures forall i :: 0 <= i < |cs| ==> RenderAll(cs)[i] == Render(cs[i])
  {
    if cs != [] {
      RenderAllMembers(cs[1..]);
      assert forall i :: 1 <= i < |cs| ==> cs[1..][i - 1] == cs[i];
    }
  }

  /** For any members: a `Term` renders as its content, a two-member union
      or concatenation as the parenthesised members with ` | ` or ` + `
      between them, and a one-member optional or repetition wraps its
      member's rendering. */
  lemma RenderShapes(a: Expr, b: Expr)
    ensures Render(Term(a)) == Render(a)
    ensures Render(Union([a, b])) == "(" + Render(a) + " | " + Render(b) + ")"
    ensures Render(Concat([a, b])) == "(" + Render(a) + " + " + Render(b) + ")"
    ensures Render(Optional([a])) == "Optional(" + Render(a) + ")"
    ensures Render(Repeated([a])) == "ZeroOrMore(" + Render(a) + ")"
  {
    var ab := [a, b];
    assert ab[1..] == [b] && [b][1..] == [];
    assert RenderAll(ab) == [Render(a), Render(b)];
    JoinTwo(Render(a), Render(b), " | ");
    JoinTwo(Render(a), Render(b), " + ");
  }

  /** An alternative with an optional part, `a | [ b ]`, renders as a
      parenthesised `|` chain holding an `Optional`. */
  lemma RenderExample()
    ensures Render(Union([Term(Keyword("a")), Term(Optional([Term(Keyword("b"))]))])) == "(a | Optional(b))"
  {
    var bs: seq<Expr> := [Term(Keyword("b"))];
    assert bs[1..] == [];
    assert Render(Term(Optional(bs))) == "Optional(b)";
    var top := [Term(Keyword("a")), Term(Optional(bs))];
    assert top[1..] == [Term(Optional(bs))];
    assert RenderAll(top) == ["a", "Optional(b)"];
    JoinTwo("a", "Optional(b)", " | ");
  }

  // ---- statement emission --------------------------------------------------

  datatype Rule = Rule(id: string, body: Expr)

  /** One line of the generated module: a direct definition (optionally
      wrapped in `originalTextFor(Combine...)` and given a parse action), a
      `Forward()` declaration, or a `<<` binding (optionally `Suppress`ed). */
  datatype Statement =
    | Define(id: string, body: Expr, combined: bool, action: Option<string>)
    | ForwardDecl(id: string, action: Option<string>)
    | Bind(id: string, body: Expr, suppressed: bool)

  function Lookup(actions: map<string, string>, id: string): Option<string>
  {
    if id in actions then Some(actions[id]) else None
  }

  function Ids(rules: seq<Rule>): set<string>
  {
    set i | 0 <= i < |rules| :: rules[i].id
  }

  predicate UniqueIds(rules: seq<Rule>)
  {
    forall i, j :: 0 <= i < j < |rules| ==> rules[i].id != rules[j].id
  }

  /** Ids of the direct definitions among `st`. */
  function DefinedIds(st: seq<Statement>): set<string>
  {
    if st == [] then {}
    else DefinedIds(st[..|st| - 1]) + (if st[|st| - 1].Define? then {st[|st| - 1].id} else {})
  }

  lemma DefinedIdsAppend(st: seq<Statement>, s: Statement)
    ensures DefinedIds(st + [s]) == DefinedIds(st) + (if s.Define? then {s.id} else {})
  {
    assert (st + [s])[..|st|] == st;
  }

  lemma {:induction false} DefinedIdsMember(st: seq<Statement>, x: string)
    requires x in DefinedIds(st)
    ensures exists j :: 0 <= j < |st| && st[j].Define? && st[j].id == x
  {
    if st[|st| - 1].Define? && st[|st| - 1].id == x {
    } else {
      DefinedIdsMember(st[..|st| - 1], x);
      var j :| 0 <= j < |st[..|st| - 1]| && st[..|st| - 1][j].Define? && st[..|st| - 1][j].id == x;
      assert st[j] == st[..|st| - 1][j];
    }
  }

  /** The first rule named `id` (`[e for k, e in express if k == id][0]`). */
  function FirstBody(rules: seq<Rule>, id: string): (r: Option<Expr>)
    ensures r.Some? <==> id in Ids(rules)
  {
    if rules == [] then None
    else
      IdsCons(rules);
      if rules[0].id == id then Some(rules[0].body) else FirstBody(rules[1..], id)
  }

  lemma IdsCons(rules: seq<Rule>)
    requires rules != []
    ensures Ids(rules) == {rules[0].id} + Ids(rules[1..])
  {
    forall x | x in Ids(rules) ensures x in {rules[0].id} + Ids(rules[1..]) {
      var i :| 0 <= i < |rules| && rules[i].id == x;
      if i > 0 { assert rules[1..][i - 1].id == x; }
    }
    forall x | x in Ids(rules[1..]) ensures x in Ids(rules) {
      var i :| 0 <= i < |rules[1..]| && rules[1..][i].id == x;
      assert rules[i + 1].id == x;
    }
  }

  /** `FirstBody` finds the body of the earliest rule with that id. */
  lemma {:induction false} FirstBodyIsFirst(rules: seq<Rule>, id: string)
    requires id in Ids(rules)
    ensures exists i :: (0 <= i < |rules| && rules[i] == Rule(id, FirstBody(rules, id).value) &&
      forall j :: 0 <= j < i ==> rules[j].id != id)
  {
    IdsCons(rules);
    if rules[0].id != id {
      FirstBodyIsFirst(rules[1..], id);
      var i :| 0 <= i < |rules[1..]| && rules[1..][i] == Rule(id, FirstBody(rules[1..], id).value) &&
        forall j :: 0 <= j < i ==> rules[1..][j].id != id;
      assert rules[i + 1] == Rule(id, FirstBody(rules, id).value);
      forall j | 0 <= j < i + 1 ensures rules[j].id != id {
        if j > 0 { assert rules[j] == rules[1..][j - 1]; }
      }
    }
  }

  /** Every direct definition comes after the definitions of all the
      keywords it references. */
  predicate DependencyOrdered(st: seq<Statement>)
  {
    forall j :: 0 <= j < |st| && st[j].Define? ==>
      FindKeywords(st[j].body).Some? &&
      forall k :: k in FindKeywords(st[j].body).value ==> k in DefinedIds(st[..j])
  }

  /** The kinds come in three blocks: definitions, declarations, bindings. */
  function KindRank(s: Statement): nat
  {
    match s
    case Define(_, _, _, _) => 0
    case ForwardDecl(_, _) => 1
    case Bind(_, _, _) => 2
  }

  predicate Blocked(st: seq<Statement>)
  {
    forall i, j :: 0 <= i < j < |st| ==> KindRank(st[i]) <= KindRank(st[j])
  }

  /** The keyword sets of all rules, or None when `find_keywords` raises on
      one of them (it is called on every rule in the first round). */
  method AllKeywords(rules: seq<Rule>) returns (r: Option<seq<set<string>>>)
    ensures r.None? <==> exists i :: 0 <= i < |rules| && FindKeywords(rules[i].body).None?
    ensures r.Some? ==> (|r.value| == |rules| &&
      forall i :: 0 <= i < |rules| ==> r.value[i] == set k | k in FindKeywords(rules[i].body).value)
  {
    var acc: seq<set<string>> := [];
    var i := 0;
    while i < |rules|
      invariant 0 <= i <= |rules| && |acc| == i
      invariant forall m :: 0 <= m < i ==>
        FindKeywords(rules[m].body).Some? && acc[m] == set k | k in FindKeywords(rules[m].body).value
    {
      var found := FindKeywords(rules[i].body);
      if found.None? {
        return None;
      }
      acc := acc + [set k | k in found.value];
      i := i + 1;
    }
    return Some(acc);
  }

  /** Python's iteration over a set: some order of its members, each once. */
  method Enumerate(s: set<string>) returns (q: seq<string>)
    ensures forall x :: x in q <==> x in s
    ensures forall i, j :: 0 <= i < j < |q| ==> q[i] != q[j]
  {
    q := [];
    var rest := s;
    while rest != {}
      invariant forall x :: x in q || x in rest <==> x in s
      invariant forall x :: x in q ==> x !in rest
      invariant forall i, j :: 0 <= i < j < |q| ==> q[i] != q[j]
      decreases rest
    {
      var x :| x in rest;
      q := q + [x];
      rest := rest - {x};
    }
  }

  /** The termination step of the `while to_emit` loop: a round that
      defines some of the rules still to emit leaves strictly fewer. */
  lemma LessPending(rules: seq<Rule>, defs: seq<Statement>, inLoop: set<string>)
    requires inLoop != {} && inLoop <= Ids(rules) - DefinedIds(defs)
    ensures Ids(rules) - (DefinedIds(defs) + inLoop) < Ids(rules) - DefinedIds(defs)
  {
    var x :| x in inLoop;
  }

  /** Every statement is a direct definition of one of the rules, wrapped
      as the rule's id asks: combined when it is in `combine`, with the
      parse action registered for it. */
  predicate Emitted(rules: seq<Rule>, actions: map<string, string>, combine: set<string>, st: seq<Statement>)
  {
    forall s :: s in st ==>
      s.Define? && s.combined == (s.id in combine) && s.action == Lookup(actions, s.id) && Rule(s.id, s.body) in rules
  }

  /** The keyword sets line up with the rules. */
  predicate KeywordsOf(rules: seq<Rule>, kws: seq<set<string>>)
  {
    |kws| == |rules| &&
    forall i :: 0 <= i < |rules| ==> (FindKeywords(rules[i].body).Some? &&
      kws[i] == set k | k in FindKeywords(rules[i].body).value)
  }

  /** One round of the fixed point: every rule still to emit whose keywords
      are all emitted, counting those emitted earlier in this round, is
      defined. */
  method Round(rules: seq<Rule>, kws: seq<set<string>>, actions: map<string, string>, combine: set<string>,
               toEmit: set<string>, defs0: seq<Statement>)
    returns (defs: seq<Statement>, inLoop: set<string>)
    requires KeywordsOf(rules, kws)
    requires DependencyOrdered(defs0) && Emitted(rules, actions, combine, defs0)
    requires toEmit !! DefinedIds(defs0)
    ensures DependencyOrdered(defs) && Emitted(rules, actions, combine, defs)
    ensures |defs0| <= |defs| && defs[..|defs0|] == defs0
    ensures DefinedIds(defs) == DefinedIds(defs0) + inLoop && inLoop <= toEmit
    ensures inLoop == {} ==> defs == defs0
    ensures inLoop == {} ==> forall i :: 0 <= i < |rules| && rules[i].id in toEmit ==> !(kws[i] <= DefinedIds(defs0))
    ensures UniqueIds(rules) && UniqueDefines(defs0) ==> UniqueDefines(defs)
  {
    defs, inLoop := defs0, {};
    var i := 0;
    while i < |rules|
      invariant i <= |rules|
      invariant RoundShape(rules, actions, combine, defs0, defs)
      invariant RoundIds(rules, kws, toEmit, defs0, i, defs, inLoop)
      invariant RoundUnique(rules, defs0, defs)
    {
      defs, inLoop := Visit(rules, kws, actions, combine, toEmit, defs0, i, defs, inLoop);
      i := i + 1;
    }
    if inLoop == {} {
      NoneReadyAll(rules, kws, toEmit, defs0, |rules|);
    }
  }

  /** The body of the round's loop: rule `i` is defined when it is pending
      and all its keywords are defined. */
  method Visit(rules: seq<Rule>, kws: seq<set<string>>, actions: map<string, string>, combine: set<string>,
               toEmit: set<string>, defs0: seq<Statement>, i: nat, defs: seq<Statement>, inLoop: set<string>)
    returns (defs': seq<Statement>, inLoop': set<string>)
    requires i < |rules| && KeywordsOf(rules, kws) && toEmit !! DefinedIds(defs0)
    requires RoundShape(rules, actions, combine, defs0, defs)
    requires RoundIds(rules, kws, toEmit, defs0, i, defs, inLoop)
    requires RoundUnique(rules, defs0, defs)
    ensures RoundShape(rules, actions, combine, defs0, defs')
    ensures RoundIds(rules, kws, toEmit, defs0, i + 1, defs', inLoop')
    ensures RoundUnique(rules, defs0, defs')
  {
    var rule := rules[i];
    if rule.id in toEmit && kws[i] <= DefinedIds(defs) {
      var s := Define(rule.id, rule.body, rule.id in combine, Lookup(actions, rule.id));
      TakeShape(rules, kws, actions, combine, defs0, i, defs, s);
      TakeUnique(rules, kws, toEmit, defs0, i, defs, inLoop, s);
      TakeIds(rules, kws, toEmit, defs0, i, defs, inLoop, s);
      return defs + [s], inLoop + {s.id};
    }
    SkipIds(rules, kws, toEmit, defs0, i, defs, inLoop);
    return defs, inLoop;
  }

  /** What holds after the first `i` rules of a round: the definitions so
      far extend those before the round, in dependency order and wrapped
      as their rules ask; ... */
  predicate RoundShape(rules: seq<Rule>, actions: map<string, string>, combine: set<string>,
                       defs0: seq<Statement>, defs: seq<Statement>)
  {
    DependencyOrdered(defs) && Emitted(rules, actions, combine, defs) &&
    |defs0| <= |defs| && defs[..|defs0|] == defs0
  }

  /** ... the ids defined in the round are pending ones from the first `i`
      rules, and when there are none yet, none of those rules was ready ... */
  predicate RoundIds(rules: seq<Rule>, kws: seq<set<string>>, toEmit: set<string>, defs0: seq<Statement>,
                     i: nat, defs: seq<Statement>, inLoop: set<string>)
    requires i <= |rules|
  {
    |kws| == |rules| &&
    DefinedIds(defs) == DefinedIds(defs0) + inLoop && inLoop <= toEmit && inLoop <= IdsBefore(rules, i) &&
    (inLoop == {} ==> defs == defs0) &&
    (inLoop == {} ==> NoneReady(rules, kws, toEmit, defs0, i))
  }

  /** None of the first `i` rules is pending with all its keywords defined
      before the round. */
  predicate NoneReady(rules: seq<Rule>, kws: seq<set<string>>, toEmit: set<string>, defs0: seq<Statement>, i: nat)
    requires i <= |rules| == |kws|
  {
    i == 0 ||
    (NoneReady(rules, kws, toEmit, defs0, i - 1) && !(rules[i - 1].id in toEmit && kws[i - 1] <= DefinedIds(defs0)))
  }

  lemma {:induction false} NoneReadyAll(rules: seq<Rule>, kws: seq<set<string>>, toEmit: set<string>,
                                        defs0: seq<Statement>, i: nat)
    requires i <= |rules| == |kws| && NoneReady(rules, kws, toEmit, defs0, i)
    ensures forall m :: 0 <= m < i && rules[m].id in toEmit ==> !(kws[m] <= DefinedIds(defs0))
  {
    if i > 0 {
      NoneReadyAll(rules, kws, toEmit, defs0, i - 1);
    }
  }

  /** ... and with distinct rule ids, no id is defined twice. */
  predicate RoundUnique(rules: seq<Rule>, defs0: seq<Statement>, defs: seq<Statement>)
  {
    UniqueIds(rules) && UniqueDefines(defs0) ==> UniqueDefines(defs)
  }

  /** The ids of the first `i` rules. */
  function IdsBefore(rules: seq<Rule>, i: nat): set<string>
    requires i <= |rules|
  {
    if i == 0 then {} else IdsBefore(rules, i - 1) + {rules[i - 1].id}
  }

  lemma {:induction false} IdsBeforeUnique(rules: seq<Rule>, i: nat, j: nat)
    requires UniqueIds(rules) && i <= j < |rules|
    ensures rules[j].id !in IdsBefore(rules, i)
  {
    if i > 0 {
      IdsBeforeUnique(rules, i - 1, j);
    }
  }

  /** Defining a ready rule keeps the definitions ordered and wrapped. */
  lemma TakeShape(rules: seq<Rule>, kws: seq<set<string>>, actions: map<string, string>, combine: set<string>,
                  defs0: seq<Statement>, i: nat, defs: seq<Statement>, s: Statement)
    requires i < |rules| && KeywordsOf(rules, kws) && RoundShape(rules, actions, combine, defs0, defs)
    requires kws[i] <= DefinedIds(defs)
    requires s == Define(rules[i].id, rules[i].body, rules[i].id in combine, Lookup(actions, rules[i].id))
    ensures RoundShape(rules, actions, combine, defs0, defs + [s])
  {
    DependencyAppend(defs, s);
    assert rules[i] in rules;
    assert (defs + [s])[..|defs0|] == defs[..|defs0|];
  }

  /** Defining a pending rule keeps the ids defined in the round pending
      ones from the rules seen. */
  lemma TakeIds(rules: seq<Rule>, kws: seq<set<string>>, toEmit: set<string>, defs0: seq<Statement>,
                i: nat, defs: seq<Statement>, inLoop: set<string>, s: Statement)
    requires i < |rules| && RoundIds(rules, kws, toEmit, defs0, i, defs, inLoop)
    requires rules[i].id in toEmit && s.Define? && s.id == rules[i].id
    ensures RoundIds(rules, kws, toEmit, defs0, i + 1, defs + [s], inLoop + {s.id})
  {
    DefinedIdsAppend(defs, s);
  }

  /** Passing over a rule that is not ready keeps the round's ids. */
  lemma SkipIds(rules: seq<Rule>, kws: seq<set<string>>, toEmit: set<string>, defs0: seq<Statement>,
                i: nat, defs: seq<Statement>, inLoop: set<string>)
    requires i < |rules| && RoundIds(rules, kws, toEmit, defs0, i, defs, inLoop)
    requires !(rules[i].id in toEmit && kws[i] <= DefinedIds(defs))
    ensures RoundIds(rules, kws, toEmit, defs0, i + 1, defs, inLoop)
  {
  }

  /** With distinct rule ids, a pending rule is not yet defined. */
  lemma TakeUnique(rules: seq<Rule>, kws: seq<set<string>>, toEmit: set<string>, defs0: seq<Statement>,
                   i: nat, defs: seq<Statement>, inLoop: set<string>, s: Statement)
    requires i < |rules| && RoundIds(rules, kws, toEmit, defs0, i, defs, inLoop) && RoundUnique(rules, defs0, defs)
    requires toEmit !! DefinedIds(defs0)
    requires rules[i].id in toEmit && s.Define? && s.id == rules[i].id
    ensures RoundUnique(rules, defs0, defs + [s])
  {
    if UniqueIds(rules) && UniqueDefines(defs0) {
      IdsBeforeUnique(rules, i, i);
      UniqueDefinesAppend(defs, s);
    }
  }

  predicate UniqueDefines(st: seq<Statement>)
  {
    forall i, j :: 0 <= i < j < |st| && st[i].Define? && st[j].Define? ==> st[i].id != st[j].id
  }

  lemma UniqueDefinesAppend(st: seq<Statement>, s: Statement)
    requires UniqueDefines(st) && s.Define? && s.id !in DefinedIds(st)
    ensures UniqueDefines(st + [s])
  {
    forall i, j | 0 <= i < j < |st + [s]| && (st + [s])[i].Define? && (st + [s])[j].Define?
      ensures (st + [s])[i].id != (st + [s])[j].id
    {
      if j == |st| {
        assert (st + [s])[i] == st[i];
        if st[i].id == s.id {
          DefinedIdsHas(st, i);
        }
      } else {
        assert (st + [s])[i] == st[i] && (st + [s])[j] == st[j];
      }
    }
  }

  lemma {:induction false} DefinedIdsHas(st: seq<Statement>, i: nat)
    requires i < |st| && st[i].Define?
    ensures st[i].id in DefinedIds(st)
  {
    if i < |st| - 1 {
      DefinedIdsHas(st[..|st| - 1], i);
    }
  }

  lemma IdsAppend(rules: seq<Rule>, r: Rule)
    ensures Ids(rules + [r]) == Ids(rules) + {r.id}
  {
    forall x | x in Ids(rules + [r]) ensures x in Ids(rules) + {r.id} {
      var i :| 0 <= i < |rules + [r]| && (rules + [r])[i].id == x;
      if i < |rules| { assert rules[i].id == x; }
    }
    forall x | x in Ids(rules) ensures x in Ids(rules + [r]) {
      var i :| 0 <= i < |rules| && rules[i].id == x;
      assert (rules + [r])[i].id == x;
    }
    assert (rules + [r])[|rules|].id == r.id;
  }

  lemma DependencyAppend(defs: seq<Statement>, s: Statement)
    requires DependencyOrdered(defs) && s.Define?
    requires FindKeywords(s.body).Some?
    requires forall k :: k in FindKeywords(s.body).value ==> k in DefinedIds(defs)
    ensures DependencyOrdered(defs + [s])
  {
    var st := defs + [s];
    forall j | 0 <= j < |st| && st[j].Define?
      ensures FindKeywords(st[j].body).Some? &&
        forall k :: k in FindKeywords(st[j].body).value ==> k in DefinedIds(st[..j])
    {
      if j < |defs| {
        assert st[..j] == defs[..j] && st[j] == defs[j];
      } else {
        assert st[..j] == defs;
      }
    }
  }

  /** The bootstrap's statement list. Failure is an exception from
      `find_keywords`. On success: definitions come first, each after
      what it references, until a round defines nothing; then one
      `Forward()` per rule left, then one `<<` binding per rule left, in
      the same order. */
  method EmitRules(rules: seq<Rule>, actions: map<string, string>, combine: set<string>)
    returns (r: Result<seq<Statement>>)
    ensures r.Failure? <==> exists i :: 0 <= i < |rules| && FindKeywords(rules[i].body).None?
    ensures r.Success? ==> Blocked(r.value) && DependencyOrdered(r.value)
    ensures r.Success? ==> forall s :: s in r.value ==> s.id in Ids(rules)
    ensures r.Success? ==> forall s :: s in r.value && s.Define? ==>
      s.combined == (s.id in combine) && s.action == Lookup(actions, s.id) && Rule(s.id, s.body) in rules
    ensures r.Success? ==> forall s :: s in r.value && s.ForwardDecl? ==>
      s.id !in DefinedIds(r.value) && s.action == Lookup(actions, s.id)
    ensures r.Success? ==> forall s :: s in r.value && s.Bind? ==>
      s.suppressed == (s.id in combine) && Some(s.body) == FirstBody(rules, s.id)
    ensures r.Success? ==> ForwardIds(r.value) == BindIds(r.value)
    ensures r.Success? ==> forall i, j :: 0 <= i < j < |ForwardIds(r.value)| ==> ForwardIds(r.value)[i] != ForwardIds(r.value)[j]
    ensures r.Success? ==> forall id :: id in ForwardIds(r.value) <==> id in Ids(rules) && id !in DefinedIds(r.value)
    ensures r.Success? ==> forall i :: 0 <= i < |rules| && rules[i].id !in DefinedIds(r.value) ==>
      exists k :: k in FindKeywords(rules[i].body).value && k !in DefinedIds(r.value)
    ensures r.Success? && UniqueIds(rules) ==> UniqueDefines(r.value)
  {
    var found := AllKeywords(rules);
    if found.None? {
      return Failure("find_keywords raised");
    }
    var kws := found.value;
    var defs := Definitions(rules, kws, actions, combine);
    var pending := Enumerate(Ids(rules) - DefinedIds(defs));
    var st := Declarations(rules, actions, combine, defs, pending);
    forall j | 0 <= j < |rules| && rules[j].id !in DefinedIds(st)
      ensures exists k :: k in FindKeywords(rules[j].body).value && k !in DefinedIds(st)
    {
      var k :| k in kws[j] && k !in DefinedIds(defs);
    }
    forall s | s in st && s.Define?
      ensures s.combined == (s.id in combine) && s.action == Lookup(actions, s.id) && Rule(s.id, s.body) in rules
    {
      assert WrappedOne(rules, actions, combine, DefinedIds(defs), s);
    }
    return Success(st);
  }

  /** The `while True` loop: rounds until one defines nothing. What is left
      undefined then has a keyword that is not defined. */
  method Definitions(rules: seq<Rule>, kws: seq<set<string>>, actions: map<string, string>, combine: set<string>)
    returns (defs: seq<Statement>)
    requires KeywordsOf(rules, kws)
    ensures DependencyOrdered(defs) && Emitted(rules, actions, combine, defs)
    ensures DefinedIds(defs) <= Ids(rules)
    ensures forall i :: 0 <= i < |rules| && rules[i].id !in DefinedIds(defs) ==> !(kws[i] <= DefinedIds(defs))
    ensures UniqueIds(rules) ==> UniqueDefines(defs)
  {
    var toEmit := Ids(rules);
    defs := [];
    while true
      invariant DependencyOrdered(defs) && Emitted(rules, actions, combine, defs)
      invariant toEmit == Ids(rules) - DefinedIds(defs) && DefinedIds(defs) <= Ids(rules)
      invariant UniqueIds(rules) ==> UniqueDefines(defs)
      decreases toEmit
    {
      var defs', inLoop := Round(rules, kws, actions, combine, toEmit, defs);
      if inLoop == {} {
        forall i | 0 <= i < |rules| && rules[i].id !in DefinedIds(defs) ensures !(kws[i] <= DefinedIds(defs)) {
          assert rules[i].id in Ids(rules);
        }
        return;
      }
      LessPending(rules, defs, inLoop);
      defs := defs';
      toEmit := toEmit - inLoop;
    }
  }

  /** The two `for id in to_emit` loops: one `Forward()` per pending id,
      then one `<<` binding per pending id, in the same order. */
  method Declarations(rules: seq<Rule>, actions: map<string, string>, combine: set<string>,
                      defs: seq<Statement>, pending: seq<string>)
    returns (st: seq<Statement>)
    requires DependencyOrdered(defs) && Emitted(rules, actions, combine, defs)
    requires forall id :: id in pending <==> id in Ids(rules) && id !in DefinedIds(defs)
    ensures DependencyOrdered(st) && DefinedIds(st) == DefinedIds(defs) && Blocked(st)
    ensures ForwardIds(st) == pending && BindIds(st) == pending
    ensures Wrapped(rules, actions, combine, DefinedIds(defs), st)
    ensures UniqueDefines(defs) ==> UniqueDefines(st)
  {
    EmittedWrapped(rules, actions, combine, DefinedIds(defs), defs);
    NoForwards(defs);
    var withForwards := Forwards(rules, actions, combine, DefinedIds(defs), defs, pending);
    st := Binds(rules, actions, combine, DefinedIds(defs), withForwards, pending);
  }

  /** `name = Forward()` for each pending id, with the id's parse action. */
  method Forwards(rules: seq<Rule>, actions: map<string, string>, combine: set<string>, defined: set<string>,
                  defs: seq<Statement>, pending: seq<string>)
    returns (st: seq<Statement>)
    requires DependencyOrdered(defs) && DefinedIds(defs) == defined
    requires forall s :: s in defs ==> s.Define?
    requires ForwardIds(defs) == [] && BindIds(defs) == []
    requires Wrapped(rules, actions, combine, defined, defs)
    requires forall id :: id in pending ==> id in Ids(rules) && id !in defined
    ensures DependencyOrdered(st) && DefinedIds(st) == defined && Blocked(st)
    ensures forall s :: s in st ==> KindRank(s) <= 1
    ensures ForwardIds(st) == pending && BindIds(st) == []
    ensures Wrapped(rules, actions, combine, defined, st)
    ensures UniqueDefines(defs) ==> UniqueDefines(st)
  {
    st := defs;
    var i := 0;
    while i < |pending|
      invariant i <= |pending|
      invariant ForwardsInv(rules, actions, combine, defined, defs, pending, i, st)
    {
      var s := ForwardDecl(pending[i], Lookup(actions, pending[i]));
      ForwardsStep(rules, actions, combine, defined, defs, pending, i, st);
      st := st + [s];
      i := i + 1;
    }
    assert pending[..|pending|] == pending;
  }

  predicate ForwardsInv(rules: seq<Rule>, actions: map<string, string>, combine: set<string>, defined: set<string>,
                        defs: seq<Statement>, pending: seq<string>, i: nat, st: seq<Statement>)
    requires i <= |pending|
  {
    (forall id :: id in pending ==> id in Ids(rules) && id !in defined) &&
    Layout(rules, actions, combine, defined, st) &&
    (forall s :: s in st ==> KindRank(s) <= 1) &&
    ForwardIds(st) == pending[..i] && BindIds(st) == [] &&
    (UniqueDefines(defs) ==> UniqueDefines(st))
  }

  lemma ForwardsStep(rules: seq<Rule>, actions: map<string, string>, combine: set<string>, defined: set<string>,
                     defs: seq<Statement>, pending: seq<string>, i: nat, st: seq<Statement>)
    requires i < |pending| && ForwardsInv(rules, actions, combine, defined, defs, pending, i, st)
    ensures ForwardsInv(rules, actions, combine, defined, defs, pending, i + 1,
                        st + [ForwardDecl(pending[i], Lookup(actions, pending[i]))])
  {
    var s := ForwardDecl(pending[i], Lookup(actions, pending[i]));
    assert pending[i] in pending;
    LayoutAppend(rules, actions, combine, defined, st, s);
    TakeOneMore(pending, i);
    forall x | x in st + [s] ensures KindRank(x) <= 1 {
      if x != s { assert x in st; }
    }
  }

  /** `name << (expr)` for each pending id, with the first rule body given
      for it, wrapped in `Suppress` when the id is in `combine`. */
  method Binds(rules: seq<Rule>, actions: map<string, string>, combine: set<string>, defined: set<string>,
               decls: seq<Statement>, pending: seq<string>)
    returns (st: seq<Statement>)
    requires DependencyOrdered(decls) && DefinedIds(decls) == defined && Blocked(decls)
    requires forall s :: s in decls ==> KindRank(s) <= 1
    requires ForwardIds(decls) == pending && BindIds(decls) == []
    requires Wrapped(rules, actions, combine, defined, decls)
    requires forall id :: id in pending ==> id in Ids(rules)
    ensures DependencyOrdered(st) && DefinedIds(st) == defined && Blocked(st)
    ensures ForwardIds(st) == pending && BindIds(st) == pending
    ensures Wrapped(rules, actions, combine, defined, st)
    ensures UniqueDefines(decls) ==> UniqueDefines(st)
  {
    st := decls;
    var i := 0;
    while i < |pending|
      invariant i <= |pending|
      invariant BindsInv(rules, actions, combine, defined, decls, pending, i, st)
    {
      var id := pending[i];
      assert id in pending;
      var body := FirstBody(rules, id);
      var s := Bind(id, body.value, id in combine);
      BindsStep(rules, actions, combine, defined, decls, pending, i, st);
      st := st + [s];
      i := i + 1;
    }
    assert pending[..|pending|] == pending;
  }

  predicate BindsInv(rules: seq<Rule>, actions: map<string, string>, combine: set<string>, defined: set<string>,
                     decls: seq<Statement>, pending: seq<string>, i: nat, st: seq<Statement>)
    requires i <= |pending|
  {
    (forall id :: id in pending ==> id in Ids(rules)) &&
    Layout(rules, actions, combine, defined, st) &&
    ForwardIds(st) == pending && BindIds(st) == pending[..i] &&
    (UniqueDefines(decls) ==> UniqueDefines(st))
  }

  lemma BindsStep(rules: seq<Rule>, actions: map<string, string>, combine: set<string>, defined: set<string>,
                  decls: seq<Statement>, pending: seq<string>, i: nat, st: seq<Statement>)
    requires i < |pending| && BindsInv(rules, actions, combine, defined, decls, pending, i, st)
    ensures pending[i] in Ids(rules)
    ensures BindsInv(rules, actions, combine, defined, decls, pending, i + 1,
                     st + [Bind(pending[i], FirstBody(rules, pending[i]).value, pending[i] in combine)])
  {
    assert pending[i] in pending;
    var s := Bind(pending[i], FirstBody(rules, pending[i]).value, pending[i] in combine);
    LayoutAppend(rules, actions, combine, defined, st, s);
    TakeOneMore(pending, i);
  }

  lemma TakeOneMore<T>(q: seq<T>, i: nat)
    requires i < |q|
    ensures q[..i + 1] == q[..i] + [q[i]]
  {
  }

  /** The invariant of the declaration loops: definitions stay in
      dependency order, the kinds stay in blocks and every statement is
      wrapped as its rule asks. */
  predicate Layout(rules: seq<Rule>, actions: map<string, string>, combine: set<string>,
                   defined: set<string>, st: seq<Statement>)
  {
    DependencyOrdered(st) && DefinedIds(st) == defined && Blocked(st) && Wrapped(rules, actions, combine, defined, st)
  }

  lemma LayoutAppend(rules: seq<Rule>, actions: map<string, string>, combine: set<string>,
                     defined: set<string>, st: seq<Statement>, s: Statement)
    requires Layout(rules, actions, combine, defined, st) && !s.Define?
    requires forall x :: x in st ==> KindRank(x) <= KindRank(s)
    requires s.id in Ids(rules) && WrappedOne(rules, actions, combine, defined, s)
    ensures Layout(rules, actions, combine, defined, st + [s])
    ensures ForwardIds(st + [s]) == ForwardIds(st) + (if s.ForwardDecl? then [s.id] else [])
    ensures BindIds(st + [s]) == BindIds(st) + (if s.Bind? then [s.id] else [])
    ensures UniqueDefines(st) ==> UniqueDefines(st + [s])
  {
    AppendOther(st, s);
    WrappedAppend(rules, actions, combine, defined, st, s);
  }

  /** What each statement of the output says about its rule: every id is a
      rule's; definitions are wrapped as `Emitted` says; declarations are
      for ids not defined directly and carry the rule's parse action;
      bindings use the first body given for the id, suppressed when the id
      is in `combine`. */
  predicate Wrapped(rules: seq<Rule>, actions: map<string, string>, combine: set<string>,
                    defined: set<string>, st: seq<Statement>)
  {
    forall s :: s in st ==> s.id in Ids(rules) && WrappedOne(rules, actions, combine, defined, s)
  }

  predicate WrappedOne(rules: seq<Rule>, actions: map<string, string>, combine: set<string>,
                       defined: set<string>, s: Statement)
  {
    match s
    case Define(id, body, combined, action) =>
      combined == (id in combine) && action == Lookup(actions, id) && Rule(id, body) in rules
    case ForwardDecl(id, action) => id !in defined && action == Lookup(actions, id)
    case Bind(id, body, suppressed) => suppressed == (id in combine) && Some(body) == FirstBody(rules, id)
  }

  lemma EmittedWrapped(rules: seq<Rule>, actions: map<string, string>, combine: set<string>,
                       defined: set<string>, st: seq<Statement>)
    requires Emitted(rules, actions, combine, st)
    ensures Wrapped(rules, actions, combine, defined, st)
  {
    forall s | s in st ensures s.id in Ids(rules) {
      var i :| 0 <= i < |rules| && rules[i] == Rule(s.id, s.body);
    }
  }

  lemma WrappedAppend(rules: seq<Rule>, actions: map<string, string>, combine: set<string>,
                      defined: set<string>, st: seq<Statement>, s: Statement)
    requires Wrapped(rules, actions, combine, defined, st)
    requires s.id in Ids(rules) && WrappedOne(rules, actions, combine, defined, s)
    ensures Wrapped(rules, actions, combine, defined, st + [s])
  {
  }

  /** Ids of the `Forward()` declarations, in order. */
  function ForwardIds(st: seq<Statement>): seq<string>
  {
    if st == [] then []
    else ForwardIds(st[..|st| - 1]) + (if st[|st| - 1].ForwardDecl? then [st[|st| - 1].id] else [])
  }

  /** Ids of the `<<` bindings, in order. */
  function BindIds(st: seq<Statement>): seq<string>
  {
    if st == [] then []
    else BindIds(st[..|st| - 1]) + (if st[|st| - 1].Bind? then [st[|st| - 1].id] else [])
  }

  lemma {:induction false} NoForwards(defs: seq<Statement>)
    requires forall s :: s in defs ==> s.Define?
    ensures ForwardIds(defs) == [] && BindIds(defs) == []
  {
    if defs != [] {
      assert defs[|defs| - 1] in defs;
      NoForwards(defs[..|defs| - 1]);
    }
  }

  /** Appending a declaration or binding keeps the definitions and their
      order, and extends the declaration or binding ids by one. */
  lemma AppendOther(st: seq<Statement>, s: Statement)
    requires !s.Define?
    requires DependencyOrdered(st)
    requires forall x :: x in st ==> KindRank(x) <= KindRank(s)
    requires Blocked(st)
    ensures DependencyOrdered(st + [s]) && DefinedIds(st + [s]) == DefinedIds(st)
    ensures Blocked(st + [s])
    ensures ForwardIds(st + [s]) == ForwardIds(st) + (if s.ForwardDecl? then [s.id] else [])
    ensures BindIds(st + [s]) == BindIds(st) + (if s.Bind? then [s.id] else [])
    ensures UniqueDefines(st) ==> UniqueDefines(st + [s])
  {
    var t := st + [s];
    assert t[..|st|] == st;
    forall j | 0 <= j < |t| && t[j].Define?
      ensures FindKeywords(t[j].body).Some? &&
        forall k :: k in FindKeywords(t[j].body).value ==> k in DefinedIds(t[..j])
    {
      assert j < |st| && t[..j] == st[..j] && t[j] == st[j];
    }
    forall i, j | 0 <= i < j < |t| ensures KindRank(t[i]) <= KindRank(t[j]) {
      if j == |st| { assert t[i] == st[i] && st[i] in st; } else { assert t[i] == st[i] && t[j] == st[j]; }
    }
  }
}
