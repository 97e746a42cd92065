# IfcOpenShell core, modelled in Dafny

This project models the deterministic core of IfcOpenShell, the IFC toolkit, and
proves properties of that model. There is one Dafny module per component:

- **EXPRESS schema compiler** (`IfcExpressParser.py`), in three modules:
  - `ExpressTokenizer`: the two-character-lookahead tokenizer with `(* … *)` remarks (ISO 10303-11, section 7.1.6).
  - `ExpressSchema`: the global schema tables filled by `Typedef` and `Classdef`, and `argument_start`, the index where an entity's own attributes begin.
  - `ExpressEmit`: the accessor classifier, the per-enumeration tables, the global `Type` enumeration (`ToString`, `FromString`, `Parent`), the `SchemaEntity` dispatch order, the typedef order, and the fixed-point loop that prints header classes parent first. Emitted code is modelled as structured records, not as C++ text.
- **Grammar bootstrap** (`bootstrap.py`), module `GrammarBootstrap`:
  - the `GrammarExpr` tree and `find_keywords`;
  - terminal and expression rendering;
  - the fixed-point, dependency-ordered emission of rules, with `Forward()` declarations and `<<` bindings for the rules it cannot order.
- **Runtime descriptor emitter** (`rt_implementation.py`), module `RuntimeTyping`: simple-type descriptors, entity descriptors in supertype order, attribute filtering, enumeration descriptors and derived-field index lists.
- **STEP reader** (`IfcParse.cpp`; exchange-structure syntax of ISO 10303-21, clause 5), in four modules:
  - `StepFile`: the windowed file buffer.
  - `StepLexer`: `Tokens::Next`, `Tokens::TokenString`, the token encoding and the `TokenFunc` conversions.
  - `StepArguments`: the nested `ArgumentList` reader and the argument accessors.
  - `StepIndex`: the `Ifc::Init` indexing loop, the lookups and `getInverse`.
- **Containers** (`IfcUtil.h`), module `IfcUtil`: `IfcTemplatedEntityList`, `Nullable` and `Null`.
- **BIMserver model** (`IfcOpenShellModel.java`), module `BimserverModel`: mesh concatenation with index rebasing in `finalizeModelling`, and the instance lookups.
- **Triangulation tables** (`IfcGeomObjects.cpp`), module `GeomObjects`: vertex welding in `addvert`, the material, face and material-id tables of the triangulation, the representation filter, `Settings`, and the `Get`/`GetBrepData`/`GetObject` guards.

`Wrappers` holds `Option` and `Result`. `Strings` holds ASCII upper-casing and Python's `sorted` on a set of strings.

Modelling conventions:
- A null pointer is `None`, and a thrown exception is `Failure(message)`.
- Stateful parts become classes whose methods are proved against pure specification functions. Examples: `Tokens.Next` against `NextToken`, `Ifc.Init` against `Indexed`, `Triangulation.AddTriangles` against `Corners`.
- A source loop that can run forever is modelled as a terminating method or function. It returns `None` exactly when a round makes no progress, which is the state in which the source loops forever.
- Python's iteration over a set is an arbitrary order, so each member is visited once in a nondeterministic order.

## Model

| member | source | states |
|---|---|---|
| Strings.Upper | src/ifcexpressparser/IfcExpressParser.py:141 | Same length as the input; each lower-case ASCII letter becomes its capital and every other character is kept |
| Strings.Sorted | src/ifcexpressparser/IfcExpressParser.py:371-372 | Holds exactly the members of the set, strictly ascending, one entry per member |
| ExpressTokenizer.Scan | src/ifcexpressparser/IfcExpressParser.py:59-78 | The scanning loop never moves backwards; started with an empty buffer, any token it emits has consumed at least one character |
| ExpressTokenizer.NextToken | src/ifcexpressparser/IfcExpressParser.py:53-79 | Each call that yields a token moves strictly forward and stays within the text |
| ExpressTokenizer.ScanShape | src/ifcexpressparser/IfcExpressParser.py:65-78 | Every emitted token is non-empty and has no whitespace; a token that holds a character of `,;()=[]:` is exactly that one character |
| ExpressTokenizer.NextTokenShape | src/ifcexpressparser/IfcExpressParser.py:65-78 | The same token shape for one call of `next` |
| ExpressTokenizer.StopsNearEnd | src/ifcexpressparser/IfcExpressParser.py:60-61 | With fewer than two characters left the stream ends, whatever token was being built |
| ExpressTokenizer.TrailingTokenDropped | src/ifcexpressparser/IfcExpressParser.py:60-61 | A token that runs into the last character is never emitted: `ab c` gives only `ab`, and `abc` gives no token |
| ExpressTokenizer.RemarkSkippedWhenBufferEmpty | src/ifcexpressparser/IfcExpressParser.py:62-64 | Inside a remark with nothing buffered, everything up to the closing `*)` is skipped |
| ExpressTokenizer.RemarkLeaksAcrossCalls | src/ifcexpressparser/IfcExpressParser.py:56-73 | As written, remark text becomes a token: on `A(* B *);;` the first call returns `A` from inside the remark, and the next call returns `B` |
| ExpressTokenizer.ScanFixed | src/ifcexpressparser/IfcExpressParser.py:59-78 | The corrected scan, which does not end a token on whitespace inside a remark; it keeps the progress guarantee of `Scan` |
| ExpressTokenizer.FixedRemarkTransparent | src/ifcexpressparser/IfcExpressParser.py:62-64 | In the corrected scan, a whole remark is skipped whatever has been buffered, so no remark character reaches a token |
| ExpressTokenizer.FixedExample | src/ifcexpressparser/IfcExpressParser.py:74-78 | The corrected scan reads `A(* B *);;` as `A` and leaves the cursor after the closing `*)` |
| ExpressTokenizer.Tokenizer.constructor | src/ifcexpressparser/IfcExpressParser.py:45-47 | A tokenizer over the given text, positioned at its start |
| ExpressTokenizer.Tokenizer.Next | src/ifcexpressparser/IfcExpressParser.py:53-79 | The result is `NextToken` at the old position; the cursor ends after the token, or at the end when the stream stops |
| ExpressTokenizer.Tokenizer.ReadAll | src/ifcexpressparser/IfcExpressParser.py:313 | `list(Tokenizer(f))` is exactly `Tokens` of the text, and the whole text is consumed |
| ExpressTokenizer.TokensShape | src/ifcexpressparser/IfcExpressParser.py:65-78 | Every token of a whole stream is non-empty and has no whitespace |
| ExpressSchema.CppNameMapped | src/ifcexpressparser/IfcExpressParser.py:84-91 | No EXPRESS builtin survives the mapping. A builtin becomes one of the C++ types every header knows; any other name is kept. Mapping twice changes nothing |
| ExpressSchema.ParsedTypesMapped | src/ifcexpressparser/IfcExpressParser.py:116-130 | A parsed scalar or aggregate element never names an EXPRESS builtin; a name that is not a builtin is kept as written, and so are an aggregate's kind and bounds |
| ExpressSchema.Walk | src/ifcexpressparser/IfcExpressParser.py:104-111 | A walk up the parent relation that ends returns a supertype chain of the class and visits no defined class twice |
| ExpressSchema.Ancestors | src/ifcexpressparser/IfcExpressParser.py:104-111 | A class outside the relation has no ancestors; otherwise the chain found is a chain of the class that does not contain it |
| ExpressSchema.RootStartsAtZero | src/ifcexpressparser/IfcExpressParser.py:104-111 | A root, stored with parent `None`, starts its attributes at index 0 |
| ExpressSchema.StartAfterParent | src/ifcexpressparser/IfcExpressParser.py:104-111 | The start of a class is its parent's explicit-attribute count plus the parent's own start |
| ExpressSchema.StartAfterForeignParent | src/ifcexpressparser/IfcExpressParser.py:104-111 | A parent that is not a defined entity contributes only its count, and the walk stops there |
| ExpressSchema.CycleHasNoStart | src/ifcexpressparser/IfcExpressParser.py:104-111 | When the supertype chain of an entity runs into a cycle of any length, `argument_start` never returns |
| ExpressSchema.NoStartIsCycle | src/ifcexpressparser/IfcExpressParser.py:104-111 | Conversely, an entity for which `argument_start` never returns has a supertype chain, starting at it, that runs into a cycle |
| ExpressSchema.TwoClassCycle | src/ifcexpressparser/IfcExpressParser.py:107-110 | Two entities that name each other as parent have no start index |
| ExpressSchema.GeneratedIsAncestry | src/ifcexpressparser/IfcExpressParser.py:251-252 | The generated recursive `is(v)` holds exactly for the class itself and the classes on its supertype chain |
| ExpressSchema.IsMeansAncestry | src/ifcexpressparser/IfcExpressParser.py:251-252 | `is(v)` holds iff `v` is the class or one of its ancestors |
| ExpressSchema.Schema.constructor | src/ifcexpressparser/IfcExpressParser.py:92-99 | All global tables start empty |
| ExpressSchema.Schema.AddTypedef | src/ifcexpressparser/IfcExpressParser.py:145-162 | Records the type as simple; also as an enumeration or a selection by its body; a selection adds its simple members to the selectable simple types; nothing else changes |
| ExpressSchema.Schema.AddClassdef | src/ifcexpressparser/IfcExpressParser.py:228-233 | Adds the entity name; stores its parent, or `None` for a root; stores its explicit-attribute count; nothing else changes |
| ExpressSchema.Schema.ArgumentStart | src/ifcexpressparser/IfcExpressParser.py:104-111 | The loop returns the start given by the ancestry chain |
| ExpressEmit.BodyAgreesWithReturn | src/ifcexpressparser/IfcExpressParser.py:198-212 | When no name is both an enumeration and an entity, a scalar's body and return type agree case by case |
| ExpressEmit.BodyAndReturnDisagreeOnClash | src/ifcexpressparser/IfcExpressParser.py:198-212 | A name that is both gets an entity cast but an enumeration return type, because the two chains test in opposite orders |
| ExpressEmit.Accessors | src/ifcexpressparser/IfcExpressParser.py:184-215 | One accessor per attribute; the k-th reads argument `argstart + k`; an optional one also gets a `has` test on the same index |
| ExpressEmit.ClassAccessors | src/ifcexpressparser/IfcExpressParser.py:249-250 | A class's k-th own attribute reads index `argument_start + k` |
| ExpressEmit.EnumValues | src/ifcexpressparser/IfcExpressParser.py:133 | `NULL` is renamed `IFC_NULL`, every other value is kept, and the order is kept |
| ExpressEmit.EnumFromStringOf | src/ifcexpressparser/IfcExpressParser.py:141-173 | Returns the first value whose upper-cased form equals the input: no earlier value matches. Fails iff none does |
| ExpressEmit.EnumFromStringNamesValue | src/ifcexpressparser/IfcExpressParser.py:141-173 | The value `FromString` finds converts back, through `ToString`, to a name whose upper-cased form is the input |
| ExpressEmit.EnumRoundTrip | src/ifcexpressparser/IfcExpressParser.py:133-173 | With values distinct once upper-cased, `FromString(upper(ToString(v))) == v` |
| ExpressEmit.TypeEnumeration | src/ifcexpressparser/IfcExpressParser.py:371-373 | The global enumeration is the sorted selectable simple types, then the sorted entity names |
| ExpressEmit.TypeFromString | src/ifcexpressparser/IfcExpressParser.py:446-452 | Returns the first name whose upper-cased form equals the input: no earlier name matches. Fails iff none does |
| ExpressEmit.TypeFromStringNamesValue | src/ifcexpressparser/IfcExpressParser.py:440-452 | The ordinal `FromString` finds converts back, through `ToString`, to a name whose upper-cased form is the input |
| ExpressEmit.TypeParentCases | src/ifcexpressparser/IfcExpressParser.py:454-460 | `Parent` is -1 outside `[0, n)` and for simple types. For an entity it is the identifier `None` exactly when the entity is a root; a parent among the enumerated names gives that name's ordinal |
| ExpressEmit.ParentNameRoundTrip | src/ifcexpressparser/IfcExpressParser.py:454-460 | The ordinal `Parent` returns names, through `ToString`, the entity's stored parent |
| ExpressEmit.TypeRoundTrip | src/ifcexpressparser/IfcExpressParser.py:440-452 | With names distinct once upper-cased, `FromString(upper(ToString(v))) == v` |
| ExpressEmit.SchemaEntityDispatch | src/ifcexpressparser/IfcExpressParser.py:433-438 | Simple types are tested before entities; an ordinal outside both reaches the bare `throw;`, modelled as a failure |
| ExpressEmit.Group | src/ifcexpressparser/IfcExpressParser.py:397-407 | A group holds exactly the typedefs of its category |
| ExpressEmit.TypedefOrderIsPermutation | src/ifcexpressparser/IfcExpressParser.py:397-407 | Every typedef is printed exactly once, and the groups come in the order of the four loops |
| ExpressEmit.Pending | src/ifcexpressparser/IfcExpressParser.py:414 | The classes of a round are exactly those not yet defined |
| ExpressEmit.HeaderRound | src/ifcexpressparser/IfcExpressParser.py:416-419 | One round only appends classes whose parent is already defined, and keeps names unique; a round that defines nothing saw no such class |
| ExpressEmit.NoProgressIsStuck | src/ifcexpressparser/IfcExpressParser.py:413-419 | A round without progress leaves the loop stuck, with every pending class waiting on an undefined parent |
| ExpressEmit.RankedNeverStuck | src/ifcexpressparser/IfcExpressParser.py:412-419 | With every parent defined and no cycle, the loop never gets stuck |
| ExpressEmit.HeaderOrder | src/ifcexpressparser/IfcExpressParser.py:412-419 | When it ends, every class is printed once and after its parent; it reports non-termination only in a stuck state; an acyclic, complete schema always ends |
| GrammarBootstrap.Elements | src/ifcexpressparser/bootstrap.py:32-33 | The children of an expression are smaller than it |
| GrammarBootstrap.FindKeywordsSound | src/ifcexpressparser/bootstrap.py:97-107 | When it returns, `find_keywords` gives exactly the names of the keyword leaves of the tree |
| GrammarBootstrap.FindInAllSound | src/ifcexpressparser/bootstrap.py:104-106 | The keywords of a list of children are the union of theirs |
| GrammarBootstrap.FindKeywordsTotal | src/ifcexpressparser/bootstrap.py:97-107 | On trees where no `Term` directly holds a `Term`, `find_keywords` returns |
| GrammarBootstrap.NestedTermRaises | src/ifcexpressparser/bootstrap.py:99-106 | A `Term` of a `Term` of a keyword or terminal makes `find_keywords` raise: the outer `Term` is unwrapped once, and the inner one is then iterated over a single leaf |
| GrammarBootstrap.TermOfLeaf | src/ifcexpressparser/bootstrap.py:97-103 | A `Term` of a keyword gives that keyword's name; a `Term` of a terminal gives no keyword |
| GrammarBootstrap.KeywordTerminals | src/ifcexpressparser/bootstrap.py:59-64 | A double-quoted text is a `CaselessKeyword` iff it has at least two characters inside, all alphanumerics or `_`; a single-quoted text is always a `CaselessLiteral` |
| GrammarBootstrap.TerminalExamples | src/ifcexpressparser/bootstrap.py:59-64 | `"END"` is a keyword; short, single-quoted or punctuated terminals are literals |
| GrammarBootstrap.RenderAllMembers | src/ifcexpressparser/bootstrap.py:29 | The i-th rendering is the rendering of the i-th element |
| GrammarBootstrap.RenderShapes | src/ifcexpressparser/bootstrap.py:27-31 | A `Term` renders as its contents; a binary union or concatenation renders as `(a \| b)` or `(a + b)`; `Optional` and `ZeroOrMore` wrap their contents |
| GrammarBootstrap.RenderExample | src/ifcexpressparser/bootstrap.py:27-48 | A union renders as `(a \| b)`, and an optional wraps its contents in `Optional(...)` |
| GrammarBootstrap.FirstBody | src/ifcexpressparser/bootstrap.py:155 | Finds a body exactly for the ids of the grammar |
| GrammarBootstrap.FirstBodyIsFirst | src/ifcexpressparser/bootstrap.py:155 | The body is that of the earliest rule with that id |
| GrammarBootstrap.AllKeywords | src/ifcexpressparser/bootstrap.py:136 | Fails iff some rule's keyword search raises; otherwise one keyword set per rule, equal to the names its body mentions |
| GrammarBootstrap.Enumerate | src/ifcexpressparser/bootstrap.py:150-154 | Iterating a set visits each member exactly once |
| GrammarBootstrap.Round | src/ifcexpressparser/bootstrap.py:134-147 | A round defines a pending rule only when all its keywords are already defined, counting rules defined earlier in the same round; definitions stay dependency-ordered and wrapped; a round that defines nothing leaves every pending rule blocked |
| GrammarBootstrap.Visit | src/ifcexpressparser/bootstrap.py:135-146 | One rule of a round keeps the round's order, ids and uniqueness invariants |
| GrammarBootstrap.Definitions | src/ifcexpressparser/bootstrap.py:133-148 | The loop ends; at the fixed point every undefined rule references an undefined name |
| GrammarBootstrap.Forwards | src/ifcexpressparser/bootstrap.py:150-152 | One `Forward()` declaration per pending rule, carrying its parse action |
| GrammarBootstrap.Binds | src/ifcexpressparser/bootstrap.py:154-159 | One `<<` binding per pending rule, in the same order as the declarations; combined rules are wrapped in `Suppress` |
| GrammarBootstrap.Declarations | src/ifcexpressparser/bootstrap.py:150-159 | All declarations precede all bindings, and both list exactly the pending rules |
| GrammarBootstrap.EmitRules | src/ifcexpressparser/bootstrap.py:127-159 | Definitions, then declarations, then bindings. Every definition comes after the definitions it references. The forward-declared rules are exactly the rules not defined directly, each declared and bound once. With unique rule names no rule is defined twice. Fails iff a keyword search raises |
| RuntimeTyping.SimpleDescriptors | src/ifcexpressparser/rt_implementation.py:30-39 | Each simple type gets a descriptor with parent `0` and the single non-optional attribute `wrappedValue` of its type |
| RuntimeTyping.AttributeOf | src/ifcexpressparser/rt_implementation.py:51-57 | The optional flag is `true` iff the argument is optional, and otherwise `false`; the enum template, carrying the enum type, is used iff the tag is `Argument_ENUMERATION` |
| RuntimeTyping.OwnMembers | src/ifcexpressparser/rt_implementation.py:49-50 | The filter keeps exactly the arguments that are not inherited |
| RuntimeTyping.AttributeDescriptors | src/ifcexpressparser/rt_implementation.py:47-58 | One attribute entry per non-inherited argument, in the given order |
| RuntimeTyping.Pass | src/ifcexpressparser/rt_implementation.py:44-67 | A pass only adds names; it emits something iff the emitted set grows |
| RuntimeTyping.PassSound | src/ifcexpressparser/rt_implementation.py:44-59 | A pass emits only entities that are not yet emitted and whose supertypes were emitted before them |
| RuntimeTyping.EmitsOnce | src/ifcexpressparser/rt_implementation.py:45-59 | No entity is emitted twice |
| RuntimeTyping.ScheduleSound | src/ifcexpressparser/rt_implementation.py:43-67 | When the while loop ends, every entity has been emitted once, in an allowed order |
| RuntimeTyping.PassProgress | src/ifcexpressparser/rt_implementation.py:43-46 | A pending entity that is ready makes the pass emit |
| RuntimeTyping.ProperSubsetHangs | src/ifcexpressparser/rt_implementation.py:46 | As written, with `B` a subtype of `A`, `B` is never emitted and the loop never ends |
| RuntimeTyping.SubsetEmitsChild | src/ifcexpressparser/rt_implementation.py:46 | With the plain subset test, the same schema is emitted `A` then `B` |
| RuntimeTyping.SubsetTerminates | src/ifcexpressparser/rt_implementation.py:43-46 | With the plain subset test, every acyclic hierarchy whose supertypes are all defined is fully emitted |
| RuntimeTyping.DescribeParent | src/ifcexpressparser/rt_implementation.py:47-67 | The parent link is `0` unless there is exactly one supertype, which it then names; the attributes are exactly those of the non-inherited arguments |
| RuntimeTyping.EmitPass | src/ifcexpressparser/rt_implementation.py:44-67 | The `for` loop realises one pass and describes the entities emitted, in order |
| RuntimeTyping.EntityDescriptors | src/ifcexpressparser/rt_implementation.py:41-67 | Reports non-termination exactly when the schedule never ends; otherwise the descriptors of the schedule, in order |
| RuntimeTyping.EnumerationDescriptors | src/ifcexpressparser/rt_implementation.py:69-76 | One descriptor per enumeration, with its values in declaration order |
| RuntimeTyping.DerivedIndices | src/ifcexpressparser/rt_implementation.py:80 | At most one index per argument |
| RuntimeTyping.DerivedIndicesEmpty | src/ifcexpressparser/rt_implementation.py:80-81 | The statement list is empty iff no argument is derived |
| RuntimeTyping.DerivedIndicesMembers | src/ifcexpressparser/rt_implementation.py:80 | It holds `index - 1` of every derived argument and nothing else |
| RuntimeTyping.DerivedOfMembers | src/ifcexpressparser/rt_implementation.py:78-85 | Exactly the entities with a derived argument get a routine, each with a non-empty list |
| RuntimeTyping.DerivedFieldStatements | src/ifcexpressparser/rt_implementation.py:78-85 | The loop builds the routines of `DerivedOf` |
| RuntimeTyping.Build | src/ifcexpressparser/rt_implementation.py:26-93 | The k-th descriptor is the simple type k with its single `wrappedValue` attribute; then come the entity descriptors in schedule order. The k-th enumeration descriptor has the name and values of enumeration k, and the derived table is built from the entities. It reports non-termination exactly when the entity loop never ends |
| StepFile.File.constructor | src/ifcparse/IfcParse.cpp:31-47 | Valid iff the file opens; the cursor starts at 0 with end of file iff the file is empty |
| StepFile.File.ReadBuffer | src/ifcparse/IfcParse.cpp:57-68 | Optionally moves the window by its length, then loads it; `ptr` is 0, and end of file holds iff nothing was read |
| StepFile.File.Seek | src/ifcparse/IfcParse.cpp:73-82 | `Tell()` becomes `o`. Inside the loaded window only `ptr` moves; otherwise the window reloads at `o` with `ptr` 0 |
| StepFile.File.Peek | src/ifcparse/IfcParse.cpp:87-89 | The character at the cursor |
| StepFile.File.Read | src/ifcparse/IfcParse.cpp:94-102 | The character at `o`, or none past the end |
| StepFile.File.Inc | src/ifcparse/IfcParse.cpp:114-116 | `Tell()` advances by one; end of file holds iff the cursor passed the content |
| StepLexer.TokenEncoding | src/ifcparse/IfcParse.cpp:207-220 | `Offset` inverts `TokenPtr(o)`, and an offset token is no operator. A character token is an operator matching `op` iff `op` is 0 or equal to it. The null token matches only 0 |
| StepLexer.SkipSpace | src/ifcparse/IfcParse.cpp:131-136 | Stops at the first character that is not space, `\r`, `\n` or `\t`, or at the end; everything skipped is whitespace |
| StepLexer.Scan | src/ifcparse/IfcParse.cpp:150-171 | The scan never moves back. When it stops before the end it stops on a delimiter, with a token of positive length; otherwise it stops at the end of the content |
| StepLexer.NextShape | src/ifcparse/IfcParse.cpp:125-174 | `Next` returns null only at the end. The single characters `()=,;$*` become their own tokens. Any other token is its start offset after whitespace, and the cursor moves past it |
| StepLexer.ScanKeepsFirst | src/ifcparse/IfcParse.cpp:153-172 | Starting on a non-blank character, the token has positive length |
| StepLexer.Text | src/ifcparse/IfcParse.cpp:188-198 | The text read only extends what was buffered |
| StepLexer.TokenTextStart | src/ifcparse/IfcParse.cpp:180-198 | The text of a token that starts on a non-blank character begins with that character |
| StepLexer.Tokens.constructor | src/ifcparse/IfcParse.cpp:118-120 | The tokens read the given file |
| StepLexer.Tokens.Next | src/ifcparse/IfcParse.cpp:125-174 | The token and the new cursor are `NextToken` at the old cursor |
| StepLexer.Tokens.SkipBlanks | src/ifcparse/IfcParse.cpp:131-136 | The cursor moves to `SkipSpace`, with end of file iff it passed the content |
| StepLexer.Tokens.ScanRest | src/ifcparse/IfcParse.cpp:150-171 | The scanning loop leaves the cursor and length that `Scan` gives |
| StepLexer.Tokens.ScanChar | src/ifcparse/IfcParse.cpp:156-170 | One character of the scan: either it stops without moving, or it consumes one character with the `Scan` equation preserved |
| StepLexer.Tokens.TokenString | src/ifcparse/IfcParse.cpp:180-201 | Returns `TokenText` at `o` and restores the cursor it started from |
| StepLexer.Tokens.ReadText | src/ifcparse/IfcParse.cpp:183-198 | The reading loop returns the text of the token at the cursor |
| StepLexer.Tokens.TextChar | src/ifcparse/IfcParse.cpp:189-197 | One character of the reading loop, with the `Text` equation preserved |
| StepLexer.Inner | src/ifcparse/IfcParse.cpp:250 | Removes the first and last characters; a text shorter than 2 becomes empty |
| StepLexer.AsStringCases | src/ifcparse/IfcParse.cpp:246-251 | `$` gives `""`, any other operator throws, and string and enumeration tokens lose their quotes. Other tokens give their text |
| StepLexer.ConversionErrors | src/ifcparse/IfcParse.cpp:233-255 | `asInt` throws iff the token is not an identifier. `asBool` throws iff `asString` does, and is true iff the text is `T`. `toString` never throws and gives an operator's own character |
| StepLexer.IdentifierExample | src/ifcparse/IfcParse.cpp:233-237 | `#12` reads as 12 |
| StepArguments.ReadList | src/ifcparse/IfcParse.cpp:270-288 | A successful read ends at or after where it began, within the text |
| StepArguments.LoadAt | src/ifcparse/IfcParse.cpp:432-444 | A successful load moves strictly past its offset |
| StepArguments.ReadListError | src/ifcparse/IfcParse.cpp:270-288 | Within the code modelled, the only error a list read can raise is an unexpected datatype token |
| StepArguments.ReadListErrorEntity | src/ifcparse/IfcParse.cpp:277-282 | Within the code modelled, a nested entity argument can fail only with an unexpected datatype token |
| StepArguments.LoadAtError | src/ifcparse/IfcParse.cpp:432-444 | The same for loading an entity, within the code modelled |
| StepArguments.ReadIds | src/ifcparse/IfcParse.cpp:270-288 | `ids` gains exactly the numbers of the `#n` arguments read, depth first, at every nesting level |
| StepArguments.LoadIds | src/ifcparse/IfcParse.cpp:432-444 | The same for an entity's argument list |
| StepArguments.ReadItemsShape | src/ifcparse/IfcParse.cpp:272-274 | `,` and `)` are never stored as arguments |
| StepArguments.AtBounds | src/ifcparse/IfcParse.cpp:337-342 | `operator[]` succeeds iff the argument is a list and `i < Size()`, and then gives the i-th element; past the end it throws `Argument index out of range` |
| StepArguments.JoinedParts | src/ifcparse/IfcParse.cpp:343-352 | `toString` succeeds iff every element prints; its text is the elements' texts joined by commas |
| StepArguments.NullPrintsEmpty | src/ifcparse/IfcParse.cpp:353-373 | `isNull` holds exactly for the `$` token, which prints as the empty string |
| StepArguments.ReadArguments | src/ifcparse/IfcParse.cpp:270-288 | The reader loop computes `ReadList` from the cursor and leaves the cursor where the list ends |
| StepArguments.ReadItem | src/ifcparse/IfcParse.cpp:274-285 | One element of the list agrees with `ReadList`'s first step, including its errors |
| StepArguments.LoadEntity | src/ifcparse/IfcParse.cpp:432-444 | `Load` computes `LoadAt` and leaves the cursor after the list, or after its `;` |
| StepIndex.CreatedKeeps | src/ifcparse/IfcParse.cpp:517-528 | Creating the pending entity keeps the tables consistent and only extends them; it is filed under its datatype name |
| StepIndex.NotedKeeps | src/ifcparse/IfcParse.cpp:531-543 | Noting a reference keeps the tables consistent and only extends them |
| StepIndex.NotedCases | src/ifcparse/IfcParse.cpp:531-543 | After `#n`, `=` makes n the pending entity; any other token adds the latest entity to `byref[n]`. The type and id tables are untouched |
| StepIndex.NotedPlain | src/ifcparse/IfcParse.cpp:531-544 | After anything but an identifier, only `previous` changes |
| StepIndex.IndexedKeeps | src/ifcparse/IfcParse.cpp:516-545 | The whole scan keeps the tables consistent and only extends them |
| StepIndex.InitConsistent | src/ifcparse/IfcParse.cpp:504-545 | Starting from empty tables, `Init` ends with them in agreement: each entity is under its own type, `byid` has the filed entities, and `byref` holds filed entities |
| StepIndex.Ifc.constructor | src/ifcparse/IfcParse.cpp:649-660 | No file and empty tables |
| StepIndex.Ifc.Init | src/ifcparse/IfcParse.cpp:504-545 | A file that does not open gives false and changes no table; otherwise the tables and result are those of `Indexed` over the text |
| StepIndex.Ifc.Advance | src/ifcparse/IfcParse.cpp:517-529 | The first half of one iteration, stated as the `Indexed` step |
| StepIndex.Ifc.Note | src/ifcparse/IfcParse.cpp:530-544 | The second half, stated as `Noted` |
| StepIndex.Ifc.FileEntity | src/ifcparse/IfcParse.cpp:521-527 | The entity is appended to its type's list, creating it if absent, and stored under its id |
| StepIndex.Ifc.FileReference | src/ifcparse/IfcParse.cpp:536-541 | The entity is pushed onto `byref[k]`, creating it if absent |
| StepIndex.LookupsAgree | src/ifcparse/IfcParse.cpp:586-593 | Over tables in agreement, as every scan from empty tables leaves them: a list by type holds only entities of that type; a list by reference holds only entities that are also in the list of their type; the entity by id carries that id and is in the list of its type |
| StepIndex.Ifc.EntityById | src/ifcparse/IfcParse.cpp:594-606 | The result is `ById`; a success is stored in `byid`, and a failure changes nothing |
| StepIndex.ByIdCases | src/ifcparse/IfcParse.cpp:594-606 | Within the code modelled, throws `Entity not found` iff the id is in neither `byid` nor `offsets`; a found entity carries the id asked for |
| StepIndex.Ifc.GetInverse | src/ifcparse/IfcParse.cpp:474-484 | The referencing entities that match the class, in their order |
| StepIndex.InverseMembers | src/ifcparse/IfcParse.cpp:474-484 | Holds exactly the referrers of type `c`, or all of them for `ALL` |
| IfcUtil.PushedShape | src/ifcparse/IfcUtil.h:139 | `push(t)` appends `t` at the end iff it is non-null; otherwise the list is unchanged |
| IfcUtil.EntityList.constructor | src/ifcparse/IfcUtil.h:134-138 | A new list is empty |
| IfcUtil.EntityList.Push | src/ifcparse/IfcUtil.h:139 | The new vector is the old one with `t` pushed as `Pushed` says |
| IfcUtil.EntityList.PushAll | src/ifcparse/IfcUtil.h:140 | The other list's elements are appended in their order |
| IfcUtil.EntityList.Generalize | src/ifcparse/IfcUtil.h:145-149 | A new list with the same elements in the same order |
| IfcUtil.PushesKeepOrder | src/ifcparse/IfcUtil.h:139-142 | After any sequence of pushes, the list is its old elements followed by the non-null pushed ones in push order |
| IfcUtil.NullableCases | src/ifcparse/IfcUtil.h:76-89 | `Nullable(v)` converts back to `v` and is not null, and `Nullable()` is null. The two never agree, `Nullable(v)` is injective, and every value is one or the other, built from the value it holds |
| IfcUtil.AssignAsWritten | src/ifcparse/IfcUtil.h:103 | As written, assigning text replaces the value and keeps the null flag |
| IfcUtil.Assign | src/ifcparse/IfcUtil.h:103 | The corrected assignment gives a non-null value that holds the text |
| IfcUtil.AssignKeepsNull | src/ifcparse/IfcUtil.h:103 | Assigning `"IFC"` to a null string as written leaves it null; the corrected assignment does not |
| IfcUtil.NullString | src/ifcparse/IfcUtil.h:110 | `Null` converts to a null `Nullable<std::string>` |
| BimserverModel.Concat | src/bimserver_plugin/src/org/ifcopenshell/IfcOpenShellModel.java:58-71 | `concat(null, b)` is `b`; otherwise the result is `a` followed by `b` |
| BimserverModel.ConcatLength | src/bimserver_plugin/src/org/ifcopenshell/IfcOpenShellModel.java:58-71 | The length is the sum of the lengths, and each part is found at its offset |
| BimserverModel.Shifted | src/bimserver_plugin/src/org/ifcopenshell/IfcOpenShellModel.java:135-137 | Each index raised by `d`, in place |
| BimserverModel.Shift | src/bimserver_plugin/src/org/ifcopenshell/IfcOpenShellModel.java:135-137 | The in-place loop leaves the array `Shifted` by `d` |
| BimserverModel.StopsAtFirstNull | src/bimserver_plugin/src/org/ifcopenshell/IfcOpenShellModel.java:115-118 | Accumulation stops at the first null geometry, whatever follows |
| BimserverModel.AddRecords | src/bimserver_plugin/src/org/ifcopenshell/IfcOpenShellModel.java:130-145 | An instance records the prior vertex-array length, the prior index-array length and `indices.length / 3`; in the by-id map the last write wins |
| BimserverModel.AddTriples | src/bimserver_plugin/src/org/ifcopenshell/IfcOpenShellModel.java:130-140 | Whole vertex triples stay whole, and the triple counts add up |
| BimserverModel.AddAddresses | src/bimserver_plugin/src/org/ifcopenshell/IfcOpenShellModel.java:130-141 | After appending an object, every index addresses a vertex of the combined array |
| BimserverModel.AccumulateAddresses | src/bimserver_plugin/src/org/ifcopenshell/IfcOpenShellModel.java:115-146 | The whole loop keeps every index on a vertex of the combined array |
| BimserverModel.AddFiles | src/bimserver_plugin/src/org/ifcopenshell/IfcOpenShellModel.java:121-129 | Instances are grouped under the upper-cased type name, the new one appended last; other groups are unchanged |
| BimserverModel.Model.constructor | src/bimserver_plugin/src/org/ifcopenshell/IfcOpenShellModel.java:74-92 | The model is valid iff the native side accepted the data |
| BimserverModel.Model.Close | src/bimserver_plugin/src/org/ifcopenshell/IfcOpenShellModel.java:95-97 | Makes the model invalid and changes nothing else |
| BimserverModel.Model.FinalizeModelling | src/bimserver_plugin/src/org/ifcopenshell/IfcOpenShellModel.java:100-148 | Throws `No valid model supplied` on an invalid model; otherwise the buffers and tables are the accumulation of the objects up to the first null |
| BimserverModel.Model.GetInstances | src/bimserver_plugin/src/org/ifcopenshell/IfcOpenShellModel.java:164-169 | The group of the name, or an empty list for an unknown name |
| BimserverModel.Model.GetInstanceFromExpressId | src/bimserver_plugin/src/org/ifcopenshell/IfcOpenShellModel.java:181-193 | The stored instance, or `(0, 0, 0)` for an unknown id |
| BimserverModel.CloseThenFinalize | src/bimserver_plugin/src/org/ifcopenshell/IfcOpenShellModel.java:95-104 | A closed model refuses to finalize |
| GeomObjects.Find | src/ifcgeom/IfcGeomObjects.cpp:123 | `std::find`: the first position of the style, or the end iff it is absent |
| GeomObjects.StyleIdMeaning | src/ifcgeom/IfcGeomObjects.cpp:120-130 | -1 iff there is no style; otherwise the position of the equal material, which is appended if absent; `_materials` never holds two equal entries |
| GeomObjects.CornersShape | src/ifcgeom/IfcGeomObjects.cpp:190-216 | Three face indices per triangle, in triangle order |
| GeomObjects.CornersAtNodes | src/ifcgeom/IfcGeomObjects.cpp:170-216 | The face indices of a face address the vertices of its own nodes, triangle by triangle |
| GeomObjects.WeldFound | src/ifcgeom/IfcGeomObjects.cpp:64-67 | With welding on, a key already seen has a stored index whose vertex is the point |
| GeomObjects.WeldNew | src/ifcgeom/IfcGeomObjects.cpp:68-74 | With welding on, a new key gets the number of keys so far, and `_verts` grows by its three coordinates, keeping `_verts.size() == 3 * welds.size()` |
| GeomObjects.Unwelded | src/ifcgeom/IfcGeomObjects.cpp:63-74 | With welding off, the index is the old `_verts.size() / 3`, and three coordinates are appended |
| GeomObjects.TablesStep | src/ifcgeom/IfcGeomObjects.cpp:211-215 | Three face indices and one material id per triangle keep `_faces.size() == 3 * _material_ids.size()` |
| GeomObjects.Triangulation.constructor | src/ifcgeom/IfcGeomObjects.cpp:115-227 | The tables hold their invariants; when every item is well formed, every face index addresses a vertex |
| GeomObjects.Triangulation.AddVert | src/ifcgeom/IfcGeomObjects.cpp:59-75 | The returned index names the point. A known key returns its index and leaves `_verts` unchanged. A new key gets the next index. Without welding the result is the old vertex count. Nothing else changes |
| GeomObjects.Triangulation.StyleIndex | src/ifcgeom/IfcGeomObjects.cpp:120-130 | The style id and the materials table are those of `StyleId` and `WithStyle` |
| GeomObjects.Triangulation.AddNodes | src/ifcgeom/IfcGeomObjects.cpp:170-173 | `dict` has exactly the keys `1..n`, each naming the vertex of that node |
| GeomObjects.Triangulation.AddTriangles | src/ifcgeom/IfcGeomObjects.cpp:190-216 | `_faces` gains exactly the corners of the triangles, and `_material_ids` gains one style id per triangle |
| GeomObjects.Triangulation.AddFace | src/ifcgeom/IfcGeomObjects.cpp:146-225 | A face without triangulation changes nothing. Otherwise three indices and one id are added per triangle, and each triangle addresses its own nodes; every face index keeps addressing a vertex |
| GeomObjects.Triangulation.AddItem | src/ifcgeom/IfcGeomObjects.cpp:118-225 | The style is recorded before meshing. A shape that fails to mesh adds no face. A meshed item adds one material id per triangle of its triangulated faces, each the item's style id |
| GeomObjects.Processed | src/ifcgeom/IfcGeomObjects.cpp:361-371 | Processed iff there is no identifier, or it is `Body` or `Facetation`, or it is `IAI` with a type other than `BoundingBox` |
| GeomObjects.ProcessedExamples | src/ifcgeom/IfcGeomObjects.cpp:361-371 | `IAI` without a type, or with type `BoundingBox`, is skipped; `Body` is processed whatever its type |
| GeomObjects.InitialGuards | src/ifcgeom/IfcGeomObjects.cpp:52-57 | With the flags as they start, `Get` returns the current object and `GetBrepData` throws `No BRep data available` |
| GeomObjects.Set | src/ifcgeom/IfcGeomObjects.cpp:738-768 | The selected setting reads back as written: sewing as 1000 or -1, ccw orientation as 1 or -1. An unlisted setting changes nothing |
| GeomObjects.SetKeepsOthers | src/ifcgeom/IfcGeomObjects.cpp:738-768 | `Settings(s, v)` changes only the flag selected by `s` |
| GeomObjects.SetIdempotent | src/ifcgeom/IfcGeomObjects.cpp:738-768 | Setting the same value twice is setting it once |
| GeomObjects.Iterator.constructor | src/ifcgeom/IfcGeomObjects.cpp:77-78 | The flags start at their initial values, with no current object and nothing returned |
| GeomObjects.Iterator.Settings | src/ifcgeom/IfcGeomObjects.cpp:738-768 | The flags become `Set`, and nothing else changes |
| GeomObjects.GuardsFollowSettings | src/ifcgeom/IfcGeomObjects.cpp:565-579 | After `Settings(s, v)`, `Get` throws iff `DISABLE_TRIANGULATION` was set to true, and `GetBrepData` throws iff `USE_BREP_DATA` was set to false; any other setting leaves both guards as they were |
| GeomObjects.Iterator.GetObject | src/ifcgeom/IfcGeomObjects.cpp:542-564 | A failed lookup gives the id -1 sentinel. A product gives its id, type and guid, its name (or `""`), and its parent id (or -1 when the parent lookup throws). Every returned object is recorded |

## Left out

- File output: the `print >>` writing, the literal C++ layout and `emit()` of the descriptor emitter. Emitters yield records instead.
- funcparserlib and pyparsing are external. The EXPRESS grammar's result is taken as input (`Typedef`, `Entity`), and so is the bootstrap grammar (`Rule` trees).
- `mapping.get_assignable_arguments` and `make_argument_type` are not shown, so they are inputs: the argument records and the type text.
- `rt_header.py` and the generated runtime header are context, not core.
- ExpressSchema.GeneratedIs: a parent that is not a defined entity is assumed to have the generated `is` shape too, so its `is(v)` holds only for `v` equal to itself; the code such a foreign class would have is not part of this model.
- ExpressSchema.Schema.ArgumentStart: requires the ancestry walk to end. When the supertype chain runs into a cycle the source loops forever. `CycleHasNoStart` and `NoStartIsCycle` state that this happens exactly then, and the method is not given such input.
- ExpressTokenizer.Tokenizer.Next: the stream is in memory and positions are characters. Python 2 byte semantics, `seek`/`tell` on real files and the dead doubled-quote branch (`in_string` is never true) are not modelled.
- Strings.Upper: upper-cases ASCII letters only. Python's `str.upper` and Java's `toUpperCase` also change other letters.
- StepFile.File: the `std::ifstream` error bits, `stream.peek()` past the end and 32-bit file positions are abstracted. One read delivers `min(BUF_SIZE, size - offset)` characters, and end of file means nothing was read.
- StepLexer.AsInt: `atoi` is modelled on the leading digits with unbounded integers; its overflow is not modelled. `asFloat` is left out (floating point).
- ExpressEmit: every failure of the generated `ToString`, `FromString` and `SchemaEntity` is a bare `throw;`. With no exception active this calls `std::terminate`, so nothing can catch it. These functions model it as a `Failure` result.
- `Type::FromString` and `ToString` of the generated schema are foreign code. Entities are filed under their datatype name as written, and `is(c)` in `getInverse` is a parameter. StepArguments.ArgText prints a nested entity argument with its datatype name as written, where the source prints `Type::ToString` of the parsed type, the schema's CamelCase name. The generated `SchemaEntity` and `FromString` end in a bare `throw;`, which terminates the program instead of raising an error, so the error characterisations of the list reader, the entity loader and `EntityById` cover only the code modelled.
- StepIndex.Ifc.Init: the unit reading after the loop is left out, because it needs generated schema classes and floats. Logging is left out too. The tables left behind by an exception inside the loop are stated only through `Indexed`'s failure.
- The second `getInverse` overload (matching an argument's text), `Entity::getArgument`, `Entity::toString` of an indexed entity (a nested entity argument is printed by `ArgText`), `LogMessage`, `SetOutput` and `Dispose` are not modelled. They are thin wrappers over the members above, or are I/O.
- `IfcEntityList` (`IfcUtil.cpp`) is not part of this model. Its `push` is assumed to ignore null like the templated list.
- The `offsets` table is never filled by the code modelled. It is kept as a field that `EntityById` consults.
- IfcUtil.EntityList.At: `operator[]` has no bounds check in the source, so the model requires an index in range.
- IfcUtil.EntityList.PushAll: requires `other` to be a different list. Pushing a list onto itself iterates while `push_back` invalidates the iterators, which is undefined behaviour in the source.
- BimserverModel: Java `int` overflow, `System.load` and the version check in the constructor, and the logger are not modelled. The native `getGeometry` stream is a sequence given as input. `findClashesWithEids`, `findClashesWithGuids`, `initializeModelling`, `setPostProcessing` and `setFormat` do nothing or return null, and are left out.
- GeomObjects: normals (they need surface geometry), edges (`addedge` is not shown) and the unit conversion of coordinates (floating division) are left out. Coordinates are opaque keys, and styles are compared by identity as `Material::operator==` does.
- GeomObjects.Triangulation.AddItem: meshing (`BRepMesh`), placements and the BRep writer are external. The mesher's outcome is the item's `meshed` flag.
- GeomObjects.Triangulation.constructor: states the table invariants and that faces address vertices, not the exact face list. Only `AddTriangles` states the exact face indices. `AddFace` and `AddItem` state the material ids exactly, but for the face indices only their number and that each new corner is at its node's point, because the indices depend on the welding table `AddNodes` consults.
- BimserverModel: a Java array field can be null, but a geometry object's index, vertex and normal arrays are sequences here, so an object with a null array (which the source would dereference) cannot be represented.
- GeomObjects.Set: `IfcGeomObjects.h` is not part of this model, so the setting codes are a datatype. `IfcGeom::SetValue` is modelled as a stored value.
- GeomObjects.Iterator.GetObject: `_getParentId`, placement conversion and the entity lookup are external. Their outcomes are parameters.
- The `_Init` iteration, `Next`, `create_shape_model_for_next_entity`, `InitUnits`, progress reporting and the serializers are left out; only the representation filter inside them is modelled.

## Findings

| source | as written | input that shows it | evidently intended | confidence | as-written member | corrected member |
|---|---|---|---|---|---|---|
| src/ifcexpressparser/IfcExpressParser.py:56-73 | `in_comment` is local to one call, and whitespace inside a remark ends the current token | `A(* B *);;`: the first call returns `A` with the cursor inside the remark; the next call starts outside a remark and returns `B` | Remark characters never reach a token (ISO 10303-11, section 7.1.6) | not executed | ExpressTokenizer.RemarkLeaksAcrossCalls | ExpressTokenizer.FixedRemarkTransparent |
| src/ifcexpressparser/rt_implementation.py:46 | `set(type.supertypes) < emitted_entities` tests for a proper subset | Entities `A` (root) and `B` (supertype `A`): once `A` is emitted, `{A} < {A}` is false, so `B` is never emitted and the `while` loop never ends | `<=`, so a child is emitted once its supertypes are | not executed | RuntimeTyping.ProperSubsetHangs | RuntimeTyping.SubsetTerminates |
| src/ifcparse/IfcUtil.h:103 | `operator=(const char*)` replaces the text and leaves `null` unchanged | `Nullable<std::string> n; n = "IFC";` leaves `n.IsNull()` true | The assigned value is not null | not executed | IfcUtil.AssignAsWritten | IfcUtil.Assign |
