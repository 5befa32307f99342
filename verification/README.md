# Kotlin compiler core pieces, modelled in Dafny

This project models seven pieces of the Kotlin repository as pure Dafny functions, and proves what their code promises.

- **The expect/actual actualizer** (`IrActualizer`). It builds an expect-to-actual symbol map over the IR of a multiplatform build:
  - classifiers are matched by qualified name, looking through actual type aliases;
  - functions are matched by their container name, their own name and a parameter check;
  - properties are matched together with their accessors.

  It then:
  1. deletes the properly expect declarations of the dependent fragments;
  2. gives their non-expect classes fake overrides of the members inherited from linked actual classes;
  3. redirects their references through the map;
  4. appends their files to the main fragment.

  Every `AssertionError` the pass throws is a `Failure` of a `Result`, and the first one ends the pass.
- **`FqNameUnsafe`**: qualified names as strings, with:
  - the lazily computed parent and short name;
  - `child`, `pathStringSegments`, `startsWith` and `isValid`;
  - equality with the cached hash.
- **`FileLocalStringEnumerator`**: the per-file string table of a stub, with strings numbered from 1 in first-seen order.
- **`ScopedMemoryAllocator`** and `withScopedMemoryAllocator` of the Wasm standard library. Addresses are Kotlin `Int`s: signed 32-bit words whose additions wrap around.
- **The builtins generator's type rules and text rendering** (`generatePrimitives.kt`):
  - operator result types and casts;
  - native operator names;
  - the conversion-intrinsic table;
  - `MethodSignature.toString`, `shift`, `printAsDoc` and `addDoc`.
- **`flatMapToNullableSet`** and the `getClassDeclared*` lookups of the FIR symbol provider.
- **The annotation filter and modifier table** of the light `$annotations` method (`SymbolLightAnnotationsMethod`).

## Modules

| file | module | models |
|---|---|---|
| `wrappers.dfy` | `Wrappers` | `Option` (nullable values), `Result` (values or a thrown exception), map lookup |
| `strings.dfy` | `Strings` | Java/Kotlin string operations the code uses: UTF-16 length and `hashCode`, `indexOf`, `lastIndexOf`, `split`, `joinToString`, ASCII `uppercase`/`lowercase`, `startsWith`, `replace` |
| `fq_names.dfy` | `FqNames` | `FqNameUnsafe` |
| `ir_model.dfy` | `IrModel` | the IR as the actualizer sees it: declarations, symbols, fragments; reference rewriting |
| `indexes.dfy` | `Indexes` | the three write policies of the actualizer's tables (overwrite, `getOrPut`, append to list) and insertion-ordered sets |
| `actualizer_classifiers.dfy` | `ActualizerClassifiers` | `collectActualClassifiers`, `appendExpectActualClassifiers` |
| `actualizer_callables.dfy` | `ActualizerCallables` | `checkParameters`, `collectActualCallables`, `appendExpectActualCallables` |
| `actualizer_fake_overrides.dfy` | `ActualizerFakeOverrides` | `addMissingFakeOverrides`, `processSupertypes`, `createFakeOverride*` |
| `actualizer.dfy` | `Actualizer` | `actualize` and its remaining steps |
| `string_enumerator.dfy` | `StringEnumerator` | `FileLocalStringEnumerator` |
| `scoped_memory.dfy` | `ScopedMemory` | `ScopedMemoryAllocator`, `withScopedMemoryAllocator` |
| `primitive_rules.dfy` | `PrimitiveRules` | type rules of the builtins generator |
| `primitive_rendering.dfy` | `PrimitiveRendering` | text rendering of the builtins generator |
| `symbol_provider_util.dfy` | `SymbolProviderUtil` | `flatMapToNullableSet`, `getClassDeclared*` |
| `light_annotations_method.dfy` | `LightAnnotationsMethod` | the `$annotations` light method |

`processSupertypes` reads the class's existing members through a `lazy` table. That table is first read before the first override is appended, so it is a snapshot of the class's own members. A member synthesized for one supertype is therefore never compared with the members of a later supertype. Two supertypes providing the same function both get an override, and no error is raised (`ActualizerFakeOverrides.SameMemberFromTwoSupertypes`).

Some values the code takes from its environment are parameters of the model:
- the owner of each symbol (`owners`);
- the supply of fresh symbols for fake overrides (`next`);
- `System.lineSeparator()` (`endLine`);
- the `PrimitiveType` facts declared in `PrimitiveType.kt` (`Layout`);
- the scratch-memory address;
- the visibility answer of `LazyModifiersBox`.

## Model

| member | source | states |
|---|---|---|
| Strings.IndexOfFirst | core/compiler.common/src/org/jetbrains/kotlin/name/FqNameUnsafe.java:169 | `indexOf` answers -1 exactly when the pattern does not occur, and otherwise the first occurrence |
| Strings.IndexOf | core/compiler.common/src/org/jetbrains/kotlin/name/FqNameUnsafe.java:169 | `indexOf` answers -1 or a position where the pattern occurs |
| Strings.IndexOfFromFirst | core/compiler.common/src/org/jetbrains/kotlin/name/FqNameUnsafe.java:174 | `indexOf(pat, from)` skips no occurrence at or after `from` |
| Strings.LastIndexOf | core/compiler.common/src/org/jetbrains/kotlin/name/FqNameUnsafe.java:75 | `lastIndexOf(c)` is -1 exactly when `c` is absent; otherwise it holds `c` and no `c` follows it |
| Strings.JoinSplit | generators/builtins/generatePrimitives.kt:16 | joining the pieces of `split(sep)` with `sep` gives the text back |
| Strings.SplitJoin | generators/builtins/generatePrimitives.kt:16 | splitting a join of separator-free pieces with a border-free separator gives the pieces back |
| Strings.SplitPiecesFree | generators/builtins/generatePrimitives.kt:16 | no piece of a split contains the separator |
| Strings.SplitCharCount | core/compiler.common/src/org/jetbrains/kotlin/name/FqNameUnsafe.java:165-180 | splitting at a character yields one piece more than the character's occurrences |
| Strings.JoinLength | generators/builtins/generatePrimitives.kt:16 | a join is as long as its pieces together plus one separator between each two |
| Strings.RemoveAllSplit | generators/builtins/generatePrimitives.kt:1041 | deleting every occurrence of a pattern is splitting at the occurrences and joining the pieces with nothing between them |
| Strings.Utf16Append | core/compiler.common/src/org/jetbrains/kotlin/name/FqNameUnsafe.java:53 | the UTF-16 code units of a concatenation are those of its parts, in order |
| Strings.UpperLower | generators/builtins/generatePrimitives.kt:154 | upper-casing undoes lower-casing on text without lower-case letters |
| FqNames.IsValid | core/compiler.common/src/org/jetbrains/kotlin/name/FqNameUnsafe.java:69-72 | a name is valid exactly when it is non-null and contains neither `/` nor `*` |
| FqNames.IsSafe | core/compiler.common/src/org/jetbrains/kotlin/name/FqNameUnsafe.java:91-93 | a name is safe exactly when its safe twin exists or it contains no `<` |
| FqNames.Compute | core/compiler.common/src/org/jetbrains/kotlin/name/FqNameUnsafe.java:74-84 | the short name is the dot-free text after the last dot and the parent the text before it; without a dot the parent is the root and the short name the whole text |
| FqNames.Parent | core/compiler.common/src/org/jetbrains/kotlin/name/FqNameUnsafe.java:108-121 | a cached parent is returned as is; the root without a cache throws `IllegalStateException("root")`; otherwise the parent is strictly shorter and, with a dot, precedes the short name |
| FqNames.ShortName | core/compiler.common/src/org/jetbrains/kotlin/name/FqNameUnsafe.java:135-148 | a cached short name is returned as is; the root without a cache throws; otherwise the short name is dot-free |
| FqNames.Child | core/compiler.common/src/org/jetbrains/kotlin/name/FqNameUnsafe.java:124-133 | the child of the root is the name alone, otherwise the parent, a dot and the name; the child's `parent()` is the receiver and its `shortName()` the name |
| FqNames.TopLevel | core/compiler.common/src/org/jetbrains/kotlin/name/FqNameUnsafe.java:191-194 | a top-level name is its short name, with the root as parent |
| FqNames.ShortNameOrSpecial | core/compiler.common/src/org/jetbrains/kotlin/name/FqNameUnsafe.java:150-158 | `<root>` for the root, never an exception; `shortName()` otherwise |
| FqNames.ToString | core/compiler.common/src/org/jetbrains/kotlin/name/FqNameUnsafe.java:196-200 | `<root>` for the root; otherwise the path segments joined by dots, which is the name's text |
| FqNames.ParentChildRoundTrip | core/compiler.common/src/org/jetbrains/kotlin/name/FqNameUnsafe.java:74-84 | `parent().child(shortName())` restores every non-root name with a consistent cache, except one whose only dot is its first character |
| FqNames.LeadingDotRoundTrip | core/compiler.common/src/org/jetbrains/kotlin/name/FqNameUnsafe.java:124-133 | the exception: `".a"` comes back as `"a"`, because the child of the root drops the dot |
| FqNames.PathStringSegmentsAsWritten | core/compiler.common/src/org/jetbrains/kotlin/name/FqNameUnsafe.java:165-180 | with the buffer of `length() / 2 + 1` slots, where `length()` counts UTF-16 code units, the call throws exactly when the name has more words than slots; otherwise it returns the words |
| FqNames.FillWords | core/compiler.common/src/org/jetbrains/kotlin/name/FqNameUnsafe.java:166-176 | the word loop overruns a buffer exactly when there are more words than slots; otherwise the buffer holds exactly the words |
| FqNames.WriteWords | core/compiler.common/src/org/jetbrains/kotlin/name/FqNameUnsafe.java:169-175 | the loop writes the words before each dot in order, and stops at the last word or when the buffer is full |
| FqNames.WordAdvance | core/compiler.common/src/org/jetbrains/kotlin/name/FqNameUnsafe.java:172-174 | one iteration writes the next word, and at least one word remains |
| FqNames.LastWord | core/compiler.common/src/org/jetbrains/kotlin/name/FqNameUnsafe.java:176 | the text after the last dot is the last word |
| FqNames.PathStringSegmentsOverrun | core/compiler.common/src/org/jetbrains/kotlin/name/FqNameUnsafe.java:166-176 | the name `"."` overruns the buffer |
| FqNames.NoEmptySegmentFits | core/compiler.common/src/org/jetbrains/kotlin/name/FqNameUnsafe.java:166 | without empty segments, the words fit into `length() / 2 + 1` slots, `length()` counting UTF-16 code units |
| FqNames.PathStringSegments | core/compiler.common/src/org/jetbrains/kotlin/name/FqNameUnsafe.java:165-180 | the words joined with `.` give the name back; there is one word more than there are dots, and no word holds a dot |
| FqNames.PathSegments | core/compiler.common/src/org/jetbrains/kotlin/name/FqNameUnsafe.java:160-163 | no segments for the root; otherwise one word more than there are dots, and the words joined with dots give the name back |
| FqNames.StartsWithAsWritten | core/compiler.common/src/org/jetbrains/kotlin/name/FqNameUnsafe.java:182-189 | false on the root; on a dot-free name it holds exactly when the segment is the whole name; otherwise only the first `firstDot` characters of the segment are compared |
| FqNames.StartsWithAcceptsLongerSegment | core/compiler.common/src/org/jetbrains/kotlin/name/FqNameUnsafe.java:186-188 | `"ab.x"` starts with `"abc"` although its first segment is `"ab"` |
| FqNames.StartsWith | core/compiler.common/src/org/jetbrains/kotlin/name/FqNameUnsafe.java:182-189 | a non-root name starts with a segment exactly when its first word is that segment |
| FqNames.StringHash | core/compiler.common/src/org/jetbrains/kotlin/name/FqNameUnsafe.java:53 | the cached hash is `String.hashCode`, the polynomial hash with base 31 over the UTF-16 code units, wrapped to a signed 32-bit value |
| FqNames.StringHashConcat | core/compiler.common/src/org/jetbrains/kotlin/name/FqNameUnsafe.java:53 | the hash of a concatenation is the first part's hash times 31 per code unit of the second, plus the second's hash, modulo 2^32 |
| FqNames.SupplementaryCharacter | core/compiler.common/src/org/jetbrains/kotlin/name/FqNameUnsafe.java:53 | a character above U+FFFF counts as two code units in `length()` and enters the hash as its surrogate pair |
| FqNames.Equals | core/compiler.common/src/org/jetbrains/kotlin/name/FqNameUnsafe.java:202-216 | two names are equal exactly when their texts are, and equal names have equal hashes |
| IrModel.FromSegments | compiler/ir/backend.common/src/org/jetbrains/kotlin/backend/common/IrActualizer.kt:91 | `fromSegments(listOf(a, b))` is `a`, a dot and `b`, even when `a` is empty; for a dot-free `b` that dot is the last one, so the name's parent is `a` and its short name `b` |
| IrModel.KotlinFqNameIsChild | compiler/ir/backend.common/src/org/jetbrains/kotlin/backend/common/IrActualizer.kt:84 | a declaration's qualified name is `child` of its parent's name by its own name: its `parent()` is the parent's name and its `shortName()` its own name |
| IrModel.SubstKeepsShape | compiler/ir/backend.common/src/org/jetbrains/kotlin/backend/common/IrActualizer.kt:420-425 | rewriting references keeps a declaration's symbol, name, flags, offset and member count |
| IrModel.SubstRemovesKeys | compiler/ir/backend.common/src/org/jetbrains/kotlin/backend/common/IrActualizer.kt:420-425 | when no actual symbol is itself a key of the map, no rewritten reference is a key of the map |
| IrModel.SubstIdempotent | compiler/ir/backend.common/src/org/jetbrains/kotlin/backend/common/IrActualizer.kt:420-425 | under the same condition, a second rewrite changes nothing |
| IrModel.SubstEmpty | compiler/ir/backend.common/src/org/jetbrains/kotlin/backend/common/IrActualizer.kt:420-425 | the empty map rewrites nothing |
| Indexes.OverwriteLastWins | compiler/ir/backend.common/src/org/jetbrains/kotlin/backend/common/IrActualizer.kt:102-113 | a table filled by `map[key] = value` holds, per key, the last value written |
| Indexes.KeepFirstFirstWins | compiler/ir/backend.common/src/org/jetbrains/kotlin/backend/common/IrActualizer.kt:187-191 | a table filled by `getOrPut` holds, per key, the first value written |
| Indexes.GroupSelects | compiler/ir/backend.common/src/org/jetbrains/kotlin/backend/common/IrActualizer.kt:182-186 | a table filled by `getOrPut { mutableListOf() }.add` lists, per key, every value written to it, in order |
| Indexes.DedupSet | compiler/ir/backend.common/src/org/jetbrains/kotlin/backend/common/IrActualizer.kt:52 | the insertion-ordered set holds each added element exactly once |
| Indexes.FlatMapAppend | compiler/ir/backend.common/src/org/jetbrains/kotlin/backend/common/IrActualizer.kt:67-68 | nested loops over a concatenation visit the first part, then the second |
| ActualizerClassifiers.TypeParameterKeys | compiler/ir/backend.common/src/org/jetbrains/kotlin/backend/common/IrActualizer.kt:105-113 | each type parameter is keyed by its container's name, a dot and its own name |
| ActualizerClassifiers.ClassifierIndexLastWins | compiler/ir/backend.common/src/org/jetbrains/kotlin/backend/common/IrActualizer.kt:67-117 | the classifier index holds exactly the keys written, each with the symbol of the last write |
| ActualizerClassifiers.AliasRegistersExpandedClass | compiler/ir/backend.common/src/org/jetbrains/kotlin/backend/common/IrActualizer.kt:72-80 | an actual type alias writes its own name with the expanded classifier's symbol; for a class it records the class's name under the alias's name and adds the class to the actual declarations |
| ActualizerClassifiers.ActualKeys | compiler/ir/backend.common/src/org/jetbrains/kotlin/backend/common/IrActualizer.kt:82-113 | a non-expect class is keyed by its name, an enum entry by its parent's name and its own, a type parameter by its container's name and its own |
| ActualizerClassifiers.ExpectKeys | compiler/ir/backend.common/src/org/jetbrains/kotlin/backend/common/IrActualizer.kt:132-157 | the expect side is looked up by the same keys, and only expect classes, properly expect enum entries and the type parameters of properly expect containers are looked up |
| ActualizerClassifiers.LinkClassifiers | compiler/ir/backend.common/src/org/jetbrains/kotlin/backend/common/IrActualizer.kt:123-130 | linking succeeds exactly when every key is in the index; otherwise it fails with the missing-actual error of the first key the index lacks |
| ActualizerClassifiers.LinkClassifiersMaps | compiler/ir/backend.common/src/org/jetbrains/kotlin/backend/common/IrActualizer.kt:123-130 | a successful link adds exactly the expect symbols, maps each to the symbol under its key (the last link of a symbol wins), and keeps every other entry |
| ActualizerClassifiers.AppendExpectActualClassifiers | compiler/ir/backend.common/src/org/jetbrains/kotlin/backend/common/IrActualizer.kt:46-59 | the classifier step succeeds exactly when every expect classifier's key is in the index built from the main fragment; then the map's keys are exactly the expect classifiers' symbols, and each is mapped to the actual stored under the key of its last link |
| ActualizerClassifiers.ExpectClassLinked | compiler/ir/backend.common/src/org/jetbrains/kotlin/backend/common/IrActualizer.kt:136-139 | an expect class is looked up under its own name; a missing name fails the pass |
| ActualizerCallables.CheckParametersMeaning | compiler/ir/backend.common/src/org/jetbrains/kotlin/backend/common/IrActualizer.kt:386-400 | `checkParameters` holds exactly when the arities agree and every expect parameter's classifier, mapped through the table where it has an entry, is the actual parameter's classifier |
| ActualizerCallables.CallablesOf | compiler/ir/backend.common/src/org/jetbrains/kotlin/backend/common/IrActualizer.kt:180-198 | only functions and properties are collected |
| ActualizerCallables.CollectActualCallables | compiler/ir/backend.common/src/org/jetbrains/kotlin/backend/common/IrActualizer.kt:175-203 | the function lists hold only functions and the property table only properties |
| ActualizerCallables.CallableIndexPolicies | compiler/ir/backend.common/src/org/jetbrains/kotlin/backend/common/IrActualizer.kt:182-191 | a function key lists every collected function with that key, in visiting order; a property key holds the first collected property |
| ActualizerCallables.ExpectId | compiler/ir/backend.common/src/org/jetbrains/kotlin/backend/common/IrActualizer.kt:211-214 | an expect callable's key is its own name under its container's name, replaced through the type alias map when the map has it |
| ActualizerCallables.FirstMatch | compiler/ir/backend.common/src/org/jetbrains/kotlin/backend/common/IrActualizer.kt:223-231 | the chosen candidate is the first function passing `checkParameters`; there is none exactly when no candidate passes |
| ActualizerCallables.LinkAccessor | compiler/ir/backend.common/src/org/jetbrains/kotlin/backend/common/IrActualizer.kt:240-245 | an expect accessor is mapped to the actual property's accessor; a missing actual accessor fails; without an expect accessor nothing changes |
| ActualizerCallables.LinkDecl | compiler/ir/backend.common/src/org/jetbrains/kotlin/backend/common/IrActualizer.kt:216-255 | a declaration that is not properly expect is skipped; an expect function is mapped to its first passing candidate or fails; an expect property without an actual fails; on success the new keys are exactly the symbols of the visited callables and their accessors, and every other key keeps its value |
| ActualizerCallables.LinkAll | compiler/ir/backend.common/src/org/jetbrains/kotlin/backend/common/IrActualizer.kt:216-255 | over a list of declarations, on success the new keys are exactly the symbols of the visited callables and their accessors, and every other key keeps its value |
| ActualizerCallables.LinkAllComplete | compiler/ir/backend.common/src/org/jetbrains/kotlin/backend/common/IrActualizer.kt:216-255 | a successful linking maps every expect function and property it visits: none is silently skipped |
| ActualizerCallables.LinkAllValues | compiler/ir/backend.common/src/org/jetbrains/kotlin/backend/common/IrActualizer.kt:216-255 | when the visited callables write distinct symbols and no expect parameter is among them, every one of them ends up linked: a function to its first passing candidate, a property and its accessors to the indexed property and its accessors |
| ActualizerCallables.FunctionLinksFirstPassing | compiler/ir/backend.common/src/org/jetbrains/kotlin/backend/common/IrActualizer.kt:220-235 | a linked expect function is mapped to the first candidate under its key that passes `checkParameters`, and no earlier candidate passes |
| ActualizerCallables.PropertyLinksAccessors | compiler/ir/backend.common/src/org/jetbrains/kotlin/backend/common/IrActualizer.kt:236-245 | a linked expect property's getter and setter are mapped to the actual property's getter and setter, and the property to the actual property, when these symbols are distinct |
| ActualizerCallables.AppendExpectActualCallables | compiler/ir/backend.common/src/org/jetbrains/kotlin/backend/common/IrActualizer.kt:163-173 | after a successful callable step, the keys are the old ones plus the expect callables of the dependent fragments and their accessors, and every other key keeps its value; when these symbols are distinct and no expect parameter is among them, each function is mapped to its first passing candidate, and each property and its accessors to the indexed actual property and its accessors |
| ActualizerFakeOverrides.Snapshot | compiler/ir/backend.common/src/org/jetbrains/kotlin/backend/common/IrActualizer.kt:277-280 | the existing-members table holds exactly the class's named members with a source offset |
| ActualizerFakeOverrides.Named | compiler/ir/backend.common/src/org/jetbrains/kotlin/backend/common/IrActualizer.kt:288 | `members[name]` holds exactly the snapshot's members of that name |
| ActualizerFakeOverrides.AnyMatching | compiler/ir/backend.common/src/org/jetbrains/kotlin/backend/common/IrActualizer.kt:290-300 | the loop finds a match exactly when some existing function passes `checkParameters` against the actual function |
| ActualizerFakeOverrides.CloneTypeParameters | compiler/ir/backend.common/src/org/jetbrains/kotlin/backend/common/IrActualizer.kt:375 | the copied type parameters keep their names, in order, and get consecutive symbols drawn from the counter starting at `next` |
| ActualizerFakeOverrides.FakeOverrideShape | compiler/ir/backend.common/src/org/jetbrains/kotlin/backend/common/IrActualizer.kt:322-384 | a created override is a fake override of the actual member in the class; every new symbol in it is drawn from the counter between `next` and the returned counter |
| ActualizerFakeOverrides.AccessorFresh | compiler/ir/backend.common/src/org/jetbrains/kotlin/backend/common/IrActualizer.kt:340-345 | a cloned accessor is a function whose symbols are drawn from the counter between `next` and the returned counter |
| ActualizerFakeOverrides.MemberSpec | compiler/ir/backend.common/src/org/jetbrains/kotlin/backend/common/IrActualizer.kt:285-316 | one actual member succeeds exactly when it does not clash; it yields an override when it is an eligible function or property implementation, and nothing otherwise; a clash reports the class |
| ActualizerFakeOverrides.CloneMembersSucceeds | compiler/ir/backend.common/src/org/jetbrains/kotlin/backend/common/IrActualizer.kt:284-318 | cloning an actual class's members succeeds exactly when no eligible member clashes with the snapshot; the error names the class |
| ActualizerFakeOverrides.CloneMembersSpec | compiler/ir/backend.common/src/org/jetbrains/kotlin/backend/common/IrActualizer.kt:284-318 | a successful clone gives one fake override per eligible member, in order, whose new symbols are drawn from the counter between `next` and the returned counter, increasing from one override to the next |
| ActualizerFakeOverrides.ConcatClones | compiler/ir/backend.common/src/org/jetbrains/kotlin/backend/common/IrActualizer.kt:307 | two runs of overrides drawn one after the other from the symbol supply form one run |
| ActualizerFakeOverrides.CloneForSupertypesSucceeds | compiler/ir/backend.common/src/org/jetbrains/kotlin/backend/common/IrActualizer.kt:282-319 | over all supertypes, the overrides succeed exactly when no inherited member clashes with the snapshot |
| ActualizerFakeOverrides.CloneForSupertypesSpec | compiler/ir/backend.common/src/org/jetbrains/kotlin/backend/common/IrActualizer.kt:282-319 | over all supertypes, one fake override per inherited member, in supertype order |
| ActualizerFakeOverrides.ProcessSupertypes | compiler/ir/backend.common/src/org/jetbrains/kotlin/backend/common/IrActualizer.kt:276-320 | the class keeps everything but its member list, and its old members stay in front |
| ActualizerFakeOverrides.ProcessSupertypesSpec | compiler/ir/backend.common/src/org/jetbrains/kotlin/backend/common/IrActualizer.kt:276-320 | `processSupertypes` fails exactly when an inherited member clashes with the class's own members; otherwise the class gains one fake override per inherited member, after its own members |
| ActualizerFakeOverrides.NoOwnMembersNoClash | compiler/ir/backend.common/src/org/jetbrains/kotlin/backend/common/IrActualizer.kt:277-280 | a class without members of its own never clashes |
| ActualizerFakeOverrides.SameMemberFromTwoSupertypes | compiler/ir/backend.common/src/org/jetbrains/kotlin/backend/common/IrActualizer.kt:277-280 | two supertypes providing a function of the same name give two overrides and no error, since the snapshot is taken before any override is added |
| ActualizerFakeOverrides.AddToDecl | compiler/ir/backend.common/src/org/jetbrains/kotlin/backend/common/IrActualizer.kt:267-270 | a non-expect class fails exactly when an inherited member clashes with one of its own, and otherwise keeps its members followed by one fake override per inherited member; any other declaration is left alone |
| ActualizerFakeOverrides.AddToDecls | compiler/ir/backend.common/src/org/jetbrains/kotlin/backend/common/IrActualizer.kt:267-271 | the declarations of a file, in order: success exactly when none clashes, and then each one processed as `AddToDecl` states |
| ActualizerFakeOverrides.AddToFiles | compiler/ir/backend.common/src/org/jetbrains/kotlin/backend/common/IrActualizer.kt:266-272 | the files of a fragment, in order: success exactly when no declaration of theirs clashes, and then each declaration processed |
| ActualizerFakeOverrides.AddMissingFakeOverrides | compiler/ir/backend.common/src/org/jetbrains/kotlin/backend/common/IrActualizer.kt:264-274 | the pass succeeds exactly when no non-expect top-level class of the dependent fragments clashes; then the fragments keep their files and declarations, in order, every such class is followed by its overrides, and every other declaration is unchanged |
| Actualizer.RemoveProperExpect | compiler/ir/backend.common/src/org/jetbrains/kotlin/backend/common/IrActualizer.kt:415 | `removeAll { it.isProperExpect }` keeps exactly the declarations that are not properly expect |
| Actualizer.RemoveProperExpectAppend | compiler/ir/backend.common/src/org/jetbrains/kotlin/backend/common/IrActualizer.kt:415 | the removal keeps the order: it distributes over concatenation |
| Actualizer.RemoveProperExpectIdempotent | compiler/ir/backend.common/src/org/jetbrains/kotlin/backend/common/IrActualizer.kt:415 | a second removal changes nothing |
| Actualizer.RemoveExpectDeclarations | compiler/ir/backend.common/src/org/jetbrains/kotlin/backend/common/IrActualizer.kt:412-418 | every file of every dependent fragment keeps exactly its declarations that are not properly expect |
| Actualizer.LinkExpectToActual | compiler/ir/backend.common/src/org/jetbrains/kotlin/backend/common/IrActualizer.kt:420-425 | the rewrite keeps the fragments' shape |
| Actualizer.LinkedRefersToNoExpect | compiler/ir/backend.common/src/org/jetbrains/kotlin/backend/common/IrActualizer.kt:420-425 | when no actual symbol of the map is itself a key of the map, after the rewrite no reference points at an expect symbol, and each declaration keeps its symbol and flags |
| Actualizer.MergeIrFragments | compiler/ir/backend.common/src/org/jetbrains/kotlin/backend/common/IrActualizer.kt:427-429 | the main fragment's files stay in front |
| Actualizer.MergeTopLevel | compiler/ir/backend.common/src/org/jetbrains/kotlin/backend/common/IrActualizer.kt:427-429 | after the merge, the main fragment's declarations are its own, then those of each dependent fragment, fragment by fragment and file by file |
| Actualizer.CalculateExpectActualMap | compiler/ir/backend.common/src/org/jetbrains/kotlin/backend/common/IrActualizer.kt:35-44 | a successful map's keys are exactly the expect classifiers and the expect callables with their accessors; when the two sets are apart, each expect classifier is mapped to the actual under the key of its last link; when the callables' symbols are distinct and avoid the expect parameters, each callable is linked as the callable step states, against the classifier map |
| Actualizer.Actualize | compiler/ir/backend.common/src/org/jetbrains/kotlin/backend/common/IrActualizer.kt:27-33 | on success the main fragment's files are its old files followed by every dependent fragment's files |
| Actualizer.ActualizeRemovesExpect | compiler/ir/backend.common/src/org/jetbrains/kotlin/backend/common/IrActualizer.kt:27-33 | after `actualize`, no dependent fragment holds a properly expect top-level declaration |
| Actualizer.MissingActualClassFails | compiler/ir/backend.common/src/org/jetbrains/kotlin/backend/common/IrActualizer.kt:123-130 | an expect class without an actual of the same name fails the pass instead of being skipped |
| StringEnumerator.New | intellij-community/platform/lang-impl/src/com/intellij/psi/stubs/FileLocalStringEnumerator.java:19-21 | the table starts empty, with the reverse map only when saving |
| StringEnumerator.Enumerate | intellij-community/platform/lang-impl/src/com/intellij/psi/stubs/FileLocalStringEnumerator.java:24-33 | `null` is 0 and changes nothing; a non-null value fails exactly when the table is not saving |
| StringEnumerator.ValueOf | intellij-community/platform/lang-impl/src/com/intellij/psi/stubs/FileLocalStringEnumerator.java:36-39 | 0 reads as `null`; an index from 1 to the size reads the string at that position; any other index is out of bounds |
| StringEnumerator.AppendKeepsValid | intellij-community/platform/lang-impl/src/com/intellij/psi/stubs/FileLocalStringEnumerator.java:28-31 | appending a new string under the next index keeps the map the inverse of the list |
| StringEnumerator.EnumerateKnown | intellij-community/platform/lang-impl/src/com/intellij/psi/stubs/FileLocalStringEnumerator.java:27-32 | a listed string gets its position back and changes nothing |
| StringEnumerator.EnumerateSpec | intellij-community/platform/lang-impl/src/com/intellij/psi/stubs/FileLocalStringEnumerator.java:24-33 | enumerating keeps the map the inverse of the list; a known string gets its index, a new one the next index and is appended |
| StringEnumerator.EnumerateValueOf | intellij-community/platform/lang-impl/src/com/intellij/psi/stubs/FileLocalStringEnumerator.java:24-39 | `valueOf(enumerate(s))` is `s` |
| StringEnumerator.ValueOfEnumerate | intellij-community/platform/lang-impl/src/com/intellij/psi/stubs/FileLocalStringEnumerator.java:24-39 | `enumerate(valueOf(i))` is `i` for every listed index, and changes nothing |
| StringEnumerator.EnumerateIdempotent | intellij-community/platform/lang-impl/src/com/intellij/psi/stubs/FileLocalStringEnumerator.java:27-31 | enumerating the same string twice gives the same index and the same table |
| StringEnumerator.EnumerateInjective | intellij-community/platform/lang-impl/src/com/intellij/psi/stubs/FileLocalStringEnumerator.java:27-31 | two different strings get different indices |
| ScopedMemory.Align | libraries/stdlib/wasm/src/kotlin/wasm/unsafe/MemoryAllocatoion.kt:76-77 | the padded address is a multiple of 8 |
| ScopedMemory.AlignLeastMultiple | libraries/stdlib/wasm/src/kotlin/wasm/unsafe/MemoryAllocatoion.kt:77 | up to `0x7FFFFFF8`, padding gives a multiple of 8 less than 8 above the address; above it, the `Int` addition overflows and the padding wraps around to `Int.MIN_VALUE` |
| ScopedMemory.AlignIsLeast | libraries/stdlib/wasm/src/kotlin/wasm/unsafe/MemoryAllocatoion.kt:77 | when the addition does not overflow, no multiple of 8 lies between an address and its padding |
| ScopedMemory.Allocate | libraries/stdlib/wasm/src/kotlin/wasm/unsafe/MemoryAllocatoion.kt:72-80 | allocation fails exactly on a destroyed allocator; otherwise it returns a multiple of 8, which becomes the next available address |
| ScopedMemory.FirstAllocation | libraries/stdlib/wasm/src/kotlin/wasm/unsafe/MemoryAllocatoion.kt:68-80 | the first allocation of a new allocator succeeds and returns the scratch address padded to a multiple of 8, which is the scratch address itself when already aligned |
| ScopedMemory.AllocateTwiceSameAddress | libraries/stdlib/wasm/src/kotlin/wasm/unsafe/MemoryAllocatoion.kt:72-80 | the address is only padded, never advanced by the size: two allocations in a row return the same address |
| ScopedMemory.DestroyedRefuses | libraries/stdlib/wasm/src/kotlin/wasm/unsafe/MemoryAllocatoion.kt:73 | after `destroy()` every allocation fails its check |
| ScopedMemory.WithScopedMemoryAllocator | libraries/stdlib/wasm/src/kotlin/wasm/unsafe/MemoryAllocatoion.kt:50-65 | the nesting check fails exactly when the flag is set; otherwise the block's result or exception is passed on and the allocator is destroyed either way; the flag is initialised to false and never assigned, so as written no nested call is rejected |
| ScopedMemory.EscapedAllocatorRefuses | libraries/stdlib/wasm/src/kotlin/wasm/unsafe/MemoryAllocatoion.kt:55-59 | an allocator that escapes the block cannot allocate |
| PrimitiveRules.ValueOfCapitalized | generators/builtins/generatePrimitives.kt:935 | reading a type written by its capitalized name back with `valueOf(name.uppercase())` gives the type |
| PrimitiveRules.MaxByDomainCapacity | generators/builtins/generatePrimitives.kt:794-796 | the result is one of the arguments, at least as wide as both, and the second on a tie |
| PrimitiveRules.GetOperatorReturnType | generators/builtins/generatePrimitives.kt:798-802 | BOOLEAN operands are rejected with the code's messages; otherwise the result is the widest of the operands and INT |
| PrimitiveRules.OperatorReturnTypeSymmetric | generators/builtins/generatePrimitives.kt:798-802 | with distinct ordinals the result type does not depend on the order of the operands |
| PrimitiveRules.CastToIfNecessary | generators/builtins/generatePrimitives.kt:1045-1048 | a cast involving a non-numeric type throws `IllegalArgumentException` |
| PrimitiveRules.CastNamesTarget | generators/builtins/generatePrimitives.kt:1045-1057 | between numeric types a cast is written exactly when the target comes later in declaration order, and it names the target in a form `valueOf` reads back |
| PrimitiveRules.NoCastToOwnResultType | generators/builtins/generatePrimitives.kt:1045-1057 | an operand already of the operator's result type is never cast |
| PrimitiveRules.ToNativeOperator | generators/builtins/generatePrimitives.kt:1039-1043 | `div` and `rem` become `SIGNED_` and the upper-cased name; any other name without the `unary` prefix, including every name shorter than it, is only upper-cased; a name with the prefix becomes `UNARY_` and the upper-cased join of its pieces between the occurrences of `unary` |
| PrimitiveRules.UnaryNativeOperator | generators/builtins/generatePrimitives.kt:1041 | a `unary` name loses every occurrence of `unary` and gains `UNARY_`; a name with no further occurrence loses only its prefix |
| PrimitiveRules.DoubledUnaryPrefix | generators/builtins/generatePrimitives.kt:1041 | `unaryunaryMinus` becomes `UNARY_MINUS`: the inner `unary` is deleted too |
| PrimitiveRules.NativeConversion | generators/builtins/generatePrimitives.kt:936-938 | a conversion to the type itself, and only that one, is the inline `this` body |
| PrimitiveRules.IntegralConversionChoice | generators/builtins/generatePrimitives.kt:939-947 | from a non-floating type the intrinsic is `SIGNED_TO_FLOAT` exactly for floating targets; otherwise truncate, sign-extend or zero-extend exactly when the target is smaller, larger or the same size |
| PrimitiveRules.FloatingConversionChoice | generators/builtins/generatePrimitives.kt:948-962 | from a floating type, BYTE, SHORT and CHAR go through `toInt()`, INT and LONG call the runtime function named after both types, and the names read back as the types |
| PrimitiveRendering.PlatformSeparators | generators/builtins/generatePrimitives.kt:13 | `"\n"` and `"\r\n"` meet what the rendering needs of the line separator |
| PrimitiveRendering.Render | generators/builtins/generatePrimitives.kt:140-150 | a signature renders as its modifier words, each followed by a space, then `fun name(arg): type` |
| PrimitiveRendering.ModifierFlags | generators/builtins/generatePrimitives.kt:142-147 | each modifier word appears exactly when its flag is set |
| PrimitiveRendering.ModifierPositions | generators/builtins/generatePrimitives.kt:142-147 | the visibility comes first unless the method is external, and there is one word per set flag besides it |
| PrimitiveRendering.Shift | generators/builtins/generatePrimitives.kt:15-17 | the lines of a shifted text are its own lines, each behind a tab, in the same number and order |
| PrimitiveRendering.ShiftRoundTrip | generators/builtins/generatePrimitives.kt:15-17 | removing the tab from every line of a shifted text gives the text back |
| PrimitiveRendering.PrintAsDoc | generators/builtins/generatePrimitives.kt:45-51 | a one-line text stays one line, between `/** ` and ` */`; a text of several lines becomes the line `/**`, its own lines behind ` * `, and the line ` */` |
| PrimitiveRendering.AddDoc | generators/builtins/generatePrimitives.kt:23-29 | the first text becomes the documentation as it is; a later one appends its lines after the lines already there |
| PrimitiveRendering.AddDocs | generators/builtins/generatePrimitives.kt:23-29 | a series of `addDoc` calls yields the texts joined by line separators, in call order, behind the documentation already there; starting without one, the first text is taken as it is |
| SymbolProviderUtil.UnionOfTransformsSpec | compiler/fir/providers/src/org/jetbrains/kotlin/fir/resolve/providers/FirSymbolProvider.kt:75-79 | the result is `null` exactly when some transform is `null`; otherwise it holds exactly the elements some transform produced |
| SymbolProviderUtil.FlatMapToNullableSet | compiler/fir/providers/src/org/jetbrains/kotlin/fir/resolve/providers/FirSymbolProvider.kt:78-79 | the loop computes that union, and on `null` it stops right after the first `null` transform |
| SymbolProviderUtil.ClassDeclaredMemberScope | compiler/fir/providers/src/org/jetbrains/kotlin/fir/resolve/providers/FirSymbolProvider.kt:81-84 | there is a scope exactly when the id names a regular class |
| SymbolProviderUtil.ClassDeclaredLookups | compiler/fir/providers/src/org/jetbrains/kotlin/fir/resolve/providers/FirSymbolProvider.kt:86-99 | a missing id or a type alias gives empty lists; for a regular class, the constructors, and the functions and properties of the name, are what its declared scope holds, or empty when the scope has no entry for the name |
| SymbolProviderUtil.ClassDeclaredMembership | compiler/fir/providers/src/org/jetbrains/kotlin/fir/resolve/providers/FirSymbolProvider.kt:81-99 | a symbol is found exactly when the id names a regular class whose scope lists it under the name (or among the constructors); the function and property lookups are empty exactly when the id is missing, names no regular class, or the scope has nothing under the name |
| LightAnnotationsMethod.IsIncludedApplicable | analysis/symbol-light-classes/src/org/jetbrains/kotlin/light/classes/symbol/methods/SymbolLightAnnotationsMethod.kt:118-127 | the filter, branch by branch, agrees with a table of independent rules on every annotation |
| LightAnnotationsMethod.FilterRules | analysis/symbol-light-classes/src/org/jetbrains/kotlin/light/classes/symbol/methods/SymbolLightAnnotationsMethod.kt:119-126 | `JvmStatic` is never kept; known targets without PROPERTY exclude; known targets and no use-site target exclude exactly a primary-constructor property that VALUE_PARAMETER could claim |
| LightAnnotationsMethod.Filtered | analysis/symbol-light-classes/src/org/jetbrains/kotlin/light/classes/symbol/methods/SymbolLightAnnotationsMethod.kt:115-127 | the kept annotations are exactly the property's annotations that pass the filter |
| LightAnnotationsMethod.MethodAnnotations | analysis/symbol-light-classes/src/org/jetbrains/kotlin/light/classes/symbol/methods/SymbolLightAnnotationsMethod.kt:115-130 | the list is empty exactly when no annotation applies; otherwise it ends in `java.lang.Deprecated` and before it holds exactly the applicable annotations |
| LightAnnotationsMethod.ComputeModifiers | analysis/symbol-light-classes/src/org/jetbrains/kotlin/light/classes/symbol/methods/SymbolLightAnnotationsMethod.kt:84-94 | a visibility modifier gets the property's visibility; otherwise the method is never final or abstract, always static, and has no answer for any other modifier |
| LightAnnotationsMethod.ModifierProperties | analysis/symbol-light-classes/src/org/jetbrains/kotlin/light/classes/symbol/methods/SymbolLightAnnotationsMethod.kt:84-94 | `hasModifierProperty` holds for STATIC and fails for FINAL and ABSTRACT unless they are visibility modifiers; a visibility modifier holds exactly when the member visibility sets it; any other modifier fails |

## Left out

- `Name` is modelled as its string. `Name.guessByFirstCharacter` and the special-name flag are not modelled.
- `FqName`, the safe twin, is only the `hasSafe` flag; `toSafe()` is not modelled.
- The hash of a name built through the private constructor is not distinguished from that of the public one.
- Strings are sequences of Unicode scalar values. Only `length()` and `hashCode` count UTF-16 code units (`Strings.Utf16`); string indices elsewhere count characters, which agrees with Java for text without characters above U+FFFF.
- `Strings.Upper` and `Strings.Lower`: case mapping covers ASCII letters only. The generator's names are ASCII, and `Locale.getDefault()` is not modelled.
- The IR is abstract. A declaration holds:
  - its kind, name, parent name, flags and start offset;
  - its members, type parameters, accessors and value-parameter classifiers;
  - the symbols it refers to.

  Annotations, metadata, visibility, modality, return types, receivers and bodies are not modelled. The fake-override creators copy them unchanged.
- `deepCopyWithSymbols` of type parameters is modelled as fresh symbols with the same names. The copies of value parameters and receivers are not modelled.
- `IrActualizerTransformer` is not part of this model. The final rewrite is modelled as substitution of referenced symbols through the map.
- `symbol.owner` and `expandedType.classifierOrFail` come from a table parameter (`owners`). Fresh symbols come from a counter parameter (`next`).
- ActualizerFakeOverrides.FakeOverrideShape: the new symbols are only shown to lie between `next` and the returned counter. That they differ from every symbol already in use holds when `next` is above all of them, which the model does not check.
- Actualizer.LinkedRefersToNoExpect: its hypothesis, that no actual symbol of the map is itself a key, is not derived from the fragments. It holds when the expect and actual declarations have distinct symbols, which the model does not state.
- FqNames.PathSegments: models the corrected `pathStringSegments` (see Findings). For a name with empty segments, such as `"."`, the code as written throws instead (`FqNames.PathStringSegmentsAsWritten`).
- The `AssertionError` and `NullPointerException` throws are modelled as a `Failure` that ends the pass. State changed before the throw is not modelled.
- Indices and sizes are unbounded integers. The `Int` overflow of Java array sizes and list indices is not modelled.
- `PrimitiveType.kt` is not part of this model. The ordinals, byte sizes, the numeric and floating sets, and the names are parameters or stated facts (`Layout`, `Name`).
- `FileDescription`, `ClassDescription`, `MethodDescription` and the other builders of `generatePrimitives.kt` are not modelled. This covers their `toString`, the generators' method tables, the documentation texts, the float constants and `main`.
- `printDocumentationAndAnnotations` and the annotation rendering of `AnnotatedAndDocumented` are not modelled. Only `addDoc` and `printAsDoc` are.
- The concrete `toNativeOperator` names of the generator's operator tables are not stated. The rules are proved for every name.
- `FileLocalStringEnumerator.write` and the other stream I/O are not modelled.
- `unsafeGetScratchRawMemory` is a Wasm intrinsic; the scratch address is a parameter. The other linear-memory functions of `MemoryAllocatoion.kt` are not modelled.
- `flatMapToNullableSet` is modelled over lists, and its set is a mathematical set. `session.declaredMemberScope` is modelled as a table from class ids to scopes.
- LightAnnotationsMethod.Overrides: the five fixed answers of the light method (`isVarArgs`, `isConstructor`, `isDeprecated`, `isOverride`, `getReturnType` as `void`, at SymbolLightAnnotationsMethod.kt:80, 137, 139, 185 and 147) are constants of the model with no property beyond their values, so the member has no row.
- ActualizerCallables.AppendExpectActualCallables and Actualizer.CalculateExpectActualMap: the values of the callable links are only stated when the callables' symbols and accessors are distinct and no expect value parameter is among them (`DistinctLinks`, `ParamsAvoid`). Those hypotheses are not derived from the fragments. Without them a later link can overwrite an earlier one, or change the table a later parameter check reads.
- Actualizer.CalculateExpectActualMap: the classifier values are only stated when the expect classifiers' symbols and the callables' symbols are apart. Otherwise the callable step may overwrite a classifier's entry.
- ScopedMemory.AlignIsLeast: only stated for addresses up to `0x7FFFFFF8`. Above them the padding overflows (`ScopedMemory.AlignLeastMultiple`).
- `LazyModifiersBox` is not part of this model. Its visibility modifiers and the computed member visibility are parameters of `ComputeModifiers`.
- `computeAnnotations` is modelled as the filter over the property's annotations. Its conversion of annotations to light annotations and its nullability handling are not modelled.
- The unused local `isApplicable` copy of the filter (`SymbolLightAnnotationsMethod.kt:104-113`) is not modelled separately, since it is the filter without the `JvmStatic` rule.
- The light method's name (`JvmAbi`), PSI identity, lazy caches, type and parameter lists, text ranges and `equals`/`hashCode` are not modelled.
- `PrimitiveRendering.LineSeparator`: the rendering contracts require the line separator to meet three conditions:
  - it is non-empty;
  - it has no proper prefix that is also a suffix;
  - it avoids tab, space, star and slash.

  `"\n"` and `"\r\n"` meet them (`PlatformSeparators`).

## Findings

| source | as written | input that shows it | evidently intended | confidence | as-written member | corrected member |
|---|---|---|---|---|---|---|
| core/compiler.common/src/org/jetbrains/kotlin/name/FqNameUnsafe.java:186-188 | with a dot present, `regionMatches` compares only the first `firstDot` characters, so a segment longer than the first word still matches | `FqNameUnsafe("ab.x").startsWith(Name("abc"))` is true | true exactly when the first word equals the segment | not executed | FqNames.StartsWithAsWritten, FqNames.StartsWithAcceptsLongerSegment | FqNames.StartsWith |
| core/compiler.common/src/org/jetbrains/kotlin/name/FqNameUnsafe.java:166-176 | the buffer has `length / 2 + 1` slots, but a name with empty segments has more words than that | `FqNameUnsafe(".").pathStringSegments()` writes a second word into a one-slot buffer (`ArrayIndexOutOfBoundsException`) | a buffer of one slot per dot plus one, returning the words | not executed | FqNames.PathStringSegmentsAsWritten, FqNames.PathStringSegmentsOverrun | FqNames.PathStringSegments |
