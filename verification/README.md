# A verified model of the schemaform core

This project models the framework-neutral core of `schemaform` in Dafny and proves what it is for. The model has three
parts that share one notion of equality.

**Exact JSON arithmetic, equality and schema compilation.** Number texts of any length and exponent are normalised,
compared, canonicalised to integers under a digit limit and saturated to a machine size (`Numbers`). Values are compared
semantically, written to and read from by pointer, and respelled (`Json`); fed to a hash as an unambiguous byte stream
(`Fingerprint`). References and `allOf` are expanded over a cyclic schema graph, with recursion and conjunctions
reported exactly (`References`, `ReferenceCycles`, `Conjunctions`, `ReferenceExpansion`), and `enum`, `const`, `type`
and constant `oneOf`/`anyOf` are compiled into one option list (`Choices`, `ScalarOptions`), each option with the
annotations of the branch it comes from (`ChoiceOrigins`).

**Resource limits.** Byte scanners predict, before parsing, what the tree of a text will measure (`Scanner`,
`SourceScan`); explicit-stack walks measure or check the parsed tree in the order of the document (`DocumentOrder`,
`TreeWalk`, `SchemaMetrics`). A grammar of JSON texts with every white space and every escape (`JsonText`) and the
measures of a tree (`TreeMetrics`) connect the two.

**The form state machine.** `Forms.Form` is a class with the fields of the code: form data, item states per array, edit
buffers, identities, external findings and two revisions. Every method is proved to do exactly what a function on values
says, and what the code promises is proved about those functions: `FormModel` states what a reachable form satisfies,
`ArrayOperations`, `Toggles`, `ControlEdits`, `Structures`, `Lifecycle`, `ExternalFindings` and `HostTransactions` hold
the operations, `Effects` and `TransactionEffects` say what each changes and what it leaves alone, and `FormRuns` and
`Identities` reason about whole runs. `RowAnswers`, `ToggleAnswers`, `ControlAnswers`, `StructureAnswers`,
`LifecycleAnswers` and `TransactionAnswers` settle every answer without naming what the operations are made of: when
each is accepted, which error it gives otherwise, and the whole form and answer that follow. A form is *sound* when
every array has as many items as its data has elements (now and in the baseline), identities are distinct and below the
next one, and finding batches are sorted, non-empty and current; it is *honest* when every edit buffer without a parse
blocker stands for a value semantically equal to the data at its control.

`dafny verify dfyconfig.toml` checks the whole project.

## Findings

Where the code does not do what it sets out to do on every input, the model keeps the code's behaviour, exhibits an
input, and proves exactly when it does:

- `canonical_integer_with_limit` refuses a number whose exponent text exceeds a signed 64-bit integer as too long
  without looking at its fraction. `WhenTheExponentOverflows` gives the exact condition under which that answer is
  wrong, and `AnOverflowingExponentCanFit` a text of fewer than 2^63 bytes for which it is.
- `scalar_choices` expects a `const` to blame when no option is left. With null as the only kind, no listing keyword and
  a schema `false`, there is none, and the `expect` panics; its message, that an empty choice without an `enum` comes
  from a `const`, is not true there (`WhenNothingIsToBlame`, `ANullTypeBesideFalse`).
- `apply_host_transaction` clears input before it looks up item writes, so a transaction that fails on a dead item can
  drop buffers without moving a revision (`ADeadItemWriteLeavesATrace`). `FailedTransactionsOnlyClear` says exactly when
  a failure leaves no trace: the request is malformed, or what it reaches before the dead item holds no input.
- `apply_host_transaction` leaves to its caller which input to clear. One that changes data under an unblocked buffer
  without writing there makes the buffer contradict the data (`AnUncoveredTransactionMisleads`); `HonestWhenCovered`
  gives the condition on form and request under which every buffer stays honest, and exactly then.
- `replace_structure` at the root accepts an array and then leaves form data that is not an object; through the other
  places, and through `materialize_structure` and `remove_value`, data stays an object (`WhenDataStaysAnObject`).
- The scanners count a repeated member name again, the parsed tree does not: `TextAndTreeAgree` holds if and only if no
  object repeats a name.

## What the model takes for granted

- A Rust string is its sequence of UTF-8 bytes. A JSON number keeps the text it was written with, `-0` and the spelling
  of its exponent included; that the parser does so with arbitrary precision is taken for granted, and the exact
  agreement of a scanned number's size with its parsed one rests on it. Objects are finite maps whose entries are
  visited in the order of their names. That `MemberOrderIsImmaterial` for every measured quantity is proved.
- A machine size has 64 bits. Lengths of texts are bounded by it where the code adds them with saturation, and those
  bounds are stated as preconditions. Revisions and identities are unbounded counters.
- JSON Pointers are token sequences in the form model, and texts where the code builds them (`PointerText` connects the
  two). A definition is well formed when all its bindings are places of their own: no binding of a control or an array
  leads through another one.
- The schema graph is a finite map from normalised locations to schemas with resolved links. A location has one
  identity.
- `sort_by` and `sort_by_key` are the insertion sorts of `StableSort` and `ExternalFindings`, which put an element
  behind its equals; that they order their input and neither lose nor add anything, and that the first one is stable, is
  proved there.

## Model

| member | source | states |
|---|---|---|
| `Numbers.SplitOfLiteral` | crates/schemaform/src/engine.rs:5849-5864 | Cutting at the sign, the exponent marker and the dot takes every legal number text apart into exactly the parts it was written with. |
| `Numbers.NormalFormOfLiteral` | crates/schemaform/src/engine.rs:5849-5884 | Every legal number text has a normal form, which is reduced (no redundant zero at either end, one spelling of zero) and denotes the same rational. |
| `Numbers.NormalFormIsCanonical` | crates/schemaform/src/engine.rs:5842-5884 | Two number texts of any length and exponent have equal normal forms exactly when they denote the same rational. |
| `Numbers.IntegersHaveNonnegativeScale` | crates/schemaform/src/engine.rs:5886-5888 | The sign of the scale decides integrality: `number_is_integer` holds exactly for whole values, however they are spelled. |
| `Numbers.NumbersEqualIsExact` | crates/schemaform/src/engine.rs:5776-5791 | `numbers_equal` decides equality of rationals. |
| `Numbers.AsUsizeSaturates` | crates/schemaform/src/engine.rs:1014-1037 | `nonnegative_integer_as_usize` yields the smaller of the value and the largest `usize` for non-negative integers and nothing for any other number. |
| `Numbers.CanonicalIntegerWithLimit` | crates/schemaform/src/engine.rs:5890-5975 | The code, with its 64-bit exponent and checked subtraction, computes the outcome that unbounded arithmetic on the parts would, save for an exponent too large to read. |
| `Numbers.CanonicalIntegerIsExact` | crates/schemaform/src/engine.rs:5890-5975 | On every literal: not whole gives `InvalidInteger`, too many digits `ResourceLimitExceeded`, anything else the one canonical text of the same value; the exception is exactly the overflowing exponent. |
| `Numbers.WhenTheExponentOverflows` | crates/schemaform/src/engine.rs:5914-5920 | When the exponent overflows the value is whole, and the refusal is wrong if and only if the digits and the scale together fit the limit; it is right whenever the fraction and the limit stay below 2^63. |
| `Numbers.AnOverflowingExponentCanFit` | crates/schemaform/src/engine.rs:5914-5920 | A concrete text of fewer than 2^63 bytes that writes 10^23 and is refused as too long: the promise fails there. |
| `Numbers.CanonicalTextIsAFixedPoint` | crates/schemaform/src/engine.rs:5964-5975 | An accepted text is again a literal of the same value, and canonicalising it once more changes nothing. |
| `Json.EqualObjects` | crates/schemaform/src/engine.rs:5806-5815 | Comparing lengths and looking up one side decides equality of members on both sides. |
| `Json.EqualIsSymmetric` | crates/schemaform/src/engine.rs:5793-5817 | Semantic equality is symmetric. |
| `Json.EqualIsTransitive` | crates/schemaform/src/engine.rs:5793-5817 | Semantic equality is transitive. |
| `Json.EqualMeansSameMeaning` | crates/schemaform/src/engine.rs:5793-5817 | Semantic equality is equality of meanings: rationals, byte strings, positions and members, once spelling and member order are forgotten. |
| `Json.WhereSetBoundSucceeds` | crates/schemaform/src/engine.rs:5439-5452 | A write succeeds exactly where a value is present or an object can take it as a new member. |
| `Json.SetBoundReadsBack` | crates/schemaform/src/engine.rs:5439-5452 | What was written is what is read back. |
| `Json.SetBoundFrame` | crates/schemaform/src/engine.rs:5439-5452 | A write changes nothing under a pointer that neither leads through it nor is led through by it. |
| `Json.TakeBoundRemoves` | crates/schemaform/src/engine.rs:5454-5461 | A removal succeeds only on something present, and leaves nothing there. |
| `Json.TakeBoundFrame` | crates/schemaform/src/engine.rs:5454-5461 | A removal changes nothing apart from its place. |
| `Json.PreserveSemanticallyEqualValues` | crates/schemaform/src/engine.rs:5819-5840 | The in-place rewriting of the candidate computes the respelled document, visiting members in any order. |
| `Json.PreservedIsEqual` | crates/schemaform/src/engine.rs:5819-5840 | The respelled candidate is semantically equal to the candidate. |
| `Json.PreservedKeepsSpelling` | crates/schemaform/src/engine.rs:5819-5840 | Wherever both documents share a position and agree there, the result is the current text exactly. |
| `Json.PreservedIsIdempotent` | crates/schemaform/src/engine.rs:5819-5840 | Respelling twice is respelling once. |
| `Fingerprint.Hasher.HashJsonValue` | crates/schemaform/src/engine.rs:5693-5729 | Hashing appends exactly the stream of the value, object entries in the order of their names. |
| `Fingerprint.PreimageDecodes` | crates/schemaform/src/engine.rs:5693-5757 | The stream is prefix-free and uniquely decodable: if two streams agree with whatever follows, the values are semantically equal and the rests agree. |
| `Fingerprint.EqualValuesHashAlike` | crates/schemaform/src/engine.rs:5693-5757 | Equal values feed the same stream, whatever their number spelling and member order. |
| `Fingerprint.PreimageIdentifiesMeaning` | crates/schemaform/src/engine.rs:5693-5757 | With all lengths below 2^64, two values feed the same stream exactly when they are semantically equal. |
| `Scanner.DecodedLengthIsExact` | crates/schemaform/src/limits.rs:1480-1530 | For every string of Unicode scalar values and every mix of raw bytes, short escapes, `\u` escapes and surrogate pairs, the predicted length is the length of the UTF-8 string denoted. |
| `Scanner.JsonStringDecodedLen` | crates/schemaform/src/limits.rs:1480-1518 | On arbitrary bytes the scanner ends with every index in range and computes that prediction. |
| `Scanner.TextLexes` | crates/schemaform/src/limits.rs:1334-1478 | In every legal spelling of a value, with any white space, the scanners see exactly the tokens of its syntax tree. |
| `Scanner.ScannersMeasureTheText` | crates/schemaform/src/limits.rs:1334-1478 | What the two scanners report for a document is its tokens, depth, nodes, members, longest collection and largest scalar, measured on the syntax tree. |
| `SourceScan.SourceMetrics` | crates/schemaform/src/limits.rs:1334-1399 | The first loop over the bytes reports the scan of the tokens; on arbitrary bytes it ends, stays in range and never saturates. |
| `SourceScan.SourceValueMetrics` | crates/schemaform/src/limits.rs:1401-1478 | The same for the second loop with its stack of open collections. |
| `TreeMetrics.MemberOrderIsImmaterial` | crates/schemaform/src/limits.rs:1244-1325 | The order in which members are visited does not change any quantity. |
| `TreeMetrics.TextMeasuresItsTree` | crates/schemaform/src/limits.rs:1401-1478 | A text without repeated names has the quantities of the tree it writes. |
| `TreeMetrics.RepeatedNamesCountTwice` | crates/schemaform/src/limits.rs:1401-1478 | A text counts at least the members of its tree, and more as soon as some object repeats a name. |
| `TreeMetrics.TextAndTreeAgree` | crates/schemaform/src/limits.rs:1401-1478 | Text and tree agree in every quantity if and only if no object repeats a name. |
| `InputLimits.CheckInputSource` | crates/schemaform/src/limits.rs:728-772 | The check before parsing accepts exactly the texts whose bytes and scanned quantities are within the limits, and reports, in the order of the code, the first dimension that is exceeded with what was observed. |
| `InputLimits.ChecksAgree` | crates/schemaform/src/limits.rs:728-886 | Once bytes and tokens fit, the text is accepted exactly when its tree is. |
| `TreeMetrics.TextMeasuresAtLeastItsTree` | crates/schemaform/src/limits.rs:1401-1478 | In no quantity does a tree exceed a text that writes it, whatever names the text repeats. |
| `InputLimits.AcceptedTextsStayAccepted` | crates/schemaform/src/limits.rs:728-886 | A text that the check before parsing accepts is never refused by the check after it, whatever names it repeats. |
| `InputLimits.RepeatedNamesAreOvercounted` | crates/schemaform/src/limits.rs:1401-1478 | With a repeated name the check before parsing counts more members than the tree has. |
| `PointerText.EscapeReadsBack` | crates/schemaform/src/limits.rs:1544-1546 | The two replacements, in the order they are made, escape a token so that it reads back, and leave no slash in it. |
| `PointerText.AppendTokenParses` | crates/schemaform/src/limits.rs:1544-1546 | Appending a token to a pointer text appends exactly that token to the pointer (section 4 of RFC 6901). |
| `PointerText.AppendIndexParses` | crates/schemaform/src/limits.rs:799-815 | Appending an array index appends the token that names that position. |
| `TreeWalk.SuccessorsKeepTheRest` | crates/schemaform/src/limits.rs:785-818 | Popping a frame accounts for its own part of every quantity and leaves exactly the rest on the stack. |
| `TreeWalk.CheckInputValue` | crates/schemaform/src/limits.rs:774-886 | The explicit-stack walk accepts exactly the trees within all limits, visits at most one value more than the limit, and refuses with the first place of the document, and the first limit there, that is exceeded; the pointer resolves and the reported size is found there. |
| `SchemaMetrics.TokensAreNodesAndMembers` | crates/schemaform/src/limits.rs:1288-1305 | Every token of a tree is a value or the name of a member: the two counters add up to the measure of the tokens. |
| `SchemaMetrics.ValueMetrics` | crates/schemaform/src/limits.rs:1244-1332 | The measuring walk is exact in nodes, tokens, depth, longest collection, largest scalar and longest pointer, and every peak comes with the first place of the document where it is met; if the tree is too deep, which it reports exactly then, it has measured what comes before the first place that is too deep. |
| `PointerLengths.LongestIsLongest` | crates/schemaform/src/limits.rs:1293-1296 | No pointer text that leads to a place of the tree is longer than the measured one. |
| `SchemaMetrics.ScannerAndWalkAgree` | crates/schemaform/src/limits.rs:888-955 | The scan of a schema text and the walk of its tree count the same tokens and the same depth. |
| `ReferenceExpansion.ExpandReferences` | crates/schemaform/src/engine.rs:1333-1461 | For schemas without `$dynamicRef`: the worklist ends on every finite graph, cyclic or not, whatever the limit; it answers with the least set closed under `allOf` and under references outside the active ones, reports every cut and only recursive references, expands no key twice, and stops at the limit exactly with the first visit beyond it. Every expanded schema carries all the conjunctions it belongs to, and every one it carries tells the truth. When the origins of the conjunctions it starts from are settled, it reports recursion exactly when something it reaches refers to an active schema or leads back to itself. |
| `References.ChildrenCostLess` | crates/schemaform/src/engine.rs:1344-1450 | Replacing a schema by what it adds lowers the remaining cost by exactly one visit: the measure is the schemas not yet on the reference path, then the size of the schema. |
| `References.FinishedIsExpansion` | crates/schemaform/src/engine.rs:1333-1461 | An empty worklist means the expanded locations are exactly the reachable ones, although references are cut by path and schemas dropped as seen. |
| `References.EmptyWorklistIsClosed` | crates/schemaform/src/engine.rs:1344-1450 | Soundness and completeness of the location set at the end of the loop. |
| `References.CutsAreRecursive` | crates/schemaform/src/engine.rs:1381-1406 | A reference is reported as recursive only if its target is active outside or leads back to it, and always if its target is active. |
| `References.ExpansionDecides` | crates/schemaform/src/engine.rs:1381-1449 | For schemas without `$dynamicRef`, unless the limit bites, expansion succeeds exactly when every reachable link resolves. |
| `ReferenceExpansion.ExpandOne` | crates/schemaform/src/engine.rs:1381-1449 | One iteration resolves all links of a schema or fails, and pushes exactly the branches and the reference target that may be followed. |
| `Conjunctions.ExpandedIsComplete` | crates/schemaform/src/engine.rs:1369-1449 | Every branch of an expanded schema is expanded as that numbered branch, in all the conjunctions the schema is in, and the target of a followed reference in the same conjunctions. |
| `Conjunctions.FinishedIsConjoined` | crates/schemaform/src/engine.rs:1369-1449 | At the end every given schema is expanded with what it carried, and each membership tells the truth: the schema was reached through that branch, or through that `allOf`. |
| `ReferenceCycles.RecursionIsReported` | crates/schemaform/src/engine.rs:1381-1406 | Although references are cut only by the path that led to them and schemas are dropped as seen, recursive findings are reported if and only if a reachable schema refers to an active one or is on a cycle of links. |
| `ReferenceCycles.UncutIsAcyclic` | crates/schemaform/src/engine.rs:1369-1406 | When no reference was cut, no expanded schema is on a cycle, whatever conjunctions it was expanded for. |
| `ReferenceCycles.NoRings` | crates/schemaform/src/engine.rs:1369-1449 | The keys that the expansion steps through form no ring: the depth-first order puts the first schema of a ring on the path of whatever steps back to it. |
| `ReferenceCycles.OriginsAreOffRings` | crates/schemaform/src/engine.rs:1422-1449 | A ring has no branch step, since the largest schema it is a branch of would still be on its path. |
| `ReferenceCycles.AdvanceKeepsDepthFirst` | crates/schemaform/src/engine.rs:1342-1451 | The stack keeps the order depth-first: until the expansion of a schema is over, everything expanded or waiting above it has it on its path. |
| `ReferenceCycles.EnclosedStaysSettled` | crates/schemaform/src/engine.rs:509-519 | The condition on origins is kept from one expansion to those below it: for properties and items, which carry the conjunctions of the schemas around them, under active locations extended or, when nothing recursive was found, merely kept. The root expansion starts from no conjunctions; the code that calls the expansions is not modelled. |
| `ScalarOptions.InferKind` | crates/schemaform/src/engine.rs:2609-2633 | A kind is inferred exactly when the declared types leave one kind, with `integer` beside `number` and `null` beside a scalar. |
| `ScalarOptions.InferredKindIsExact` | crates/schemaform/src/engine.rs:2609-2653 | The values other than null that match all declared types are exactly the values of the inferred kind. |
| `Choices.IntegerTypeIsExact` | crates/schemaform/src/engine.rs:3112-3125 | The type `integer` matches exactly the numbers with a whole value. |
| `Choices.RecognizeConstantChoice` | crates/schemaform/src/engine.rs:3016-3086 | A constant choice is recognised exactly when all branches are bare scalar constants, distinct under `oneOf`; otherwise the first cause is reported. |
| `Choices.BranchChoicesAreExact` | crates/schemaform/src/engine.rs:3016-3086 | The options of a recognised choice are what its branches admit, each once. |
| `ChoiceOrigins.OptionsComeFromBranches` | crates/schemaform/src/engine.rs:3061-3083 | Every option has the value, the text at `title` and the text at `description` of the first branch that offers it, and the options stand in the order of those branches. |
| `ChoiceOrigins.WhichBranchesFit` | crates/schemaform/src/engine.rs:3023-3048 | A branch is fit exactly when it is an object with a scalar `const` that asserts nothing more than a type; a boolean branch is told apart from every other misfit. |
| `Choices.DistinctConstantsDecideOneOf` | crates/schemaform/src/engine.rs:3050-3059 | With distinct constants no value satisfies two branches, so `oneOf` admits what `anyOf` admits. |
| `Choices.RecognizedChoices` | crates/schemaform/src/engine.rs:2973-3014 | All recognised choices are found, in the order of their locations. |
| `Choices.RecognizedSourcesAdmit` | crates/schemaform/src/engine.rs:2973-3014 | Taken together, whatever their order, they offer exactly what the recognised applicators admit. |
| `ChoiceOrigins.SourcesAreRecognized` | crates/schemaform/src/engine.rs:2973-3014 | The recognised choices are those the schemas have, and the first one, which gives the annotations, has the lowest place. |
| `Choices.RetainedOffers` | crates/schemaform/src/engine.rs:3088-3098 | Narrowing by a list keeps exactly the options that the list holds too. |
| `Choices.NarrowingKeepsOrder` | crates/schemaform/src/engine.rs:2785-2835 | Narrowing and dropping duplicates keep the order of the options. |
| `ScalarOptions.SeedAndOthers` | crates/schemaform/src/engine.rs:2772-2796 | Whichever source provides the first list, the result is what all sources offer together. |
| `ScalarOptions.SourcesDecide` | crates/schemaform/src/engine.rs:2717-2830 | What all sources and all types allow is exactly what the schemas admit. |
| `ScalarOptions.SortingKeepsOffer` | crates/schemaform/src/engine.rs:3127-3135 | Sorting distinct scalars by type and text puts them in strictly increasing order and keeps what is on offer. |
| `ScalarOptions.CompileScalarChoices` | crates/schemaform/src/engine.rs:2717-2869 | With a source: on success the options are, up to semantic equality, exactly the values that every applicable `enum`, `const`, `type`, boolean schema and recognised choice admits, distinct and in order; a refusal names a schema that is to blame. |
| `ChoiceOrigins.OptionsAreAnnotated` | crates/schemaform/src/engine.rs:2763-2835 | Compiled from a recognised choice, every option that is left says what the first branch that offers it says, with its title and its description. |
| `ChoiceOrigins.OptionsAreBare` | crates/schemaform/src/engine.rs:2763-2835 | Compiled from an `enum` or a `const`, an option is a value as it is written there, the first of several equal ones, without title and description. |
| `ScalarOptions.WhenChoicesCompile` | crates/schemaform/src/engine.rs:2717-2869 | With a source, compilation succeeds if and only if no `const` is structured and the schemas admit some value and only scalars. |
| `ScalarOptions.InferredNullIsAdmitted` | crates/schemaform/src/engine.rs:2797-2804 | When null is the only inferred kind, null satisfies every schema if and only if none of them is `false`. |
| `ScalarOptions.WhenNothingIsToBlame` | crates/schemaform/src/engine.rs:2838-2853 | The code looks for a `const` to blame where there is none, and so panics, if and only if null is the only kind, no keyword lists options and a schema is `false`. |
| `ScalarOptions.ANullTypeBesideFalse` | crates/schemaform/src/engine.rs:2838-2853 | That case exists: a null type next to the schema `false`. |
| `StableSort.SortedIsOrdered` | crates/schemaform/src/engine.rs:2990-2993 | The sort orders, and loses and adds nothing. |
| `StableSort.SortedIsStable` | crates/schemaform/src/engine.rs:2990-2993 | Elements with equal keys keep their order. |
| `TextInput.ReaderIsExact` | crates/schemaform/src/engine.rs:5760-5774 | The reader of typed numbers accepts exactly the number grammar of section 6 of RFC 8259. |
| `TextInput.ReadTextDenotes` | crates/schemaform/src/engine.rs:5756-5774 | What is read from a buffer stands for what was typed, whatever the spelling. |
| `TextInput.ReadIntegersAreExact` | crates/schemaform/src/engine.rs:5760-5767 | Typed integers are refused or accepted exactly as canonicalisation decides. |
| `TextInput.ReadText` | crates/schemaform/src/engine.rs:5756-5774 | The readers compute that function. |
| `ControlAnswers.WhatIsRead` | crates/schemaform/src/engine.rs:5756-5774 | String controls take every text as it is; number controls take exactly the literals of the grammar, with white space around them. |
| `ControlAnswers.TrimIsExact` | crates/schemaform/src/engine.rs:5760-5774 | White space, and nothing else, is dropped on both sides, all of it. |
| `Lifecycle.CreatedFormIsSound` | crates/schemaform/src/engine.rs:331-375 | A created form is sound and honest. |
| `LifecycleAnswers.CreationIsExact` | crates/schemaform/src/engine.rs:331-375 | A form is created from an object and from nothing else: both revisions are 0, nothing is typed, and the items of the arrays are numbered in turn from 1. |
| `ArrayOperations.AppendAddsARow` | crates/schemaform/src/engine.rs:3940-3970 | Appending adds one fresh row at the end of one array; the rows of every array are otherwise as before. |
| `ArrayOperations.InsertBeforeInsertsARow` | crates/schemaform/src/engine.rs:3972-4015 | Inserting puts a fresh row right before the named one; the identities reported as shifted are exactly those whose index changed. |
| `ArrayOperations.RemoveRemovesARow` | crates/schemaform/src/engine.rs:4017-4052 | Removing drops one row; the identities reported as shifted are exactly those of the others whose index changed. |
| `ArrayOperations.MoveSwapsRows` | crates/schemaform/src/engine.rs:4070-4116 | Moving exchanges two neighbouring rows, identity, input and value together; the displaced identity is the only other one whose index changed. |
| `ArrayOperations.QuietMovesKeepTheData` | crates/schemaform/src/engine.rs:4100-4108 | A move that leaves the data revision alone leaves semantically equal data. |
| `RowAnswers.AppendIsDecided` | crates/schemaform/src/engine.rs:3940-3970 | Appending is accepted exactly when an array is present there and one more item stays within `maxItems`; the new blank item takes the next identity and the seed, the findings go and both revisions move by one. |
| `RowAnswers.InsertIsDecided` | crates/schemaform/src/engine.rs:3972-4015 | Inserting is accepted exactly then too; the answer lists the shifted items in order, from the named one on. |
| `RowAnswers.RemoveIsDecided` | crates/schemaform/src/engine.rs:4017-4052 | Removing is accepted exactly when the array keeps at least `minItems`; the element and the item at one place go, and the answer lists the items behind them in order. |
| `RowAnswers.MoveIsDecided` | crates/schemaform/src/engine.rs:4070-4116 | Moving is possible exactly when there is a neighbour in that direction; the data revision moves exactly when the two elements differ, and the answer names both items and places. |
| `RowAnswers.UnknownArrayIsRefused` | crates/schemaform/src/engine.rs:3940-4116 | Where no array is bound every row operation is refused with its error, and nothing changes. |
| `RowAnswers.UnknownItemIsRefused` | crates/schemaform/src/engine.rs:3972-4116 | An identity that no item of the array has is `UnknownControl`, unless the array cannot grow or shrink anyway; nothing changes. |
| `Toggles.ToggleChangesRows` | crates/schemaform/src/engine.rs:3849-3938 | A successful toggle changes the rows of one array, keeps the form sound and keeps it honest. |
| `Toggles.ToggledMemberIsGone` | crates/schemaform/src/engine.rs:3919-3932 | On any array, toggling a member removes every item that carries it and no other. |
| `Toggles.ToggledTwiceIsRestored` | crates/schemaform/src/engine.rs:3849-3938 | On any array, toggling a non-member twice restores the exact list. |
| `Toggles.ToggleFlips` | crates/schemaform/src/engine.rs:3849-3938 | In option order, a toggle flips exactly one membership, keeps the order and touches no other row. |
| `Toggles.RunsOfTogglesFlip` | crates/schemaform/src/engine.rs:3849-3938 | After any run of toggles the members are the options whose initial membership differs from their toggle parity, distinct and in option order; an item of an option that was never toggled keeps identity, input and value. |
| `ToggleAnswers.WhenTogglesAreAccepted` | crates/schemaform/src/engine.rs:3849-3895 | Toggling is accepted exactly for a value equal to an option of a multiple choice, where an array is present, or nothing with an object above it; a refusal changes nothing. |
| `ToggleAnswers.NoArrayIsToggled` | crates/schemaform/src/engine.rs:3849-3862 | Where no array is bound, toggling is refused and nothing changes. |
| `ToggleAnswers.TogglingOutIsExact` | crates/schemaform/src/engine.rs:3896-3938 | An option that is in leaves with exactly the elements equal to it and their items; the answer lists what left and what shifted, in order, and the rest keeps its order. |
| `ToggleAnswers.TogglingInIsExact` | crates/schemaform/src/engine.rs:3896-3938 | An option that is out comes in with a blank item, before the first element whose option comes later in the list; the answer lists what shifted. |
| `ControlEdits.ControlsStayApart` | crates/schemaform/src/engine.rs:4920-4957 | In a well-formed definition no two controls, in whatever items, are bound through each other. |
| `ControlEdits.WrittenIsHonest` | crates/schemaform/src/engine.rs:4182-4193 | Writing at one control keeps every buffer of the form honest, provided its own stands for what is written. |
| `ControlEdits.EditTextIsSound` | crates/schemaform/src/engine.rs:4164-4197 | Typing keeps the form sound and every buffer honest. |
| `ControlEdits.SetValueIsSound` | crates/schemaform/src/engine.rs:4325-4355 | Setting a value keeps the form sound and every buffer honest. |
| `ControlEdits.BlurIsSound` | crates/schemaform/src/engine.rs:4783-4817 | Leaving keeps the form sound and every buffer honest. |
| `ControlEdits.DroppedBuffersAreInTheData` | crates/schemaform/src/engine.rs:5364-5366 | Leaving never discards input: a dropped buffer stands for what the data holds at that control. |
| `ControlAnswers.LocateIsExact` | crates/schemaform/src/engine.rs:4920-4957 | The binding of a control, on its own or in an item, finds that control and no other. |
| `ControlAnswers.NothingIsFound` | crates/schemaform/src/engine.rs:4920-4957 | A binding finds nothing exactly when nothing is bound there. |
| `ControlAnswers.WhenTypingIsAccepted` | crates/schemaform/src/engine.rs:4248-4300 | Typing is accepted exactly for a string, number or integer control over a value it may replace: nothing with an object above it, null if the control accepts null, or a value of its own kind. Nothing without an object above it is `UnresolvedControl`, everything else `OperationNotAllowed`, and a refusal changes nothing. |
| `ControlAnswers.UnboundTextIsRefused` | crates/schemaform/src/engine.rs:4248-4265 | Where no control is bound, typing is `UnknownControl` and changes nothing. |
| `ControlAnswers.AlreadyThereMeansEqual` | crates/schemaform/src/engine.rs:4300-4323 | What was read counts as already there exactly when it is semantically equal to what the data holds. |
| `ControlAnswers.TypingIsExact` | crates/schemaform/src/engine.rs:4164-4323 | Accepted text goes into the buffer. Data and findings change exactly when the text was read as something else than the data holds; otherwise at most the state revision moves, exactly when the edit state of the control changes. |
| `ControlAnswers.SettingIsDecided` | crates/schemaform/src/engine.rs:4325-4355 | Setting is accepted exactly for a value the control may hold where there is a place for it; an equal value changes nothing, another one is stored as the equal option spells it, and the input of the control is cleared. |
| `ControlAnswers.UnboundValueIsRefused` | crates/schemaform/src/engine.rs:4325-4335 | Where no control is bound, setting is `UnknownControl` and changes nothing. |
| `ControlAnswers.LeavingIsExact` | crates/schemaform/src/engine.rs:4783-4798 | Leaving a control always succeeds; the state revision moves exactly when the control was not touched or a buffer is dropped. |
| `ControlAnswers.LeavingAnArrayIsExact` | crates/schemaform/src/engine.rs:4800-4817 | Leaving an array is accepted for a multiple choice only, which becomes touched; the state revision moves exactly when it was not, and nothing else changes. |
| `Effects.TypedTextTakesEffect` | crates/schemaform/src/engine.rs:4164-4323 | Accepted text becomes the buffer of the one control; if it can be read the data holds what it says, if not the data stays and the reason is kept; nothing else changes. |
| `Effects.SetValueTakesEffect` | crates/schemaform/src/engine.rs:4325-4355 | The data holds a value equal to the one set, spelled as the option it equals, with the input of the control cleared; if an equal value was there already nothing happens. |
| `Effects.LeavingTakesEffect` | crates/schemaform/src/engine.rs:4783-4798 | Leaving a control marks it touched, drops its buffer unless a blocker keeps it, and changes nothing else. |
| `Structures.PlannedFollows` | crates/schemaform/src/engine.rs:4443-4456 | Rebuilding the items of all arrays in turn never uses an identity twice. |
| `Structures.RestructuringStaysHonest` | crates/schemaform/src/engine.rs:4357-4441 | After a write of a whole structure, buffers stay honest as long as none is left at or below it. |
| `Structures.MaterializeIsSound` | crates/schemaform/src/engine.rs:4357-4376 | Materialising keeps the form sound and every buffer honest. |
| `Structures.ReplaceStructureIsSound` | crates/schemaform/src/engine.rs:4378-4416 | Replacing a structure keeps the form sound and every buffer honest. |
| `Structures.RemoveValueIsSound` | crates/schemaform/src/engine.rs:4418-4441 | Removing a value keeps the form sound and every buffer honest. |
| `Structures.WhenDataStaysAnObject` | crates/schemaform/src/engine.rs:4378-4416 | Form data stays an object through these operations if and only if no array is put in place of the root. |
| `StructureAnswers.MaterializeIsDecided` | crates/schemaform/src/engine.rs:4357-4376 | Materialising is accepted exactly for an object or an array where nothing is present and an object is above. Items of arrays at or below are numbered on from the next identity; each other case has its error and changes nothing. |
| `StructureAnswers.ReplaceStructureIsDecided` | crates/schemaform/src/engine.rs:4378-4416 | Replacing is accepted exactly where a value is present that gives way: an object replaces what is no object, an array what is no array or a multiple choice. Items of arrays at or below are new, blank and numbered on from the next identity, input below is gone, and any other answer is `OperationNotAllowed` and changes nothing. |
| `StructureAnswers.WhereTakeBoundSucceeds` | crates/schemaform/src/engine.rs:5454-5461 | A removal succeeds exactly where a member of an object is present. |
| `StructureAnswers.RemoveValueIsDecided` | crates/schemaform/src/engine.rs:4418-4465 | Removing a value is accepted exactly there; every other place is `UnresolvedControl` and nothing changes. |
| `Effects.MaterializeTakesEffect` | crates/schemaform/src/engine.rs:4357-4376 | A structure is made exactly where nothing is present but an object to hold it; it is then what is read there, every array at or below it has new items, and the rest is as before. An error changes nothing. |
| `Effects.ReplaceStructureTakesEffect` | crates/schemaform/src/engine.rs:4378-4416 | On success the value is what is read there, arrays at or below have new items, input at or below is cleared, and the rest is as before. An error changes nothing. |
| `Effects.RemoveValueTakesEffect` | crates/schemaform/src/engine.rs:4418-4441 | On success nothing is left at the place, arrays at or below have no items that were there before, input at or below is cleared, and the rest is as before. An error changes nothing. |
| `ExternalFindings.NormalizedIsSorted` | crates/schemaform/src/engine.rs:4495-4503 | Stored findings are strictly sorted and are exactly the reported ones. |
| `ExternalFindings.OnlyTheSetMatters` | crates/schemaform/src/engine.rs:4495-4503 | What is stored depends on the set of findings only. |
| `ExternalFindings.ApplyFindingsIsSound` | crates/schemaform/src/engine.rs:4481-4534 | Batches carry the current data revision, have strictly increasing sources and are never empty. |
| `ExternalFindings.AppliedFindingsAreStored` | crates/schemaform/src/engine.rs:4481-4534 | A report replaces the findings of its source and leaves those of every other source alone. |
| `ExternalFindings.SourcesCommute` | crates/schemaform/src/engine.rs:4481-4534 | Two sources may report in either order: the resulting form is the same. |
| `ExternalFindings.ReportingTwiceIsReportingOnce` | crates/schemaform/src/engine.rs:4481-4534 | Reporting the same again changes nothing, not even the state revision. |
| `LifecycleAnswers.ReportsAreCurrent` | crates/schemaform/src/engine.rs:4487-4492 | A report is accepted exactly when it is about the current data revision. A refused one changes nothing and is told both revisions; an accepted one moves the state revision exactly when the batches change. |
| `LifecycleAnswers.LateReportsAreJudged` | crates/schemaform/src/engine.rs:4481-4534 | Over any run: a report about an earlier form is accepted exactly while the data revision is still the one that was looked at, and then the data is equal to what was looked at. |
| `Lifecycle.ResetIsSound` | crates/schemaform/src/engine.rs:4536-4582 | A reset form is sound and honest, with the baseline's data and exactly its identities. |
| `Lifecycle.QuietResetsChangeNothing` | crates/schemaform/src/engine.rs:4536-4582 | A reset that leaves the state revision alone leaves the whole form alone. |
| `LifecycleAnswers.ResettingIsExact` | crates/schemaform/src/engine.rs:4536-4582 | A reset keeps data and findings when the data equals the baseline, and otherwise restores it and drops them; the items are the baseline's, blank, and the state revision moves exactly when anything changes. |
| `Effects.ResetRestoresTheBaseline` | crates/schemaform/src/engine.rs:4536-4582 | After a reset the items are the baseline's, newly made and in order, no input is left, and no identity is handed out again. |
| `Lifecycle.ReinitializeIsSound` | crates/schemaform/src/engine.rs:4584-4618 | A reinitialised form is sound, and honest if it was or if the data was accepted. |
| `LifecycleAnswers.ReinitializingIsExact` | crates/schemaform/src/engine.rs:4584-4618 | An object is the new baseline, equal data keeps its spelling, both revisions move by one and identities go on where they were; anything else is refused and changes nothing. |
| `Effects.ReinitializedIsNew` | crates/schemaform/src/engine.rs:4584-4618 | A reinitialised form is the one that would be created from the data, but for revisions and for identities, all of which are new. |
| `Lifecycle.PrepareSubmissionIsSound` | crates/schemaform/src/engine.rs:4848-4918 | Preparing a submission keeps the form sound and every buffer honest. |
| `Lifecycle.BlockersAreExact` | crates/schemaform/src/engine.rs:4849-4885 | The blockers are the controls whose text could not be read, at their current bindings, and the blocking findings, and nothing else. |
| `Lifecycle.SubmittedDataHoldsTheInput` | crates/schemaform/src/engine.rs:4848-4918 | A submission that succeeds holds everything that was typed: every buffer stands for what is in the snapshot. |
| `LifecycleAnswers.SubmissionTakesEffect` | crates/schemaform/src/engine.rs:4848-4918 | Submitting succeeds exactly when no text is unread and no finding blocks, and then hands out the data with its data revision. Either way the attempt is recorded, unblocked buffers go, everything else stays, and the state revision moves exactly when anything changes. |
| `LifecycleAnswers.BlockersAreInOrder` | crates/schemaform/src/engine.rs:4849-4885 | A refusal lists every blocker once: controls on their own, then those of the items, then findings, each in the order of the form. |
| `HostTransactions.HostTransactionIsSound` | crates/schemaform/src/engine.rs:4654-4781 | Every transaction, accepted or not, leaves a sound form. |
| `HostTransactions.WhenTransactionsSucceed` | crates/schemaform/src/engine.rs:4654-4730 | A transaction succeeds if and only if its data is an object, every preserved topology fits the new data and names live items once, and all item writes name live items. |
| `HostTransactions.ItemsFollowTheTopology` | crates/schemaform/src/engine.rs:4737-4774 | An accepted transaction gives every array the requested topology, in order; a surviving identity carries its own control states, with at most some buffers cleared, and other items are new. |
| `TransactionAnswers.WhenTransactionsAreAccepted` | crates/schemaform/src/engine.rs:4654-4730 | Accepted are exactly the transactions whose data is an object, whose preserved topologies arrange items of the form, none twice, over the new elements, and whose item writes name items. |
| `TransactionAnswers.TransactedControl` | crates/schemaform/src/engine.rs:4704-4712 | After an accepted transaction a control on its own has neither buffer nor blocker if some write is not apart from its binding, and keeps its edit state if all are. |
| `TransactionAnswers.TransactedItem` | crates/schemaform/src/engine.rs:4713-4774 | A kept item stands where the topology puts it; each of its controls is without input if an item write for it is not apart from the control, and as it was otherwise. |
| `TransactionAnswers.TransactedNewItems` | crates/schemaform/src/engine.rs:4731-4774 | New items are blank and numbered on, array by array, from the next identity. |
| `TransactionAnswers.WritingWhereItChangesIsHonest` | crates/schemaform/src/engine.rs:4704-4712 | A transaction that changes data only at places its writes are not apart from leaves every control on its own honest. |
| `TransactionAnswers.TransactionIsRecorded` | crates/schemaform/src/engine.rs:4731-4781 | Unequal data replaces the old, drops the findings and moves the data revision; the state revision moves exactly when anything changes at all, or some array is replaced, be it empty. |
| `TransactionEffects.ItemWritesClear` | crates/schemaform/src/engine.rs:4713-4730 | The item writes clear the input of exactly those controls that a write before the first dead one hits in the item it names; clearing is never undone. |
| `TransactionEffects.HonestWhenCovered` | crates/schemaform/src/engine.rs:4704-4781 | An accepted transaction keeps every buffer honest if and only if, before the call, every control that shows data through an unblocked buffer is hit by a write, or keeps an equal value: a control on its own in the new data, a control of a kept item in the element at the place the topology gives it. |
| `TransactionExamples.AnUncoveredTransactionMisleads` | crates/schemaform/src/engine.rs:4704-4781 | An uncovered transaction in a reached form: the typed text stays in the buffer, unblocked, while the data no longer holds it. |
| `TransactionEffects.FailedTransactionsOnlyClear` | crates/schemaform/src/engine.rs:4660-4730 | A failing transaction at most clears input. It leaves the form exactly as it was if and only if it is malformed, or its writes and its item writes up to the first dead one meet only controls without buffer and blocker. |
| `TransactionExamples.ADeadItemWriteLeavesATrace` | crates/schemaform/src/engine.rs:4704-4730 | Such a trace in a form reached by typing one text: the failing transaction drops the buffer and nothing else changes, so no revision tells. |
| `HostTransactions.ReplacementSucceeds` | crates/schemaform/src/engine.rs:4620-4652 | New form data is accepted exactly when it is an object. |
| `HostTransactions.ReplaceFormDataIsSound` | crates/schemaform/src/engine.rs:4620-4652 | Replacing the data keeps the form sound and every buffer that is left honest: only items of unchanged arrays keep theirs. |
| `FormLoops.ArrangeItems` | crates/schemaform/src/engine.rs:4752-4774 | The rebuild by topology computes the arrangement; the lookup of an existing identity among the items not yet taken always succeeds. |
| `FormLoops.NextIsFound` | crates/schemaform/src/engine.rs:4756-4764 | Why: validation leaves every identity that is still to come among the items not yet taken. |
| `FormLoops.ReconcileArrays` | crates/schemaform/src/engine.rs:4443-4456 | The loop renews exactly the arrays at or below the written place. |
| `FormSteps.RemoveCarriers` | crates/schemaform/src/engine.rs:3919-3926 | Removing the carriers from both structures, last first, is removing their rows. |
| `FormRuns.StepsAreSound` | crates/schemaform-fuzz-harness/src/runtime.rs:466-609 | Every operation, whether it succeeds or not, keeps items aligned with data, identities distinct and handed out before, and batches current. |
| `FormRuns.StepsAreHonest` | crates/schemaform-fuzz-harness/src/runtime.rs:466-609 | From an honest form, an operation leaves every buffer honest if and only if it is not a transaction that will succeed without covering what it changes. |
| `FormRuns.StepsAreTruthful` | crates/schemaform/src/engine.rs:3934-3937 | A step never lowers a revision, moves the data revision only with the state revision, and leaves equal data under an equal data revision. Where the state revision stays the whole form is the same, if and only if the step is not a well-formed transaction that clears something before it names a dead item. |
| `FormRuns.ReachableFormsAreSound` | crates/schemaform-fuzz-harness/src/runtime.rs:466-609 | Every form reachable from any data by any sequence of operations is sound; it is honest when each of its transactions covered what it changed, which could be checked before it. |
| `FormRuns.RunsAreTruthful` | crates/schemaform/src/engine.rs:4140-4146 | Over any run revisions only grow, and two moments with the same data revision hold semantically equal data. |
| `FormRuns.QuietRunsChangeNothing` | crates/schemaform/src/engine.rs:4144-4146 | Over any run that leaves the state revision alone at most input is cleared, and the whole form is unchanged, data, identities, input and findings, if and only if no transaction of the run failed with a trace. |
| `Identities.StepsKeepIdentities` | crates/schemaform-fuzz-harness/src/runtime.rs:560-609 | No operation but a reset brings an identity back: what is in use afterwards was in use before, in the same array, or is newly handed out. |
| `Identities.RetiredIdentitiesStayRetired` | crates/schemaform-fuzz-harness/src/runtime.rs:560-609 | Over any run without a reset, an identity that is gone stays gone. |
| `Identities.RefusalsChangeNothing` | crates/schemaform-fuzz-harness/src/runtime.rs:547-558 | An operation that answers with an error leaves the whole form as it was, if and only if it is not a well-formed transaction that clears something before it names a dead item; a refused submission, which counts as attempted, is set apart. |
| `Forms.Form.constructor` | crates/schemaform/src/engine.rs:331-375 | The new object is the created form. |
| `Forms.Form.AppendArrayItem` | crates/schemaform/src/engine.rs:3940-3970 | The two structures change as the row operation says; sound and honest forms stay so. |
| `Forms.Form.InsertArrayItemBefore` | crates/schemaform/src/engine.rs:3972-4015 | The same for insertion, with the identities the code reports as shifted. |
| `Forms.Form.RemoveArrayItem` | crates/schemaform/src/engine.rs:4017-4052 | The same for removal. |
| `Forms.Form.MoveArrayItem` | crates/schemaform/src/engine.rs:4070-4116 | The same for moves: both structures are swapped, and the data revision moves unless the values are equal. |
| `Forms.Form.ToggleArrayChoice` | crates/schemaform/src/engine.rs:3849-3938 | The same for toggles: an option is inserted in its place or every carrier removed. |
| `Forms.Form.EditTextWithIntegerDigitLimit` | crates/schemaform/src/engine.rs:4164-4197 | Typing changes the fields as specified. |
| `Forms.Form.SetValue` | crates/schemaform/src/engine.rs:4325-4355 | Setting a value changes the fields as specified. |
| `Forms.Form.Blur` | crates/schemaform/src/engine.rs:4783-4817 | Leaving changes the fields as specified. |
| `Forms.Form.MaterializeStructure` | crates/schemaform/src/engine.rs:4357-4376 | Materialising changes the fields as specified. |
| `Forms.Form.ReplaceStructure` | crates/schemaform/src/engine.rs:4378-4416 | Replacing a structure changes the fields as specified. |
| `Forms.Form.RemoveValue` | crates/schemaform/src/engine.rs:4418-4441 | Removing a value changes the fields as specified. |
| `Forms.Form.ApplyExternalFindings` | crates/schemaform/src/engine.rs:4481-4534 | A report changes the batches as specified. |
| `Forms.Form.Reset` | crates/schemaform/src/engine.rs:4536-4582 | A reset changes the fields as specified and leaves an honest form. |
| `Forms.Form.Reinitialize` | crates/schemaform/src/engine.rs:4584-4618 | A new baseline changes the fields as specified. |
| `Forms.Form.ReplaceFormData` | crates/schemaform/src/engine.rs:4620-4652 | New data changes the fields as specified. |
| `Forms.Form.ApplyHostTransaction` | crates/schemaform/src/engine.rs:4654-4781 | A transaction changes the fields as specified, also when it fails; an honest form stays honest if and only if an accepted transaction covers what it changes, a condition on the form and the request before the call. |
| `Forms.Form.PrepareSubmission` | crates/schemaform/src/engine.rs:4848-4918 | Submitting changes the fields as specified and returns the snapshot or the blockers. |
| `Forms.Form.MarkStateChanged` | crates/schemaform/src/engine.rs:4152-4154 | Only the state revision moves. |

## Left out

- ReferenceExpansion.ExpandReferences: does not model the final sort of the expanded schemas by location, nor
  `$dynamicRef` (`engine.rs:1415-1420`), which adds no schema to the expansion but may fail to resolve and collects the
  resources behind its target; what is proved about success holds for schemas without that keyword.
- ScalarOptions.CompileScalarChoices: gives a finding as its fault and the schema to blame, without the location text and
  the parameters of the finding.
- Forms.Form.PrepareSubmission: the snapshot has no definition fingerprint, which is a constant of the definition.
- Forms.Form.ApplyHostTransaction: keeps buffers honest only for transactions that cover what they change, because the
  code leaves that to its caller; the condition is exact.
- ReferenceCycles.EnclosedStaysSettled: the projection that calls one expansion after the other is not modelled, so that
  every call meets the condition is proved one step at a time and not over the whole projection.
- `check_schema_source`, `check_compilation_inputs`, `graph_metrics` and the limits on compilation outputs
  (`limits.rs:888-1242`): they compare sums with limits and would add only easy members.
- SHA-256 itself, the fingerprint of a compiled definition and the order-insensitive hashing of schemas
  (`engine.rs:5463-5691`).
- Resource loading, URI resolution and normalisation of locations: `crate::resources` and `referencing` are not part of
  this model; the graph is a parameter.
- Parsing by `serde_json`: the grammar of RFC 8259 takes its place, with its texts as syntax trees.
- The projection of schemas into controls, capability findings, titles, help and other annotations
  (`engine.rs:44-1012`, `engine.rs:1044-1331`, `engine.rs:1532-2440`); an option keeps its title and description.
- The prospective variants of operations and the read-only views (`engine.rs:3721-3847`, `engine.rs:4199-4246`), and the
  seeding of a single declared default (`engine.rs:5420-5433`).
- Fixed-width wrap-around of revisions and identities, which would need 2^64 operations.
- The public layer of `lib.rs` and `form.rs`, the validator, the UI schema compiler, and everything that renders:
  `schemaform-dioxus`, `demo`.
