# Vogen core, modelled in Dafny

Vogen is a C# source generator. A type that carries its value-object attribute gets a
generated `struct` that wraps one primitive value. The struct can only be built through
a validating factory, and reading an uninitialized one throws. This project models
three parts of Vogen and proves properties about them:

- **The EF Core misuse analyzer** (`DoNotCompareWithPrimitivesInEfCoreAnalyzer`,
  `analyzer.dfy`, module `EfCoreComparisonAnalyzer`). The analyzer looks at
  Entity Framework Core queries over a `DbSet<T>`, in both method syntax
  (`Where`, `Single`, `SkipWhile`, `TakeWhile`, `Select`) and query syntax. It reports
  every binary expression whose left operand is a value object and whose right operand
  is an `int`.
  - The compiler's syntax tree and semantic model are abstract inputs: the symbol a
    receiver resolves to, the types of a binary expression's operands (possibly
    unresolved), and each argument's or where clause's binary expressions in document
    order.
  - The analysis context is a class whose `reported` sequence the callbacks append to.
  - `InheritsFrom` and the two callbacks are methods with loops, and
    `IsAMemberOfDbSet` is a straight-line method. Each is proved against a
    specification function (`DerivesFrom`, `ReceiverIsDbSet`, `InvocationFindings`,
    `QueryFindings`), and the properties are proved about those functions.
- **The struct assembler** (`StructGenerator.BuildClass`, `struct_generator.dfy`,
  module `StructGenerator`). `BuildClass` is one interpolated string.
  - The model keeps its structure: the attributes, the interface list, the members in
    declaration order, and the block after the closing brace.
  - Text interpolated from other generators is an opaque fragment per helper.
  - The member order is a constant layout of slots. `BuildClass` fills it from the
    work item and the fragments.
- **The emitted struct's behaviour** (`value_object.dfy`, module `ValueObjectRuntime`):
  - the two fields and the two constructors;
  - `From` and `__Deserialize`;
  - the `Value` getter guarded by `EnsureInitialized`;
  - `==` and `!=`.

  Normalisation and the two validations come from helpers outside the model, so they
  are parameters. The two-field representation is related to a tagged
  `Uninitialized | Valid(v)` view.
- **The type-converter conversion** (`GenerateTypeConverterConversions`,
  `type_converter.dfy`, module `TypeConverterConversions`). It covers:
  - the gate on the `TypeConverter` flag;
  - the template lookup (the specific-type template first, then the any-type
    template);
  - the two sequential `Replace` calls;
  - the `#nullable` wrapping.

  The template store is a partial map for specific types plus a total map for the
  any-type templates. .NET's ordinal `String.Replace(string, string)` is modelled in
  `text.dfy` (module `Text`) as a left-to-right scan. It is proved equal to cutting the
  text at the occurrences (`Split`) and gluing the pieces with the replacement
  (`Join`). The cut is characterised on its own: gluing the pieces back with the
  pattern rebuilds the text (`JoinSplitRoundTrip`), and no piece contains the pattern
  (`SplitPiecesFree`).

`wrappers.dfy` holds the `Option` type the other modules share.

The model follows the code on three points:
- Every binary expression under a lambda or a where clause is inspected, not only
  comparisons. The operator plays no part in the decision (`OperandOrderMatters`).
- The receiver passes the `DbSet` check only when it resolves to a property or a local
  whose type derives from ``DbSet`1``. A field, a parameter or a call result whose
  static type is a `DbSet` does not pass (`ReceiverKinds`).
- The base-type walk in `InheritsFrom` has no iteration cap. Here it ends because a
  type's base-type chain is an inductive value, so it is finite and acyclic.

## Model

| member | source | states |
|---|---|---|
| `EfCoreComparisonAnalyzer.InheritsFrom` | src/Vogen/Rules/DoNotCompareWithPrimitivesInEfCoreAnalyzer.cs:154-172 | the walk up `BaseType` returns true exactly when the base type is given and some type on the chain `t`, `t.BaseType`, … has it as original definition; false when the base type is null |
| `EfCoreComparisonAnalyzer.DerivesFromStep` | src/Vogen/Rules/DoNotCompareWithPrimitivesInEfCoreAnalyzer.cs:161-168 | one loop step: a type derives from `b` iff it is `b` or its base type derives from `b` |
| `EfCoreComparisonAnalyzer.ChainOfAncestor` | src/Vogen/Rules/DoNotCompareWithPrimitivesInEfCoreAnalyzer.cs:161-169 | the chain walked from an ancestor is the tail of the chain walked from the type |
| `EfCoreComparisonAnalyzer.DerivesThroughAncestor` | src/Vogen/Rules/DoNotCompareWithPrimitivesInEfCoreAnalyzer.cs:154-172 | whatever an ancestor derives from, the type derives from too |
| `EfCoreComparisonAnalyzer.DerivesFromNothing` | src/Vogen/Rules/DoNotCompareWithPrimitivesInEfCoreAnalyzer.cs:156-171 | a null base type, or a null type, gives false |
| `EfCoreComparisonAnalyzer.IsAMemberOfDbSet` | src/Vogen/Rules/DoNotCompareWithPrimitivesInEfCoreAnalyzer.cs:119-148 | true exactly when the receiver resolves to a property or a local whose type derives from the compilation's ``DbSet`1`` |
| `EfCoreComparisonAnalyzer.ReceiverKinds` | src/Vogen/Rules/DoNotCompareWithPrimitivesInEfCoreAnalyzer.cs:121-145 | an unresolved receiver, any other symbol kind, or a compilation without ``DbSet`1`` never passes the receiver check |
| `EfCoreComparisonAnalyzer.AnalysisContext.ReportDiagnostic` | src/Vogen/Rules/DoNotCompareWithPrimitivesInEfCoreAnalyzer.cs:79-80 | reporting appends one finding to the reported diagnostics |
| `EfCoreComparisonAnalyzer.ReportFlaggedComparisons` | src/Vogen/Rules/DoNotCompareWithPrimitivesInEfCoreAnalyzer.cs:66-82 | the inner loop appends, in order, one finding per binary expression whose operand types both resolve, left a value object and right `Int32`, and nothing else |
| `EfCoreComparisonAnalyzer.AnalyzeInvocation` | src/Vogen/Rules/DoNotCompareWithPrimitivesInEfCoreAnalyzer.cs:43-84 | the callback appends exactly the findings of the call's lambda arguments, and only for a member access named in `_knownNames` on a `DbSet` receiver |
| `EfCoreComparisonAnalyzer.AnalyzeQueryExpression` | src/Vogen/Rules/DoNotCompareWithPrimitivesInEfCoreAnalyzer.cs:86-117 | the callback appends exactly the findings of the where clauses, and only when the from-clause source passes the `DbSet` check |
| `EfCoreComparisonAnalyzer.InvocationGates` | src/Vogen/Rules/DoNotCompareWithPrimitivesInEfCoreAnalyzer.cs:46-61 | a callee that is not a member access reports nothing; any finding implies a known name and a `DbSet` receiver |
| `EfCoreComparisonAnalyzer.NonLambdaArgumentIgnored` | src/Vogen/Rules/DoNotCompareWithPrimitivesInEfCoreAnalyzer.cs:63-64 | inserting a non-lambda argument anywhere leaves the findings unchanged |
| `EfCoreComparisonAnalyzer.LambdaFindingsExactly` | src/Vogen/Rules/DoNotCompareWithPrimitivesInEfCoreAnalyzer.cs:63-83 | a finding is reported iff it names the left type and location of a flagged binary expression inside some lambda argument |
| `EfCoreComparisonAnalyzer.ScanBinariesExactly` | src/Vogen/Rules/DoNotCompareWithPrimitivesInEfCoreAnalyzer.cs:66-82 | a finding is produced iff some binary expression is flagged and the finding carries its left type's name and its location |
| `EfCoreComparisonAnalyzer.ScanBinariesBound` | src/Vogen/Rules/DoNotCompareWithPrimitivesInEfCoreAnalyzer.cs:66-82 | at most one finding per binary expression |
| `EfCoreComparisonAnalyzer.ScanBinariesAppend` | src/Vogen/Rules/DoNotCompareWithPrimitivesInEfCoreAnalyzer.cs:66-82 | scanning two runs of binary expressions gives the two runs' findings, in order |
| `EfCoreComparisonAnalyzer.LambdaFindingsAppend` | src/Vogen/Rules/DoNotCompareWithPrimitivesInEfCoreAnalyzer.cs:63-83 | argument lists are processed argument by argument, in order |
| `EfCoreComparisonAnalyzer.RepeatedComparisonsReportedTwice` | src/Vogen/Rules/DoNotCompareWithPrimitivesInEfCoreAnalyzer.cs:79-80 | findings are not deduplicated: the same expressions twice give twice the findings |
| `EfCoreComparisonAnalyzer.WhereFindingsExactly` | src/Vogen/Rules/DoNotCompareWithPrimitivesInEfCoreAnalyzer.cs:97-116 | a finding comes from a flagged binary expression in some where clause, and every such expression gives one |
| `EfCoreComparisonAnalyzer.QueryFindingsExactly` | src/Vogen/Rules/DoNotCompareWithPrimitivesInEfCoreAnalyzer.cs:86-117 | a query reports a finding iff its source passes the `DbSet` check and the finding comes from a flagged binary expression of a where clause |
| `EfCoreComparisonAnalyzer.OperandOrderMatters` | src/Vogen/Rules/DoNotCompareWithPrimitivesInEfCoreAnalyzer.cs:76-78 | a resolved left operand that is not a value object is never flagged (so `5 == id` is not), and the operator does not matter |
| `EfCoreComparisonAnalyzer.ValueObjectOnBothSidesNotFlagged` | src/Vogen/Rules/DoNotCompareWithPrimitivesInEfCoreAnalyzer.cs:77 | a right operand that is not `Int32` gives no finding |
| `EfCoreComparisonAnalyzer.MessageNamesValueObject` | src/Vogen/Rules/DoNotCompareWithPrimitivesInEfCoreAnalyzer.cs:23 | the message's single argument is the value object's name and can be read back from it |
| `EfCoreComparisonAnalyzer.MessageInjective` | src/Vogen/Rules/DoNotCompareWithPrimitivesInEfCoreAnalyzer.cs:23 | equal messages name the same value object |
| `EfCoreComparisonAnalyzer.ScenarioValueObjectComparedToInt` | src/Vogen/Rules/DoNotCompareWithPrimitivesInEfCoreAnalyzer.cs:14-15 | `Where(c => c.Id == 5)` on a `DbSet` property reports one finding naming `CustomerId` |
| `EfCoreComparisonAnalyzer.ScenarioSwappedOperands` | src/Vogen/Rules/DoNotCompareWithPrimitivesInEfCoreAnalyzer.cs:77 | `Where(c => 5 == c.Id)` reports nothing |
| `EfCoreComparisonAnalyzer.ScenarioPlainList` | src/Vogen/Rules/DoNotCompareWithPrimitivesInEfCoreAnalyzer.cs:147 | the same lambda on a local `List<T>` reports nothing |
| `StructGenerator.InterfaceOrder` | src/Vogen/Generators/StructGenerator.cs:22 | the interface list is `IEquatable<self>`, `IEquatable<underlying>`, then the comparable, parsable and static-abstract headers in that order; with none enabled, just the two |
| `StructGenerator.FixedMembersOnceInOrder` | src/Vogen/Generators/StructGenerator.cs:24-128 | whatever the configuration, the struct's own members are the two fields, `Value`, the two constructors, `From`, `__Deserialize`, `==`, `!=` and `EnsureInitialized`, each exactly once, in that order |
| `StructGenerator.RealizeKeepsFixedSlots` | src/Vogen/Generators/StructGenerator.cs:24-128 | filling a layout keeps its own members in order and adds none |
| `StructGenerator.LayoutFixedSlots` | src/Vogen/Generators/StructGenerator.cs:24-128 | the layout's own members are the ten listed above, in declaration order |
| `StructGenerator.RealizeFragments` | src/Vogen/Generators/StructGenerator.cs:24-128 | a helper's output appears iff the layout has a slot for it, or it is `IsInitialized()` with a slot and `Generate` |
| `StructGenerator.IsInitializedMethodIffGenerate` | src/Vogen/Generators/StructGenerator.cs:81 | the `IsInitialized()` method is emitted iff `IsInitializedMethodGeneration` is `Generate` |
| `StructGenerator.EveryHelperHasASlot` | src/Vogen/Generators/StructGenerator.cs:24-128 | every helper other than `IsInitialized()` has a place in the struct body |
| `StructGenerator.EveryHelperEmitted` | src/Vogen/Generators/StructGenerator.cs:24-128 | whatever the configuration, the output of every other helper is in the struct body |
| `StructGenerator.HelperOutputVerbatim` | src/Vogen/Generators/StructGenerator.cs:24-128 | the helpers' output is placed unchanged |
| `StructGenerator.RealizeKeepsFragmentText` | src/Vogen/Generators/StructGenerator.cs:24-128 | filling any layout places each helper's output unchanged |
| `StructGenerator.EfCoreBlockOutsideTheType` | src/Vogen/Generators/StructGenerator.cs:130-131 | the EF Core extension block follows the struct's closing brace, not among its members; the uninitialized guard throws the configured exception type |
| `StructGenerator.EmittedGuardThrowsConfiguredException` | src/Vogen/Generators/StructGenerator.cs:110-122 | reading `Value` on a default-constructed instance of the built struct throws the work item's `ValidationExceptionFullName` |
| `ValueObjectRuntime.DefaultConstructorIsUninitialized` | src/Vogen/Generators/StructGenerator.cs:46-54 | the parameterless constructor gives the uninitialized sentinel, and reading `Value` on it throws the configured exception, with "Use of uninitialized Value Object." outside DEBUG builds |
| `ValueObjectRuntime.ValueConstructorIsInitialized` | src/Vogen/Generators/StructGenerator.cs:57-61 | the private constructor gives an initialized instance whose `Value` is its argument |
| `ValueObjectRuntime.FromPipeline` | src/Vogen/Generators/StructGenerator.cs:68-77 | `From` returns iff validation accepts the normalised value, and then `Value` is the normalised value; a rejecting validation's exception propagates |
| `ValueObjectRuntime.DeserializePipeline` | src/Vogen/Generators/StructGenerator.cs:88-95 | `__Deserialize` normalises the same way, returns iff the deserialization validation accepts, and its `Value` is the normalised value |
| `ValueObjectRuntime.DeserializeDiffersOnlyInValidation` | src/Vogen/Generators/StructGenerator.cs:68-95 | when the two validations agree on a value, `__Deserialize` and `From` agree on it |
| `ValueObjectRuntime.DeserializeMatchesFromOfNormalized` | src/Vogen/Generators/StructGenerator.cs:68-95 | with an idempotent normalisation and both validations accepting, deserializing equals `From` of the normalised value |
| `ValueObjectRuntime.FromEqualIffNormalizedEqual` | src/Vogen/Generators/StructGenerator.cs:68-77 | two accepted inputs give equal instances iff they normalise to the same value |
| `ValueObjectRuntime.FactoriesProduceReachableInstances` | src/Vogen/Generators/StructGenerator.cs:46-95 | the constructors and factories give only initialized instances or the default sentinel |
| `ValueObjectRuntime.FieldsRefineTaggedState` | src/Vogen/Generators/StructGenerator.cs:26-41 | `Value` throws exactly on the uninitialized state and returns exactly the held value otherwise; on reachable instances the tagged view loses nothing |
| `ValueObjectRuntime.InequalityIsNegatedEquality` | src/Vogen/Generators/StructGenerator.cs:98-99 | `!=` negates `==`, which delegates to `Equals`; with a reflexive, symmetric `Equals`, `!=` is irreflexive and symmetric |
| `TypeConverterConversions.GenerateAnyAttributes` | src/Vogen/Generators/Conversions/GenerateTypeConverterConversions.cs:7-15 | empty iff the `TypeConverter` flag is unset; otherwise exactly `[global::System.ComponentModel.TypeConverter(typeof(` + the type name + `TypeConverter))]` |
| `TypeConverterConversions.GenerateAnyBody` | src/Vogen/Generators/Conversions/GenerateTypeConverterConversions.cs:17-35 | empty iff the `TypeConverter` flag is unset |
| `TypeConverterConversions.NoFlagNoOutput` | src/Vogen/Generators/Conversions/GenerateTypeConverterConversions.cs:9-22 | without the flag both the attribute and the body are empty, whatever the other conversions are |
| `TypeConverterConversions.TemplateLookupOrder` | src/Vogen/Generators/Conversions/GenerateTypeConverterConversions.cs:24-25 | the specific-type template is used whenever one exists, even an empty one; the any-type template only when none exists |
| `TypeConverterConversions.SubstituteWithoutPlaceholders` | src/Vogen/Generators/Conversions/GenerateTypeConverterConversions.cs:27-28 | a template with neither placeholder passes through unchanged |
| `TypeConverterConversions.SubstituteIsSequentialSplitJoin` | src/Vogen/Generators/Conversions/GenerateTypeConverterConversions.cs:27-28 | the substitution cuts at `VOTYPE` and glues with the type name, then cuts the result at `VOUNDERLYINGTYPE` and glues with the underlying type's full name |
| `TypeConverterConversions.SubstitutionIsSequential` | src/Vogen/Generators/Conversions/GenerateTypeConverterConversions.cs:27-28 | the second replacement also rewrites a `VOUNDERLYINGTYPE` that the first introduced |
| `TypeConverterConversions.DirectivesOnTheirOwnLines` | src/Vogen/Generators/Conversions/GenerateTypeConverterConversions.cs:30-34 | whatever the template holds, the body's first line is exactly `#nullable disable` and its last line exactly `#nullable restore` |
| `TypeConverterConversions.BodyIsWrappedTemplate` | src/Vogen/Generators/Conversions/GenerateTypeConverterConversions.cs:24-34 | with the flag set, the body is the selected, substituted template between the two `#nullable` lines |
| `Text.Split` | src/Vogen/Generators/Conversions/GenerateTypeConverterConversions.cs:27 | cutting a text at a pattern gives at least one piece |
| `Text.ReplaceAllIsJoinOfSplit` | src/Vogen/Generators/Conversions/GenerateTypeConverterConversions.cs:27 | the left-to-right replacement equals cutting at the occurrences and gluing with the replacement |
| `Text.JoinSplitRoundTrip` | src/Vogen/Generators/Conversions/GenerateTypeConverterConversions.cs:27 | gluing the pieces back with the pattern gives the original text |
| `Text.ReplaceWithItself` | src/Vogen/Generators/Conversions/GenerateTypeConverterConversions.cs:27 | replacing a pattern by itself changes nothing |
| `Text.SplitFirstIsPrefix` | src/Vogen/Generators/Conversions/GenerateTypeConverterConversions.cs:27 | the first piece is a prefix of the text |
| `Text.SplitPiecesFree` | src/Vogen/Generators/Conversions/GenerateTypeConverterConversions.cs:27 | no piece contains the pattern, so every occurrence the scan finds is replaced |
| `Text.SplitAbsent` | src/Vogen/Generators/Conversions/GenerateTypeConverterConversions.cs:27 | a text without the pattern is a single piece |
| `Text.ReplaceAbsent` | src/Vogen/Generators/Conversions/GenerateTypeConverterConversions.cs:27-28 | a text without the pattern is unchanged by replacement |
| `Text.SplitFirstLine` | src/Vogen/Generators/Conversions/GenerateTypeConverterConversions.cs:30-34 | cut at a one-character separator, a leading separator-free line is the first piece |
| `Text.SplitLastLine` | src/Vogen/Generators/Conversions/GenerateTypeConverterConversions.cs:30-34 | cut at a one-character separator, a trailing separator-free line is the last of at least two pieces |
| `Text.ReplaceLeadingOccurrence` | src/Vogen/Generators/Conversions/GenerateTypeConverterConversions.cs:27-28 | an occurrence at the start is replaced and the scan resumes after it |

## Left out

- Roslyn machinery is not modelled: `GetTypeInfo`, `GetSymbolInfo`, `GetTypeByMetadataName`, `DescendantNodes` and the `DiagnosticDescriptor` metadata (id, title, category, severity, description). The model takes their answers as inputs and produces a sequence of findings.
- Analyzer registration (`Initialize`, `ConfigureGeneratedCodeAnalysis`, `EnableConcurrentExecution`) is left out. The callbacks share no state, so concurrency does not affect what they report.
- `VoFilter.IsTarget` is not part of this model. It is an opaque per-type marker (`isVoTarget`).
- `InheritsFrom`: base-type chains are finite by construction. A cyclic chain, which would make the source loop forever, cannot be expressed.
- The text of every helper `BuildClass` interpolates is not part of this model. Each is an opaque fragment:
  - `Util.*` and `DebugGeneration.*`;
  - the equality, comparable, parse, try-parse, hash, casting and string-comparer generators;
  - `GenerateCodeForTryFrom`;
  - `InstanceGeneration`;
  - `GenerateEfCoreExtensions`;
  - the static-constructor and debugger-proxy generators.
- `TryFrom`'s behaviour lives in `GenerateCodeForTryFrom`, so none of its properties are covered.
- `StructGenerator.BuildClass` models the order and containment of the generated parts, not byte-exact text. Left out:
  - whitespace, indentation and raw-string indentation stripping;
  - the `using Vogen;` line;
  - the doc comments;
  - the `DebuggerStepThrough`, `EditorBrowsable` and `GeneratedCode` attribute arguments (assembly name and version).
- The member bodies' C# text is not modelled. The behaviour the bodies implement is modelled in `ValueObjectRuntime`.
- `ValueObjectRuntime`: the DEBUG-only stack-trace capture in the parameterless constructor is left out. The DEBUG message of `EnsureInitialized` comes from `DebugGeneration`, so it is a parameter.
- `ValueObjectRuntime`: normalisation, both validations and `Equals` are produced by helpers outside the model, so they are parameters. "No normalisation" and "no validation" are the identity and an always-accepting validation.
- `TypeConverterConversions`: the template store's contents are not modelled. Neither are the values of the `Conversions` flags enumeration; the flags are a set of conversion kinds.
- `TypeConverterConversions.WrapNullable`: the raw string literal's line ending is taken to be `\n`.
- `StructGenerator.BuildClass`: the namespace lines come from `Util.WriteStartNamespace` and `Util.WriteCloseNamespace` applied to the work item's namespace; they are opaque fragments, so the namespace itself is not part of the work item here.
- `tests/Testbench/Program.cs` is not part of this model. It is a demo entry point whose database scenario is I/O.
