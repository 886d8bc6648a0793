/**
  `StructGenerator.BuildClass`: the assembler that turns one value-object declaration
  into the source of a `struct`. The source builds one interpolated string; the model
  keeps its structure (attributes, the interface list, the members in order, and what
  follows the type's closing brace) and treats the text produced by the helpers it
  interpolates as opaque fragments.
  Source: src/Vogen/Generators/StructGenerator.cs.
 */
module StructGenerator {
  import ValueObjectRuntime

  datatype IsInitializedMethodGeneration = Generate | Omit

  /** The parts of a work item `BuildClass` reads. */
  datatype WorkItem = WorkItem(
    underlyingTypeFullName: string,
    isInitializedMethodGeneration: IsInitializedMethodGeneration,
    validationExceptionFullName: string)

  /** The parts of the type declaration `BuildClass` reads. */
  datatype Declaration = Declaration(identifier: string, modifiers: string)

  /** The helpers whose output `BuildClass` interpolates without looking at it. */
  datatype FragmentKind =
    | StackTraceField | StaticConstructor | TryFrom | IsInitializedMethod | StringComparers
    | CastingOperators | GuidFactory | EqualsMethods | PrimitiveEqualityOperators
    | ComparableImplementation | TryParseMethods | ParseMethods | HashCode | ToStringMethod
    | Instances | ConversionBodies | DebuggerProxy

  /** The text each helper produced for this declaration (possibly empty). */
  datatype Fragments = Fragments(
    namespaceStart: string,              // `Util.WriteStartNamespace(item.FullNamespace)`
    namespaceEnd: string,                // `Util.WriteCloseNamespace(item.FullNamespace)`
    conversionAttributes: string,
    debugAttributes: string,
    comparableHeader: seq<string>,       // interfaces added when comparison is enabled
    parsableHeader: seq<string>,         // interfaces added when parsing is enabled
    staticAbstractsHeader: seq<string>,  // interfaces added when static abstracts are enabled
    text: FragmentKind -> string,
    efCoreExtensions: string)

  /** The members every emitted struct has, whatever the configuration. */
  datatype FixedKind =
    | InitializedField     // the `_isInitialized` flag
    | ValueField           // the `_value` field, of the underlying type
    | ValueProperty        // the guarded `Value` getter
    | DefaultConstructor   // the public parameterless constructor: the uninitialized sentinel
    | ValueConstructor     // the private one-argument constructor: the initialized state
    | FromFactory          // `From`: normalise, validate, construct
    | DeserializeFactory   // `__Deserialize`: normalise, validate for deserializing, construct
    | EqualityOperator     // `==`, delegating to `Equals`
    | InequalityOperator   // `!=`, the negation of `==`
    | EnsureInitialized    // throws the configured validation exception when uninitialized

  /** A member of the emitted struct: one of the fixed members, or a helper's output in place. */
  datatype Member = Fixed(fixedKind: FixedKind) | Fragment(kind: FragmentKind, text: string)

  /** A place in the struct body: a fixed member, a helper's output, or a helper's output under a condition. */
  datatype Slot =
    | FixedSlot(fixedKind: FixedKind)
    | FragmentSlot(kind: FragmentKind)
    | IsInitializedSlot   // emitted only when `IsInitializedMethodGeneration == Generate`

  /** The struct body, in the order of the interpolated string, in four stretches. */
  const Layout: seq<Slot> := StateSlots + FactorySlots + EqualitySlots + TrailingSlots

  /** The stack-trace field, the two fields, `Value`, the static constructor and the two constructors. */
  const StateSlots: seq<Slot> := [
    FragmentSlot(StackTraceField),
    FixedSlot(InitializedField),
    FixedSlot(ValueField),
    FixedSlot(ValueProperty),
    FragmentSlot(StaticConstructor),
    FixedSlot(DefaultConstructor),
    FixedSlot(ValueConstructor)
  ]

  /** `From`, `TryFrom`, `IsInitialized()`, comparers, casts, the Guid factory and `__Deserialize`. */
  const FactorySlots: seq<Slot> := [
    FixedSlot(FromFactory),
    FragmentSlot(TryFrom),
    IsInitializedSlot,
    FragmentSlot(StringComparers),
    FragmentSlot(CastingOperators),
    FragmentSlot(GuidFactory),
    FixedSlot(DeserializeFactory)
  ]

  /** `Equals`, `==`, `!=`, the primitive operators and the comparable implementation. */
  const EqualitySlots: seq<Slot> := [
    FragmentSlot(EqualsMethods),
    FixedSlot(EqualityOperator),
    FixedSlot(InequalityOperator),
    FragmentSlot(PrimitiveEqualityOperators),
    FragmentSlot(ComparableImplementation)
  ]

  /** Parsing, hashing, `ToString`, `EnsureInitialized`, instances, conversions and the debugger proxy. */
  const TrailingSlots: seq<Slot> := [
    FragmentSlot(TryParseMethods),
    FragmentSlot(ParseMethods),
    FragmentSlot(HashCode),
    FragmentSlot(ToStringMethod),
    FixedSlot(EnsureInitialized),
    FragmentSlot(Instances),
    FragmentSlot(ConversionBodies),
    FragmentSlot(DebuggerProxy)
  ]

  /** The emitted compilation unit. */
  datatype StructUnit = StructUnit(
    namespaceStart: string,
    attributes: seq<string>,
    modifiers: string,
    name: string,
    interfaces: seq<string>,
    underlyingType: string,        // the type of `_value`, `Value` and the factories' parameter
    exceptionType: string,         // what `EnsureInitialized` throws
    members: seq<Member>,
    afterType: string,             // text after the struct's closing brace
    namespaceEnd: string)

  function Equatable(t: string): string
  {
    "global::System.IEquatable<" + t + ">"
  }

  const ExcludeFromCodeCoverage: string := "[global::System.Diagnostics.CodeAnalysis.ExcludeFromCodeCoverage]"
  const GeneratedCode: string := "[global::System.CodeDom.Compiler.GeneratedCodeAttribute]"

  /** The members one slot stands for: none, when it is a switched-off `IsInitialized()`. */
  function SlotMembers(slot: Slot, item: WorkItem, f: Fragments): seq<Member>
  {
    match slot
    case FixedSlot(k) => [Fixed(k)]
    case FragmentSlot(k) => [Fragment(k, f.text(k))]
    case IsInitializedSlot =>
      if item.isInitializedMethodGeneration == Generate then [Fragment(IsInitializedMethod, f.text(IsInitializedMethod))]
      else []
  }

  /** Fill the slots of a layout with the members they stand for. */
  function Realize(layout: seq<Slot>, item: WorkItem, f: Fragments): seq<Member>
    decreases |layout|
  {
    if layout == [] then [] else SlotMembers(layout[0], item, f) + Realize(layout[1..], item, f)
  }

  /** `BuildClass`: the compilation unit for one value-object struct declaration. */
  function BuildClass(item: WorkItem, tds: Declaration, f: Fragments): StructUnit
  {
    var name := tds.identifier;
    var u := item.underlyingTypeFullName;
    StructUnit(
      f.namespaceStart,
      [ExcludeFromCodeCoverage, GeneratedCode, f.conversionAttributes, f.debugAttributes],
      tds.modifiers,
      name,
      [Equatable(name), Equatable(u)] + f.comparableHeader + f.parsableHeader + f.staticAbstractsHeader,
      u,
      item.validationExceptionFullName,
      Realize(Layout, item, f),
      f.efCoreExtensions,
      f.namespaceEnd)
  }

  /**
    The interface list starts with `IEquatable<self>` and `IEquatable<underlying>`;
    then come the comparable, parsable and static-abstract headers, in that order; a
    disabled feature contributes nothing.
   */
  lemma InterfaceOrder(item: WorkItem, tds: Declaration, f: Fragments)
    ensures var ifs := BuildClass(item, tds, f).interfaces;
      && |ifs| == 2 + |f.comparableHeader| + |f.parsableHeader| + |f.staticAbstractsHeader|
      && ifs[0] == Equatable(tds.identifier)
      && ifs[1] == Equatable(item.underlyingTypeFullName)
      && ifs[2..2 + |f.comparableHeader|] == f.comparableHeader
      && ifs[2 + |f.comparableHeader|..2 + |f.comparableHeader| + |f.parsableHeader|] == f.parsableHeader
      && ifs[2 + |f.comparableHeader| + |f.parsableHeader|..] == f.staticAbstractsHeader
    ensures f.comparableHeader == [] && f.parsableHeader == [] && f.staticAbstractsHeader == [] ==>
      BuildClass(item, tds, f).interfaces == [Equatable(tds.identifier), Equatable(item.underlyingTypeFullName)]
  {
    var ifs := BuildClass(item, tds, f).interfaces;
    assert ifs == [Equatable(tds.identifier), Equatable(item.underlyingTypeFullName)]
                 + f.comparableHeader + f.parsableHeader + f.staticAbstractsHeader;
  }

  /** The fixed members of a member list, in order. */
  function FixedMembersOf(ms: seq<Member>): seq<FixedKind>
    decreases |ms|
  {
    if ms == [] then [] else (if ms[0].Fixed? then [ms[0].fixedKind] else []) + FixedMembersOf(ms[1..])
  }

  /** The fixed slots of a layout, in order. */
  function FixedSlotsOf(layout: seq<Slot>): seq<FixedKind>
    decreases |layout|
  {
    if layout == [] then [] else (if layout[0].FixedSlot? then [layout[0].fixedKind] else []) + FixedSlotsOf(layout[1..])
  }

  lemma {:induction false} FixedMembersOfAppend(a: seq<Member>, b: seq<Member>)
    ensures FixedMembersOf(a + b) == FixedMembersOf(a) + FixedMembersOf(b)
    decreases |a|
  {
    if a != [] {
      var head := if a[0].Fixed? then [a[0].fixedKind] else [];
      assert (a + b)[0] == a[0];
      assert (a + b)[1..] == a[1..] + b;
      FixedMembersOfAppend(a[1..], b);
      assert FixedMembersOf(a + b) == head + (FixedMembersOf(a[1..]) + FixedMembersOf(b));
      assert head + (FixedMembersOf(a[1..]) + FixedMembersOf(b)) == (head + FixedMembersOf(a[1..])) + FixedMembersOf(b);
    } else {
      assert a + b == b;
    }
  }

  lemma {:induction false} FixedSlotsOfAppend(a: seq<Slot>, b: seq<Slot>)
    ensures FixedSlotsOf(a + b) == FixedSlotsOf(a) + FixedSlotsOf(b)
    decreases |a|
  {
    if a != [] {
      var head := if a[0].FixedSlot? then [a[0].fixedKind] else [];
      assert (a + b)[0] == a[0];
      assert (a + b)[1..] == a[1..] + b;
      FixedSlotsOfAppend(a[1..], b);
      assert FixedSlotsOf(a + b) == head + (FixedSlotsOf(a[1..]) + FixedSlotsOf(b));
      assert head + (FixedSlotsOf(a[1..]) + FixedSlotsOf(b)) == (head + FixedSlotsOf(a[1..])) + FixedSlotsOf(b);
    } else {
      assert a + b == b;
    }
  }

  /** Realizing a layout keeps its fixed slots, in order, and adds no other fixed member. */
  lemma {:induction false} RealizeKeepsFixedSlots(layout: seq<Slot>, item: WorkItem, f: Fragments)
    ensures FixedMembersOf(Realize(layout, item, f)) == FixedSlotsOf(layout)
    decreases |layout|
  {
    if layout != [] {
      var rest := Realize(layout[1..], item, f);
      var here := SlotMembers(layout[0], item, f);
      FixedMembersOfAppend(here, rest);
      RealizeKeepsFixedSlots(layout[1..], item, f);
      if here != [] {
        assert here[1..] == [];
      }
    }
  }

  /** The fixed members, in the order the struct body declares them. */
  const FixedOrder: seq<FixedKind> := [
    InitializedField, ValueField, ValueProperty, DefaultConstructor, ValueConstructor,
    FromFactory, DeserializeFactory, EqualityOperator, InequalityOperator, EnsureInitialized ]

  /**
    The fixed members of every emitted struct, whatever the configuration and the
    helpers' output, are exactly these, each once, in this order: the two fields,
    `Value`, the two constructors, `From`, `__Deserialize`, `==`, `!=`,
    `EnsureInitialized`.
   */
  lemma FixedMembersOnceInOrder(item: WorkItem, tds: Declaration, f: Fragments)
    ensures FixedMembersOf(BuildClass(item, tds, f).members) == FixedOrder
    ensures forall i, j :: 0 <= i < j < |FixedOrder| ==> FixedOrder[i] != FixedOrder[j]
  {
    RealizeKeepsFixedSlots(Layout, item, f);
    LayoutFixedSlots();
  }

  lemma LayoutFixedSlots()
    ensures FixedSlotsOf(Layout) == FixedOrder
  {
    FixedSlotsOfAppend(StateSlots, FactorySlots);
    FixedSlotsOfAppend(StateSlots + FactorySlots, EqualitySlots);
    FixedSlotsOfAppend(StateSlots + FactorySlots + EqualitySlots, TrailingSlots);
    StateFixedSlots();
    FactoryFixedSlots();
    EqualityFixedSlots();
    TrailingFixedSlots();
  }

  lemma StateFixedSlots()
    ensures FixedSlotsOf(StateSlots) == [InitializedField, ValueField, ValueProperty, DefaultConstructor, ValueConstructor]
  {
  }

  lemma FactoryFixedSlots()
    ensures FixedSlotsOf(FactorySlots) == [FromFactory, DeserializeFactory]
  {
  }

  lemma EqualityFixedSlots()
    ensures FixedSlotsOf(EqualitySlots) == [EqualityOperator, InequalityOperator]
  {
  }

  lemma TrailingFixedSlots()
    ensures FixedSlotsOf(TrailingSlots) == [EnsureInitialized]
  {
  }

  /** Every helper's output is placed as the helper produced it. */
  lemma {:induction false} RealizeKeepsFragmentText(layout: seq<Slot>, item: WorkItem, f: Fragments)
    ensures forall m :: m in Realize(layout, item, f) && m.Fragment? ==> m.text == f.text(m.kind)
    decreases |layout|
  {
    if layout != [] {
      RealizeKeepsFragmentText(layout[1..], item, f);
      var ms := Realize(layout, item, f);
      var rest := Realize(layout[1..], item, f);
      var here := SlotMembers(layout[0], item, f);
      forall m | m in ms && m.Fragment? ensures m.text == f.text(m.kind) {
        if m !in rest {
          assert m in here;
        }
      }
    }
  }

  /** The helpers' output reaches the emitted struct unchanged. */
  lemma HelperOutputVerbatim(item: WorkItem, tds: Declaration, f: Fragments)
    ensures forall m :: m in BuildClass(item, tds, f).members && m.Fragment? ==> m.text == f.text(m.kind)
  {
    RealizeKeepsFragmentText(Layout, item, f);
  }

  /** Some member of `ms` is the output of helper `k`. */
  predicate HasFragment(ms: seq<Member>, k: FragmentKind)
  {
    exists m :: m in ms && m.Fragment? && m.kind == k
  }

  lemma HasFragmentAppend(a: seq<Member>, b: seq<Member>, k: FragmentKind)
    ensures HasFragment(a + b, k) <==> HasFragment(a, k) || HasFragment(b, k)
  {
    if HasFragment(a + b, k) {
      var m :| m in a + b && m.Fragment? && m.kind == k;
      assert m in a || m in b;
    }
    if HasFragment(a, k) {
      var m :| m in a && m.Fragment? && m.kind == k;
      assert m in a + b;
    }
    if HasFragment(b, k) {
      var m :| m in b && m.Fragment? && m.kind == k;
      assert m in a + b;
    }
  }

  /** A helper's output appears exactly where the layout has a slot for it. */
  lemma {:induction false} RealizeFragments(layout: seq<Slot>, item: WorkItem, f: Fragments, k: FragmentKind)
    ensures HasFragment(Realize(layout, item, f), k) <==>
      (FragmentSlot(k) in layout
       || (k == IsInitializedMethod && IsInitializedSlot in layout && item.isInitializedMethodGeneration == Generate))
    decreases |layout|
  {
    if layout != [] {
      RealizeFragments(layout[1..], item, f, k);
      var ms := Realize(layout, item, f);
      var rest := Realize(layout[1..], item, f);
      var here := SlotMembers(layout[0], item, f);
      HasFragmentAppend(here, rest, k);
      assert layout == [layout[0]] + layout[1..];
      assert HasFragment(here, k) <==>
        (layout[0] == FragmentSlot(k)
         || (k == IsInitializedMethod && layout[0] == IsInitializedSlot && item.isInitializedMethodGeneration == Generate)) by {
        if here != [] {
          assert here == [here[0]];
        }
      }
    }
  }

  /** The `IsInitialized()` method is emitted exactly when the configuration says `Generate`. */
  lemma IsInitializedMethodIffGenerate(item: WorkItem, tds: Declaration, f: Fragments)
    ensures HasFragment(BuildClass(item, tds, f).members, IsInitializedMethod)
        <==> item.isInitializedMethodGeneration == Generate
  {
    RealizeFragments(Layout, item, f, IsInitializedMethod);
    assert IsInitializedSlot in FactorySlots;
    assert FragmentSlot(IsInitializedMethod) !in StateSlots;
    assert FragmentSlot(IsInitializedMethod) !in FactorySlots;
    assert FragmentSlot(IsInitializedMethod) !in EqualitySlots;
    assert FragmentSlot(IsInitializedMethod) !in TrailingSlots;
  }

  /** Every helper other than `IsInitialized()` has a slot of its own. */
  lemma EveryHelperHasASlot(k: FragmentKind)
    requires k != IsInitializedMethod
    ensures FragmentSlot(k) in Layout
  {
    assert FragmentSlot(k) in StateSlots || FragmentSlot(k) in FactorySlots
        || FragmentSlot(k) in EqualitySlots || FragmentSlot(k) in TrailingSlots;
  }

  /** Whatever the configuration, the output of every helper other than `IsInitialized()` is emitted. */
  lemma EveryHelperEmitted(item: WorkItem, tds: Declaration, f: Fragments, k: FragmentKind)
    requires k != IsInitializedMethod
    ensures Fragment(k, f.text(k)) in BuildClass(item, tds, f).members
  {
    EveryHelperHasASlot(k);
    RealizeFragments(Layout, item, f, k);
    RealizeKeepsFragmentText(Layout, item, f);
    var m :| m in Realize(Layout, item, f) && m.Fragment? && m.kind == k;
    assert m == Fragment(k, f.text(k));
  }

  /**
    The Entity Framework Core extension block is emitted after the struct's closing
    brace, never as a member; the uninitialized guard throws the configured exception.
   */
  lemma EfCoreBlockOutsideTheType(item: WorkItem, tds: Declaration, f: Fragments)
    ensures BuildClass(item, tds, f).afterType == f.efCoreExtensions
    ensures forall m :: m in BuildClass(item, tds, f).members && m.Fragment? ==> m.kind != IsInitializedMethod || item.isInitializedMethodGeneration == Generate
    ensures BuildClass(item, tds, f).exceptionType == item.validationExceptionFullName
  {
    IsInitializedMethodIffGenerate(item, tds, f);
  }

  /**
    The emitted guard and the runtime model agree: reading `Value` on a default-constructed
    instance of the emitted struct throws the work item's configured validation exception.
   */
  lemma EmittedGuardThrowsConfiguredException<T>(item: WorkItem, tds: Declaration, f: Fragments,
                                                 defaultValue: T, build: ValueObjectRuntime.Build)
    ensures ValueObjectRuntime.Value(ValueObjectRuntime.DefaultConstructor(defaultValue), BuildClass(item, tds, f).exceptionType, build)
         == ValueObjectRuntime.Threw(ValueObjectRuntime.Exception(item.validationExceptionFullName,
                                                                  ValueObjectRuntime.UninitializedMessageFor(build)))
  {
    EfCoreBlockOutsideTheType(item, tds, f);
    ValueObjectRuntime.DefaultConstructorIsUninitialized(defaultValue, BuildClass(item, tds, f).exceptionType, build);
  }
}
