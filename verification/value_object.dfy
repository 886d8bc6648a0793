/**
  The behaviour of the struct that the struct generator emits: its two fields, its two
  constructors, the `From` and `__Deserialize` factories, the guarded `Value` getter
  and the `==` / `!=` operators.
  Source: src/Vogen/Generators/StructGenerator.cs (the text of the emitted members).

  Normalisation and the two validation steps are produced by helpers that are not part
  of this model; they appear here as parameters (a normalising function, and validation
  functions that either accept a value or throw an exception).
 */
module ValueObjectRuntime {

  /** The emitted struct's fields: `_isInitialized` and `_value`. */
  datatype Instance<T> = Instance(isInitialized: bool, value: T)

  /** An exception thrown by the emitted code: its type's full name and its message. */
  datatype Exception = Exception(typeName: string, message: string)

  /** How a call of the emitted code ends. */
  datatype Outcome<T> = Returned(result: T) | Threw(exception: Exception)

  /** What an emitted validation call does with a value: nothing, or throw. */
  datatype Validation = Accepted | Rejected(exception: Exception)

  /**
    The per-type hooks the emitted factories call: the normalisation (the identity when
    the type declares none), the validation done by `From`, and the separately
    configured validation done when deserializing.
   */
  datatype Hooks<!T> = Hooks(
    normalize: T -> T,
    validate: T -> Validation,
    validateForDeserializing: T -> Validation)

  /** `#if DEBUG`: a debug build's message is produced by a helper outside this model. */
  datatype Build = Release | Debug(debugMessage: string)

  const UninitializedMessage: string := "Use of uninitialized Value Object."

  /** The public parameterless constructor: not initialized, holding the type's default value. */
  function DefaultConstructor<T>(defaultValue: T): Instance<T>
  {
    Instance(false, defaultValue)
  }

  /** The private constructor: initialized, holding its argument. */
  function ValueConstructor<T>(value: T): Instance<T>
  {
    Instance(true, value)
  }

  /** `From`: normalise, then validate (which may throw), then construct. */
  function From<T>(hooks: Hooks<T>, value: T): Outcome<Instance<T>>
  {
    var normalized := hooks.normalize(value);
    match hooks.validate(normalized)
    case Rejected(e) => Threw(e)
    case Accepted => Returned(ValueConstructor(normalized))
  }

  /** `__Deserialize`: normalise, then the deserialization validation, then construct. */
  function Deserialize<T>(hooks: Hooks<T>, value: T): Outcome<Instance<T>>
  {
    var normalized := hooks.normalize(value);
    match hooks.validateForDeserializing(normalized)
    case Rejected(e) => Threw(e)
    case Accepted => Returned(ValueConstructor(normalized))
  }

  /** The message `EnsureInitialized` puts in its exception. */
  function UninitializedMessageFor(build: Build): string
  {
    match build
    case Release => UninitializedMessage
    case Debug(m) => m
  }

  /** `EnsureInitialized`: throw the configured validation exception when uninitialized. */
  function EnsureInitialized<T>(instance: Instance<T>, exceptionType: string, build: Build): Outcome<()>
  {
    if !instance.isInitialized then Threw(Exception(exceptionType, UninitializedMessageFor(build)))
    else Returned(())
  }

  /** The `Value` getter: the initialization guard first, then the held value. */
  function Value<T>(instance: Instance<T>, exceptionType: string, build: Build): Outcome<T>
  {
    match EnsureInitialized(instance, exceptionType, build)
    case Threw(e) => Threw(e)
    case Returned(_) => Returned(instance.value)
  }

  /** `operator ==`: delegates to the generated `Equals`, which is a parameter here. */
  function EqualityOperator<T>(equals: (Instance<T>, Instance<T>) -> bool, left: Instance<T>, right: Instance<T>): bool
  {
    equals(left, right)
  }

  /** `operator !=`: the negation of `==`. */
  function InequalityOperator<T>(equals: (Instance<T>, Instance<T>) -> bool, left: Instance<T>, right: Instance<T>): bool
  {
    !(EqualityOperator(equals, left, right))
  }

  // ---------------------------------------------------------------------------
  // The tagged view: an instance is either uninitialized or holds a value

  datatype State<T> = Uninitialized | Valid(value: T)

  /** What the two fields mean. */
  function Abstract<T>(instance: Instance<T>): State<T>
  {
    if instance.isInitialized then Valid(instance.value) else Uninitialized
  }

  /** The instances the emitted code can produce: initialized, or exactly the default one. */
  predicate Reachable<T(==)>(instance: Instance<T>, defaultValue: T)
  {
    instance.isInitialized || instance == DefaultConstructor(defaultValue)
  }

  /** The parameterless constructor gives the uninitialized sentinel, and reading it throws. */
  lemma DefaultConstructorIsUninitialized<T>(defaultValue: T, exceptionType: string, build: Build)
    ensures Abstract(DefaultConstructor(defaultValue)) == Uninitialized
    ensures Value(DefaultConstructor(defaultValue), exceptionType, build)
         == Threw(Exception(exceptionType, UninitializedMessageFor(build)))
    ensures Value(DefaultConstructor(defaultValue), exceptionType, Release)
         == Threw(Exception(exceptionType, "Use of uninitialized Value Object."))
  {
  }

  /** The private constructor gives an initialized instance whose `Value` is its argument. */
  lemma ValueConstructorIsInitialized<T>(value: T, exceptionType: string, build: Build)
    ensures Abstract(ValueConstructor(value)) == Valid(value)
    ensures Value(ValueConstructor(value), exceptionType, build) == Returned(value)
  {
  }

  /**
    `From` succeeds exactly when validation accepts the NORMALISED value; it then yields
    an initialized instance whose `Value` is the normalised value. When validation
    throws, the exception propagates and no instance is produced.
   */
  lemma FromPipeline<T>(hooks: Hooks<T>, value: T, exceptionType: string, build: Build)
    ensures From(hooks, value).Returned? <==> hooks.validate(hooks.normalize(value)).Accepted?
    ensures From(hooks, value).Returned? ==>
      && Abstract(From(hooks, value).result) == Valid(hooks.normalize(value))
      && Value(From(hooks, value).result, exceptionType, build) == Returned(hooks.normalize(value))
    ensures hooks.validate(hooks.normalize(value)).Rejected? ==>
      From(hooks, value) == Threw(hooks.validate(hooks.normalize(value)).exception)
  {
  }

  /** `__Deserialize` runs the same normalisation but its own validation step. */
  lemma DeserializePipeline<T>(hooks: Hooks<T>, value: T, exceptionType: string, build: Build)
    ensures Deserialize(hooks, value).Returned? <==> hooks.validateForDeserializing(hooks.normalize(value)).Accepted?
    ensures Deserialize(hooks, value).Returned? ==>
      Value(Deserialize(hooks, value).result, exceptionType, build) == Returned(hooks.normalize(value))
    ensures hooks.validateForDeserializing(hooks.normalize(value)).Rejected? ==>
      Deserialize(hooks, value) == Threw(hooks.validateForDeserializing(hooks.normalize(value)).exception)
  {
  }

  /** The two factories differ only in their validation step. */
  lemma DeserializeDiffersOnlyInValidation<T>(hooks: Hooks<T>, value: T)
    requires hooks.validateForDeserializing(hooks.normalize(value)) == hooks.validate(hooks.normalize(value))
    ensures Deserialize(hooks, value) == From(hooks, value)
  {
  }

  /**
    With an idempotent normalisation, deserializing a value gives what `From` gives for
    its normalised form, whenever both validations accept that form.
   */
  lemma DeserializeMatchesFromOfNormalized<T>(hooks: Hooks<T>, value: T)
    requires hooks.normalize(hooks.normalize(value)) == hooks.normalize(value)
    requires hooks.validate(hooks.normalize(value)).Accepted?
    requires hooks.validateForDeserializing(hooks.normalize(value)).Accepted?
    ensures Deserialize(hooks, value) == From(hooks, hooks.normalize(value))
    ensures Deserialize(hooks, value).Returned?
  {
  }

  /** Two accepted values give equal instances exactly when they normalise to the same value. */
  lemma FromEqualIffNormalizedEqual<T>(hooks: Hooks<T>, v1: T, v2: T)
    requires hooks.validate(hooks.normalize(v1)).Accepted? && hooks.validate(hooks.normalize(v2)).Accepted?
    ensures From(hooks, v1) == From(hooks, v2) <==> hooks.normalize(v1) == hooks.normalize(v2)
  {
    if From(hooks, v1) == From(hooks, v2) {
      assert From(hooks, v1).result.value == hooks.normalize(v1);
      assert From(hooks, v2).result.value == hooks.normalize(v2);
    }
  }

  /** Every instance the constructors and factories produce is reachable: there is no third state. */
  lemma FactoriesProduceReachableInstances<T>(hooks: Hooks<T>, value: T, defaultValue: T)
    ensures Reachable(DefaultConstructor(defaultValue), defaultValue)
    ensures Reachable(ValueConstructor(value), defaultValue)
    ensures From(hooks, value).Returned? ==> Reachable(From(hooks, value).result, defaultValue)
    ensures Deserialize(hooks, value).Returned? ==> Reachable(Deserialize(hooks, value).result, defaultValue)
  {
  }

  /**
    The two-field representation refines the tagged one: `Value` throws exactly on
    `Uninitialized` and returns exactly the held value on `Valid`, and on reachable
    instances the tagged view loses nothing.
   */
  lemma FieldsRefineTaggedState<T>(a: Instance<T>, b: Instance<T>, defaultValue: T, exceptionType: string, build: Build)
    ensures Value(a, exceptionType, build).Threw? <==> Abstract(a) == Uninitialized
    ensures Value(a, exceptionType, build).Threw? ==> Value(a, exceptionType, build).exception.typeName == exceptionType
    ensures forall x :: Value(a, exceptionType, build) == Returned(x) <==> Abstract(a) == Valid(x)
    ensures Reachable(a, defaultValue) && Reachable(b, defaultValue) && Abstract(a) == Abstract(b) ==> a == b
  {
  }

  /** `!=` is the negation of `==`; when `Equals` is an equivalence, `!=` is irreflexive and symmetric. */
  lemma InequalityIsNegatedEquality<T>(equals: (Instance<T>, Instance<T>) -> bool, a: Instance<T>, b: Instance<T>)
    ensures InequalityOperator(equals, a, b) <==> !EqualityOperator(equals, a, b)
    ensures equals(a, a) ==> !InequalityOperator(equals, a, a)
    ensures (equals(a, b) <==> equals(b, a)) ==> (InequalityOperator(equals, a, b) <==> InequalityOperator(equals, b, a))
  {
  }
}
