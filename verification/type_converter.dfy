/**
  The conversion generator that attaches a `System.ComponentModel.TypeConverter`
  to a value object: one attribute on the type and one nested converter class,
  both emitted only when the `TypeConverter` conversion is requested.
  Source: src/Vogen/Generators/Conversions/GenerateTypeConverterConversions.cs.
 */
module TypeConverterConversions {
  import opened Wrappers
  import opened Text

  /** The members of the `Conversions` flags enumeration that this model tells apart. */
  datatype ConversionKind = TypeConverter | OtherConversion(name: string)

  /** The parts of a work item this generator reads. */
  datatype WorkItem = WorkItem(
    voTypeName: string,
    underlyingType: string,            // identity of the underlying type, as the template store keys it
    underlyingTypeFullName: string,
    conversions: set<ConversionKind>)  // the bits set in `Config.Conversions`

  /**
    The template store, as far as this generator uses it: templates specialised for an
    underlying type (a partial map keyed by type and feature) and the any-type
    templates (total, one per feature).
   */
  datatype TemplateStore = TemplateStore(
    specific: map<(string, string), string>,
    anyType: string -> string)

  const Feature: string := "TypeConverter"
  const TypePlaceholder: string := "VOTYPE"
  const UnderlyingPlaceholder: string := "VOUNDERLYINGTYPE"
  const DisableDirective: string := "#nullable disable"
  const RestoreDirective: string := "#nullable restore"
  const NullableDisable: string := DisableDirective + "\n"
  const NullableRestore: string := "\n" + RestoreDirective

  /** `Conversions.HasFlag(Conversions.TypeConverter)`. */
  predicate WantsTypeConverter(item: WorkItem)
  {
    TypeConverter in item.conversions
  }

  const AttributeOpen: string := "[global::System.ComponentModel.TypeConverter(typeof("
  const AttributeClose: string := "))]"

  /** The name of the nested converter class the attribute points at. */
  function ConverterClassName(voTypeName: string): string
  {
    voTypeName + "TypeConverter"
  }

  /**
    The attribute placed on the value object: empty without the flag; otherwise the
    `TypeConverter` attribute whose `typeof` argument is the converter class's name.
   */
  function GenerateAnyAttributes(item: WorkItem): (r: string)
    ensures r == "" <==> !WantsTypeConverter(item)
    ensures WantsTypeConverter(item) ==>
      && |r| == |AttributeOpen| + |ConverterClassName(item.voTypeName)| + |AttributeClose|
      && r[..|AttributeOpen|] == AttributeOpen
      && r[|AttributeOpen|..|r| - |AttributeClose|] == ConverterClassName(item.voTypeName)
      && r[|r| - |AttributeClose|..] == AttributeClose
  {
    if !WantsTypeConverter(item) then ""
    else AttributeOpen + ConverterClassName(item.voTypeName) + AttributeClose
  }

  /** `Templates.TryGetForSpecificType(...)`: null when no specialised template exists. */
  function TryGetForSpecificType(store: TemplateStore, underlyingType: string, feature: string): Option<string>
  {
    if (underlyingType, feature) in store.specific then Some(store.specific[(underlyingType, feature)]) else None
  }

  /** `specific ?? anyType`: the specialised template wins whenever there is one. */
  function SelectTemplate(store: TemplateStore, item: WorkItem): string
  {
    match TryGetForSpecificType(store, item.underlyingType, Feature)
    case Some(t) => t
    case None => store.anyType(Feature)
  }

  /** The two sequential `Replace` calls: type name first, underlying type second. */
  function Substitute(template: string, voTypeName: string, underlyingFullName: string): string
  {
    var code := ReplaceAll(template, TypePlaceholder, voTypeName);
    ReplaceAll(code, UnderlyingPlaceholder, underlyingFullName)
  }

  /** The raw string literal that isolates the template's nullable context. */
  function WrapNullable(code: string): string
  {
    NullableDisable + code + NullableRestore
  }

  /** The nested converter class emitted inside the value object. */
  function GenerateAnyBody(store: TemplateStore, item: WorkItem): (r: string)
    ensures r == "" <==> !WantsTypeConverter(item)
  {
    if !WantsTypeConverter(item) then ""
    else WrapNullable(Substitute(SelectTemplate(store, item), item.voTypeName, item.underlyingTypeFullName))
  }

  /** Without the flag nothing is emitted, whatever the other conversions are. */
  lemma NoFlagNoOutput(store: TemplateStore, item: WorkItem, others: set<ConversionKind>)
    requires TypeConverter !in others
    ensures GenerateAnyAttributes(item.(conversions := others)) == ""
    ensures GenerateAnyBody(store, item.(conversions := others)) == ""
  {
  }

  /**
    The specialised template is used whenever it exists, even when it is empty; the
    any-type template is used only when no specialised one exists.
   */
  lemma TemplateLookupOrder(store: TemplateStore, item: WorkItem)
    ensures (item.underlyingType, Feature) in store.specific ==>
      SelectTemplate(store, item) == store.specific[(item.underlyingType, Feature)]
    ensures (item.underlyingType, Feature) !in store.specific ==>
      SelectTemplate(store, item) == store.anyType(Feature)
  {
  }

  /** A template with neither placeholder passes through the substitution unchanged. */
  lemma SubstituteWithoutPlaceholders(template: string, voTypeName: string, underlyingFullName: string)
    requires !Contains(template, TypePlaceholder) && !Contains(template, UnderlyingPlaceholder)
    ensures Substitute(template, voTypeName, underlyingFullName) == template
  {
    ReplaceAbsent(template, TypePlaceholder, voTypeName);
    ReplaceAbsent(template, UnderlyingPlaceholder, underlyingFullName);
  }

  /**
    The substitution is two cut-and-glue passes: the template is cut at the `VOTYPE`
    occurrences and glued with the type name, then the result is cut at the
    `VOUNDERLYINGTYPE` occurrences and glued with the underlying type's full name.
   */
  lemma SubstituteIsSequentialSplitJoin(template: string, voTypeName: string, underlyingFullName: string)
    ensures Substitute(template, voTypeName, underlyingFullName)
         == Join(Split(Join(Split(template, TypePlaceholder), voTypeName), UnderlyingPlaceholder), underlyingFullName)
  {
    ReplaceAllIsJoinOfSplit(template, TypePlaceholder, voTypeName);
    ReplaceAllIsJoinOfSplit(ReplaceAll(template, TypePlaceholder, voTypeName), UnderlyingPlaceholder, underlyingFullName);
  }

  /**
    Because the replacements run one after the other, a type name that itself spells
    the second placeholder is rewritten by the second pass.
   */
  lemma SubstitutionIsSequential(underlyingFullName: string)
    ensures Substitute(TypePlaceholder, UnderlyingPlaceholder, underlyingFullName) == underlyingFullName
  {
    ReplaceLeadingOccurrence(TypePlaceholder, "", UnderlyingPlaceholder);
    assert ReplaceAll("", TypePlaceholder, UnderlyingPlaceholder) == "";
    ReplaceLeadingOccurrence(UnderlyingPlaceholder, "", underlyingFullName);
    assert UnderlyingPlaceholder + "" == UnderlyingPlaceholder;
    assert underlyingFullName + "" == underlyingFullName;
  }

  /**
    With the flag set, the body is the selected, substituted template between a
    `#nullable disable` line and a `#nullable restore` line.
   */
  lemma BodyIsWrappedTemplate(store: TemplateStore, item: WorkItem)
    requires WantsTypeConverter(item)
    ensures var body := GenerateAnyBody(store, item);
            var code := Substitute(SelectTemplate(store, item), item.voTypeName, item.underlyingTypeFullName);
            && |body| == |NullableDisable| + |code| + |NullableRestore|
            && body[..|NullableDisable|] == NullableDisable
            && body[|NullableDisable|..|NullableDisable| + |code|] == code
            && body[|body| - |NullableRestore|..] == NullableRestore
  {
  }

  /**
    Whatever the template holds, the body's first line is exactly `#nullable disable`
    and its last line is exactly `#nullable restore`: each directive stands on a line
    of its own.
   */
  lemma DirectivesOnTheirOwnLines(store: TemplateStore, item: WorkItem)
    requires WantsTypeConverter(item)
    ensures var lines := Split(GenerateAnyBody(store, item), "\n");
      && lines[0] == DisableDirective
      && |lines| >= 2
      && lines[|lines| - 1] == RestoreDirective
  {
    var code := Substitute(SelectTemplate(store, item), item.voTypeName, item.underlyingTypeFullName);
    var body := GenerateAnyBody(store, item);
    assert body == DisableDirective + ['\n'] + (code + NullableRestore);
    SplitFirstLine(DisableDirective, '\n', code + NullableRestore);
    assert body == (NullableDisable + code) + ['\n'] + RestoreDirective;
    SplitLastLine(NullableDisable + code, '\n', RestoreDirective);
  }
}
