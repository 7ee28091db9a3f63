/**
 * The type-classification helpers of `TypeExtensions`. A runtime `System.Type` is
 * modelled by a tag: the built-in types the helpers name, `Nullable(t)` for
 * `Nullable<t>`, and `Other` for every remaining type with the two facts about it
 * that the helpers consult.
 */
module TypeExtensions {
  import opened Wrappers

  datatype ClrType =
    | Boolean | Byte | SByte | Int16 | UInt16 | Int32 | UInt32 | Int64 | UInt64
    | Single | Double | Decimal | Char | IntPtr | UIntPtr
    | String | TimeSpan | TimeOnly | DateOnly | DateTime | DateTimeOffset
    | Nullable(underlying: ClrType)
    | Other(name: string, isValueType: bool, implementsIComparable: bool)

  /** Value types: everything except `string` and reference types among `Other`. */
  predicate IsValueType(t: ClrType) {
    match t
    case String => false
    case Other(_, valueType, _) => valueType
    case _ => true
  }

  /**
   * The CLR only builds `Nullable<T>` for a value type `T` that is not itself
   * nullable, so no well-formed type nests two Nullable layers.
   */
  predicate WellFormed(t: ClrType) {
    match t
    case Nullable(u) => IsValueType(u) && !u.Nullable? && WellFormed(u)
    case _ => true
  }

  /** The element types `IsNumeric` accepts, without their Nullable forms. */
  const NumericTypes: set<ClrType> :=
    {Byte, SByte, Int16, UInt16, Int32, UInt32, Int64, UInt64, Single, Double, Decimal}

  /** `Type.IsPrimitive`: the CLR primitive types. */
  const ClrPrimitives: set<ClrType> :=
    {Boolean, Byte, SByte, Int16, UInt16, Int32, UInt32, Int64, UInt64, IntPtr, UIntPtr, Char, Double, Single}

  predicate IsBoolean(t: ClrType) {
    t == Boolean || t == Nullable(Boolean)
  }

  predicate IsNumeric(t: ClrType) {
    t in NumericTypes || (t.Nullable? && t.underlying in NumericTypes)
  }

  predicate IsTimeSpan(t: Option<ClrType>) {
    t == Some(TimeSpan) || t == Some(Nullable(TimeSpan))
  }

  predicate IsTimeOnly(t: Option<ClrType>) {
    t == Some(TimeOnly) || t == Some(Nullable(TimeOnly))
  }

  predicate IsDateOnly(t: Option<ClrType>) {
    t == Some(DateOnly) || t == Some(Nullable(DateOnly))
  }

  predicate IsDateTime(t: Option<ClrType>) {
    t == Some(DateTime) || t == Some(Nullable(DateTime))
  }

  predicate IsDateTimeOffset(t: Option<ClrType>) {
    t == Some(DateTimeOffset) || t == Some(Nullable(DateTimeOffset))
  }

  /** True of a non-null type built from the generic definition `Nullable<>`. */
  predicate IsNullableType(t: Option<ClrType>) {
    t.Some? && t.value.Nullable?
  }

  /** Strips one Nullable layer; every other type is returned as it is. */
  function GetNonNullableType(t: ClrType): (r: ClrType)
    ensures IsNullableType(Some(t)) ==> r == t.underlying
    ensures !IsNullableType(Some(t)) ==> r == t
    ensures WellFormed(t) ==> WellFormed(r) && !IsNullableType(Some(r))
  {
    if IsNullableType(Some(t)) then t.underlying else t
  }

  predicate IsPrimitive(t: Option<ClrType>) {
    t.Some? && (t.value in ClrPrimitives || t.value == String || t.value == Decimal || t.value == DateTime)
  }

  /**
   * Whether `IComparable` is among the type's interfaces. Every built-in tag here
   * implements it; `Nullable<T>` implements no interface at all.
   */
  predicate IsInheritedFromIComparable(t: ClrType) {
    match t
    case Nullable(_) => false
    case Other(_, _, comparable) => comparable
    case _ => true
  }

  /** Each date/number test accepts a type exactly when its non-nullable form is the type it names. */
  lemma ClassifiersSeeThroughNullable(t: ClrType)
    ensures IsBoolean(t) <==> GetNonNullableType(t) == Boolean
    ensures IsNumeric(t) <==> GetNonNullableType(t) in NumericTypes
    ensures IsTimeSpan(Some(t)) <==> GetNonNullableType(t) == TimeSpan
    ensures IsTimeOnly(Some(t)) <==> GetNonNullableType(t) == TimeOnly
    ensures IsDateOnly(Some(t)) <==> GetNonNullableType(t) == DateOnly
    ensures IsDateTime(Some(t)) <==> GetNonNullableType(t) == DateTime
    ensures IsDateTimeOffset(Some(t)) <==> GetNonNullableType(t) == DateTimeOffset
  {
  }

  /** The `Type?` helpers answer false for a null type. */
  lemma NullTypeIsNothing()
    ensures !IsTimeSpan(None) && !IsTimeOnly(None) && !IsDateOnly(None)
    ensures !IsDateTime(None) && !IsDateTimeOffset(None)
    ensures !IsNullableType(None) && !IsPrimitive(None)
  {
  }

  /** On a well-formed type, stripping Nullable twice is stripping it once. */
  lemma GetNonNullableTypeIdempotent(t: ClrType)
    requires WellFormed(t)
    ensures GetNonNullableType(GetNonNullableType(t)) == GetNonNullableType(t)
  {
  }

  /** The idempotence needs well-formedness: a nested Nullable loses one layer per call. */
  lemma NestedNullableNotIdempotent()
    ensures GetNonNullableType(GetNonNullableType(Nullable(Nullable(Int32)))) != GetNonNullableType(Nullable(Nullable(Int32)))
  {
  }

  /**
   * `IsPrimitive` and `IsInheritedFromIComparable` do not look through Nullable:
   * `int?` is neither primitive nor comparable, while `int` is both.
   */
  lemma NullableHidesPrimitiveAndComparable(u: ClrType)
    ensures !IsPrimitive(Some(Nullable(u)))
    ensures !IsInheritedFromIComparable(Nullable(u))
    ensures IsPrimitive(Some(Int32)) && IsInheritedFromIComparable(Int32)
  {
  }
}
