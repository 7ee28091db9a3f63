/** `BoolToVisibilityConverter`: a one-way binding converter from a boxed bool to Visibility. */
module BoolToVisibilityConverter {
  import opened Wrappers
  import opened Xaml
  import TypeExtensions

  /** The `object` handed to a converter: null, a boxed bool, or any other boxed value. */
  datatype BoxedShape = Null | BoxedBool(b: bool) | BoxedOther(runtimeType: TypeExtensions.ClrType)

  /**
   * Boxing a bool always gives a BoxedBool, and boxing a Nullable gives null or
   * its underlying value, so no boxed value has runtime type bool or Nullable.
   */
  type Boxed = v: BoxedShape | v.BoxedOther? ==> v.runtimeType != TypeExtensions.Boolean && !v.runtimeType.Nullable?
    witness Null

  datatype ConverterError = NotImplementedException

  function Convert(value: Boxed, targetType: TypeExtensions.ClrType, parameter: Boxed, language: string): (r: Visibility)
    ensures r == Visible <==> value == BoxedBool(true)
  {
    if value.BoxedBool? && value.b then Visible else Collapsed
  }

  function ConvertBack(value: Boxed, targetType: TypeExtensions.ClrType, parameter: Boxed, language: string): (r: Result<Boxed, ConverterError>)
    ensures r.Failure? && r.error == NotImplementedException
  {
    Failure(NotImplementedException)
  }

  /** A boxed false, null and every value that is not a bool all collapse. */
  lemma ConvertCollapsesEverythingElse(value: Boxed, targetType: TypeExtensions.ClrType, parameter: Boxed, language: string)
    requires value != BoxedBool(true)
    ensures Convert(value, targetType, parameter, language) == Collapsed
  {
  }

  /** The result depends on the value alone. */
  lemma ConvertIgnoresContext(value: Boxed, t1: TypeExtensions.ClrType, p1: Boxed, l1: string,
                              t2: TypeExtensions.ClrType, p2: Boxed, l2: string)
    ensures Convert(value, t1, p1, l1) == Convert(value, t2, p2, l2)
  {
  }
}
