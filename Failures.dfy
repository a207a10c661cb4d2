/** The exceptions the translator lets escape, as values. */
module Failures {
  import opened Kendo

  datatype Error =
      /** A property path names a property its type does not declare: `GetProperty` gives null and `.PropertyType` is read off it. */
    | NullReference(owner: TypeName, property: string)
      /** `Convert.ChangeType` cannot turn the value into the resolved member type. */
    | ConversionFailed(value: Value, target: TypeName)
      /** The `default` branch of the operator switch. */
    | NotImplemented(operator: FilterOperator)
      /** A composite's child is not a `FilterDescriptor`, so the cast in the `foreach` fails. */
    | InvalidCast
      /** `Convert.ToInt32` is given a count above `int.MaxValue`. */
    | Overflow(total: nat)
  {
    /** The message of the `NotImplementedException`, naming the operator. */
    function Message(): string
      requires NotImplemented?
    {
      "The Telerik Operator " + operator.Name() + " has not been implemented. Add it to the GetFilter() switch."
    }
  }

  datatype Result<+T> = Ok(value: T) | Err(error: Error)
}
