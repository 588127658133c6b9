/**
 * The exceptions the modelled PHP code can raise, grouped by the class the
 * callers catch them as.
 */
module Faults {

  datatype Fault =
    | InvalidArgument(message: string)  // \InvalidArgumentException
    | Runtime(message: string)          // \RuntimeException (and its subclass \PDOException)
    | TypeFault(message: string)        // \TypeError under strict_types
  {
    /**
     * True for the faults a `catch (\Exception $e)` block intercepts: PHP's
     * \TypeError is an \Error, not an \Exception, and passes through such blocks.
     */
    predicate IsException() {
      !TypeFault?
    }
  }
}
