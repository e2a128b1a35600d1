/**
 * The exceptions the inventory raises, as values. Each operation that can
 * raise returns a `Result` or an `Outcome` instead.
 */
module Outcomes {

  /** The Python exception class an error is raised as. */
  datatype ExceptionKind = ValueError | KeyError

  /** One constructor per `raise` of the core that a typed model can reach. */
  datatype Error =
    | EmptyName                    // construction: name is blank after stripping
    | NegativePrice                // construction: price < 0
    | NegativeQuantity             // construction: quantity < 0
    | NonPositivePrice             // price update: new price <= 0
    | NegativeNewQuantity          // quantity update: new quantity < 0
    | EmptyQuery                   // search: query is blank after stripping
    | DuplicateName(name: string)  // add: a product with that name exists
    | NotFound(query: string)      // search: no product matches the stripped query
  {
    /** The class each error is raised as: every one is a `ValueError`
        except the search miss, a `KeyError`. */
    function Kind(): (k: ExceptionKind)
      ensures k == KeyError <==> NotFound?
    {
      match this
      case EmptyName | NegativePrice | NegativeQuantity => ValueError
      case NonPositivePrice | NegativeNewQuantity => ValueError
      case EmptyQuery | DuplicateName(_) => ValueError
      case NotFound(_) => KeyError
    }
  }

  /** A value, or the error raised instead of returning it. */
  datatype Result<T> = Success(value: T) | Failure(error: Error)

  /** The outcome of an operation that returns nothing (`None`) when it succeeds. */
  datatype Outcome = Pass | Fail(error: Error)

  datatype Option<T> = None | Some(value: T)
}
