/** The Python exception classes the model names, with the Python 2
    single-inheritance chain between them; any other class is `Other`, taken
    to derive from Exception. */
module Classes {
  datatype ClassName =
    | BaseException | Exception | StandardError | LookupError
    | ValueError | TypeError | IndexError | AttributeError | AssertionError | RuntimeError
    | NotImplementedError
    | ElementiumError
    | ExcTimeOutError        // elementium.exc.TimeOutError
    | ElementsTimeOutError   // elementium.elements.TimeOutError
    | WebDriverException | StaleElementReferenceException | NoSuchElementException
    | Other(name: string)

  /** Distance from BaseException. */
  function Depth(c: ClassName): nat {
    match c
    case BaseException => 0
    case Exception => 1
    case StandardError | ElementiumError | ElementsTimeOutError | WebDriverException | Other(_) => 2
    case LookupError | ValueError | TypeError | AttributeError | AssertionError | RuntimeError => 3
    case ExcTimeOutError | StaleElementReferenceException | NoSuchElementException => 3
    case IndexError | NotImplementedError => 4
  }

  /** The direct base class. */
  function Base(c: ClassName): (b: ClassName)
    requires c != BaseException
    ensures Depth(b) + 1 == Depth(c)
  {
    match c
    case Exception => BaseException
    case StandardError | ElementiumError | ElementsTimeOutError | WebDriverException | Other(_) => Exception
    case LookupError | ValueError | TypeError | AttributeError | AssertionError | RuntimeError => StandardError
    case ExcTimeOutError => ElementiumError
    case StaleElementReferenceException | NoSuchElementException => WebDriverException
    case IndexError => LookupError
    case NotImplementedError => RuntimeError
  }

  /** `issubclass(c, d)` */
  predicate IsSubclass(c: ClassName, d: ClassName)
    decreases Depth(c)
  {
    c == d || (c != BaseException && IsSubclass(Base(c), d))
  }

  /** Neither TimeOutError class has a subclass here. */
  lemma {:induction false} TimeOutsAreLeaves(c: ClassName)
    ensures IsSubclass(c, ElementsTimeOutError) <==> c == ElementsTimeOutError
    ensures IsSubclass(c, ExcTimeOutError) <==> c == ExcTimeOutError
    decreases Depth(c)
  {
    if c != BaseException {
      TimeOutsAreLeaves(Base(c));
    }
  }
}

/** Values shared by every part of the model: an optional value, the
    exceptions the library raises or lets through, and the outcome of a call
    that either returns or raises. */
module Errors {
  import C = Classes

  datatype Option<+T> = None | Some(value: T) {
    function GetOr(default: T): T {
      match this
      case Some(v) => v
      case None => default
    }
  }

  type ClassName = C.ClassName

  /** An exception. The variants are the ones the library raises itself; any
      other exception (one a callback or the browser driver raises) is
      `Foreign`, described by its class. */
  datatype Exc =
    | ValueError(message: string)
    | TypeError
    | IndexError
    | AttributeError
    | AssertionError
    | NeverRan(n: int, ttl: real)      // the RuntimeError "Waiter was never run. ..."
    | NotImplemented(message: string)  // NotImplementedError
    | WaiterTimeOut(reason: string)    // elementium.exc.TimeOutError
    | ElementsTimeOut                  // elementium.elements.TimeOutError
    | Foreign(cls: ClassName)

  /** `type(e)` */
  function ClassOf(e: Exc): ClassName {
    match e
    case ValueError(_) => C.ValueError
    case TypeError => C.TypeError
    case IndexError => C.IndexError
    case AttributeError => C.AttributeError
    case AssertionError => C.AssertionError
    case NeverRan(_, _) => C.RuntimeError
    case NotImplemented(_) => C.NotImplementedError
    case WaiterTimeOut(_) => C.ExcTimeOutError
    case ElementsTimeOut => C.ElementsTimeOutError
    case Foreign(c) => c
  }

  /** `isinstance(e, c)` */
  predicate IsInstance(e: Exc, c: ClassName) {
    C.IsSubclass(ClassOf(e), c)
  }

  /** `isinstance(e, cs)` for a tuple of classes, as an `except cs` clause tests it. */
  predicate IsInstanceOfAny(e: Exc, cs: seq<ClassName>) {
    |cs| > 0 && (IsInstance(e, cs[0]) || IsInstanceOfAny(e, cs[1..]))
  }

  /** The exception a driver call on a node that is no longer attached raises. */
  const Stale: Exc := Foreign(C.StaleElementReferenceException)

  /** What a call does: returns a value or raises an exception. */
  datatype Outcome<+T> = Ok(value: T) | Raised(exc: Exc)

  function Min(a: real, b: real): real {
    if a <= b then a else b
  }

  /** The two TimeOutError classes are unrelated: an `except` clause for one
      does not catch the other. A stale element is a WebDriverException. */
  lemma TimeOutErrorsAreDistinct(reason: string)
    ensures !IsInstance(WaiterTimeOut(reason), C.ElementsTimeOutError)
    ensures !IsInstance(ElementsTimeOut, C.ExcTimeOutError)
    ensures IsInstance(Stale, C.WebDriverException)
    ensures IsInstance(WaiterTimeOut(reason), C.Exception) && IsInstance(ElementsTimeOut, C.Exception)
  {
  }
}
