/** The tri-state result container and its combinators.

    A `TriState<T>` is exactly one of: `Idle` (nothing attempted yet, or still
    pending), `Error(message)` (attempted and failed) or `Content(data)`
    (succeeded with a value). Every combinator builds a new value; nothing is
    ever mutated. The Kotlin members and extension functions are written here
    as module-level functions whose first parameter is the receiver. */
module TriStates {
  import opened Optional

  datatype TriState<+T> = Idle | Error(message: string) | Content(data: T)

  /** The message `effect` substitutes when a failure carries no description. */
  const UnknownErrorMessage: string := "Unknown error occurred"

  /** The monadic unit; the same as the `Content` constructor. */
  function Pure<T>(value: T): TriState<T>
  {
    Content(value)
  }

  // ---------------------------------------------------------------------------
  // effect

  /** How the action wrapped by `effect` ended: it returned a value, or it threw
      a failure whose description (Kotlin's `Throwable.message`) may be null. */
  datatype Outcome<+T> = Returned(value: T) | Threw(description: Option<string>)

  /** `effect`: adapts the outcome of an action into the algebra. A failure
      never escapes: it becomes `Error`, carrying the failure's description or,
      when there is none, the fixed fallback message. */
  function Effect<T>(action: Outcome<T>): (r: TriState<T>)
    ensures !r.Idle?
    ensures r.Content? <==> action.Returned?
    ensures action.Returned? ==> r.data == action.value
    ensures action.Threw? && action.description.Some? ==> r.message == action.description.value
    ensures action.Threw? && action.description.None? ==> r.message == UnknownErrorMessage
    ensures action.Threw? && (action.description.None? || action.description.value != []) ==> r.message != []
  {
    match action
    case Returned(v) => Pure(v)
    case Threw(description) =>
      Error(match description case Some(m) => m case None => UnknownErrorMessage)
  }

  // ---------------------------------------------------------------------------
  // Functor and monad

  /** `map`: transforms the payload of `Content`; `Idle` and `Error` keep their
      variant, and an error keeps its message. */
  function Map<T, R>(s: TriState<T>, transform: T -> R): (r: TriState<R>)
    ensures r.Idle? <==> s.Idle?
    ensures r.Error? <==> s.Error?
    ensures r.Content? <==> s.Content?
    ensures s.Error? ==> r.message == s.message
    ensures s.Content? ==> r.data == transform(s.data)
  {
    match s
    case Idle => Idle
    case Error(m) => Error(m)
    case Content(x) => Content(transform(x))
  }

  /** `flatMap`: the monadic bind. The transform's result is returned as is,
      not wrapped again. */
  function FlatMap<T, R>(s: TriState<T>, transform: T -> TriState<R>): (r: TriState<R>)
    ensures s.Idle? ==> r.Idle?
    ensures s.Error? ==> r == Error(s.message)
    ensures s.Content? ==> r == transform(s.data)
  {
    match s
    case Idle => Idle
    case Error(m) => Error(m)
    case Content(x) => transform(x)
  }

  // ---------------------------------------------------------------------------
  // Predicates

  predicate IsIdle<T>(s: TriState<T>) { s.Idle? }

  predicate IsError<T>(s: TriState<T>) { s.Error? }

  predicate IsContent<T>(s: TriState<T>) { s.Content? }

  // ---------------------------------------------------------------------------
  // Taps

  /** A tap's outcome: the receiver it hands back for chaining, and the effects
      its callbacks performed, in the order they fired. A callback is modelled
      as a function producing the record of the effect it performs. */
  datatype Tapped<+T, +E> = Tapped(state: TriState<T>, fired: seq<E>)

  /** `onIdle`: fires the callback only for `Idle`; the receiver is returned unchanged. */
  function OnIdle<T, E>(s: TriState<T>, effect: () -> E): (r: Tapped<T, E>)
    ensures r.state == s
    ensures |r.fired| <= 1
    ensures r.fired != [] <==> s.Idle?
    ensures forall e <- r.fired :: e == effect()
  {
    Tapped(s, if s.Idle? then [effect()] else [])
  }

  /** `onError`: fires the callback with the message only for `Error`. */
  function OnError<T, E>(s: TriState<T>, effect: string -> E): (r: Tapped<T, E>)
    ensures r.state == s
    ensures |r.fired| <= 1
    ensures r.fired != [] <==> s.Error?
    ensures s.Error? ==> forall e <- r.fired :: e == effect(s.message)
  {
    Tapped(s, if s.Error? then [effect(s.message)] else [])
  }

  /** `onContent`: fires the callback with the payload only for `Content`. */
  function OnContent<T, E>(s: TriState<T>, effect: T -> E): (r: Tapped<T, E>)
    ensures r.state == s
    ensures |r.fired| <= 1
    ensures r.fired != [] <==> s.Content?
    ensures s.Content? ==> forall e <- r.fired :: e == effect(s.data)
  {
    Tapped(s, if s.Content? then [effect(s.data)] else [])
  }

  /** `onEach`: dispatches to exactly one of the three callbacks. */
  function OnEach<T, E>(s: TriState<T>, onIdle: () -> E, onError: string -> E, onContent: T -> E)
    : (r: Tapped<T, E>)
    ensures r.state == s
    ensures |r.fired| == 1
    ensures s.Idle? ==> r.fired[0] == onIdle()
    ensures s.Error? ==> r.fired[0] == onError(s.message)
    ensures s.Content? ==> r.fired[0] == onContent(s.data)
  {
    match s
    case Idle => Tapped(s, [onIdle()])
    case Error(m) => Tapped(s, [onError(m)])
    case Content(x) => Tapped(s, [onContent(x)])
  }

  // ---------------------------------------------------------------------------
  // Elimination and extraction

  /** `fold`: the total eliminator; exactly the handler of the active variant
      decides the result. */
  function Fold<T, R>(s: TriState<T>, onContent: T -> R, onError: string -> R, onIdle: () -> R)
    : (r: R)
    ensures s.Content? ==> r == onContent(s.data)
    ensures s.Error? ==> r == onError(s.message)
    ensures s.Idle? ==> r == onIdle()
  {
    match s
    case Content(x) => onContent(x)
    case Error(m) => onError(m)
    case Idle => onIdle()
  }

  /** `getOrNull`: the payload, present exactly for `Content`. */
  function GetOrNull<T>(s: TriState<T>): (r: Option<T>)
    ensures r.Some? <==> s.Content?
    ensures r.Some? ==> r.value == s.data
  {
    match s
    case Content(x) => Some(x)
    case _ => None
  }

  /** `getOrDefault(defaultValue)`. */
  function GetOrDefault<T>(s: TriState<T>, defaultValue: T): (r: T)
    ensures s.Content? ==> r == s.data
    ensures !s.Content? ==> r == defaultValue
  {
    match s
    case Content(x) => x
    case _ => defaultValue
  }

  /** `getOrDefault(defaultSupplier)`: the supplier is consulted only when
      there is no payload. */
  function GetOrDefaultWith<T>(s: TriState<T>, defaultSupplier: () -> T): (r: T)
    ensures s.Content? ==> r == s.data
    ensures !s.Content? ==> r == defaultSupplier()
  {
    match s
    case Content(x) => x
    case _ => defaultSupplier()
  }

  /** `getErrorMessage`: the message, present exactly for `Error`. */
  function GetErrorMessage<T>(s: TriState<T>): (r: Option<string>)
    ensures r.Some? <==> s.Error?
    ensures r.Some? ==> r.value == s.message
  {
    match s
    case Error(m) => Some(m)
    case _ => None
  }

  // ---------------------------------------------------------------------------
  // Recovery

  /** `recover`: heals an `Error` into `Content`; `Idle` is NOT turned into
      `Content`, so the result is never an error but may still be idle. */
  function Recover<T>(s: TriState<T>, transform: string -> T): (r: TriState<T>)
    ensures !r.Error?
    ensures r.Idle? <==> s.Idle?
    ensures !s.Error? ==> r == s
    ensures s.Error? ==> r.data == transform(s.message)
  {
    match s
    case Error(m) => Content(transform(m))
    case Content(_) => s
    case Idle => s
  }

  /** `recoverWith`: replaces an `Error` by whatever the transform yields. */
  function RecoverWith<T>(s: TriState<T>, transform: string -> TriState<T>): (r: TriState<T>)
    ensures !s.Error? ==> r == s
    ensures s.Error? ==> r == transform(s.message)
  {
    match s
    case Error(m) => transform(m)
    case Content(_) => s
    case Idle => s
  }

  // ---------------------------------------------------------------------------
  // Binary combinators (Kotlin extension functions)

  /** `zip`: a bind on the receiver followed by a map on `other`. A receiver
      that is not `Content` decides the result on its own. */
  function Zip<T, R>(s: TriState<T>, other: TriState<R>): (r: TriState<(T, R)>)
    ensures s.Idle? ==> r.Idle?
    ensures s.Error? ==> r == Error(s.message)
    ensures s.Content? && other.Idle? ==> r.Idle?
    ensures s.Content? && other.Error? ==> r == Error(other.message)
    ensures s.Content? && other.Content? ==> r == Content((s.data, other.data))
  {
    FlatMap(s, t => Map(other, (u: R) => (t, u)))
  }

  /** `combine`: like `zip`, but the two payloads are merged by `transform`. */
  function Combine<T, U, R>(s: TriState<T>, other: TriState<U>, transform: (T, U) -> R)
    : (r: TriState<R>)
    ensures s.Idle? ==> r.Idle?
    ensures s.Error? ==> r == Error(s.message)
    ensures s.Content? && other.Idle? ==> r.Idle?
    ensures s.Content? && other.Error? ==> r == Error(other.message)
    ensures s.Content? && other.Content? ==> r == Content(transform(s.data, other.data))
  {
    FlatMap(s, t => Map(other, (u: U) => transform(t, u)))
  }

  /** `flatten`: removes one level of nesting. */
  function Flatten<T>(s: TriState<TriState<T>>): (r: TriState<T>)
    ensures s.Idle? ==> r.Idle?
    ensures s.Error? ==> r == Error(s.message)
    ensures s.Content? ==> r == s.data
  {
    FlatMap(s, (inner: TriState<T>) => inner)
  }
}
