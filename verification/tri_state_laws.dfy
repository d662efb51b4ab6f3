/** Algebraic laws of the tri-state combinators: each combinator related to a
    partner (its inverse, an invariant it keeps, or another combinator that
    defines the same thing). */
module TriStateLaws {
  import opened Optional
  import opened TriStates

  // ---------------------------------------------------------------------------
  // Variants

  /** Exactly one of `isIdle`, `isError`, `isContent` holds. */
  lemma ExactlyOneVariant<T>(s: TriState<T>)
    ensures IsIdle(s) || IsError(s) || IsContent(s)
    ensures !(IsIdle(s) && IsError(s))
    ensures !(IsIdle(s) && IsContent(s))
    ensures !(IsError(s) && IsContent(s))
  {
  }

  // ---------------------------------------------------------------------------
  // Functor laws

  /** Mapping the identity changes nothing. */
  lemma MapIdentity<T>(s: TriState<T>)
    ensures Map(s, (x: T) => x) == s
  {
  }

  /** Mapping twice is mapping the composition. */
  lemma MapComposition<T, U, R>(s: TriState<T>, f: T -> U, g: U -> R)
    ensures Map(Map(s, f), g) == Map(s, (x: T) => g(f(x)))
  {
  }

  /** `map` is `flatMap` followed by the unit. */
  lemma MapIsFlatMapPure<T, R>(s: TriState<T>, f: T -> R)
    ensures Map(s, f) == FlatMap(s, (x: T) => Pure(f(x)))
  {
  }

  // ---------------------------------------------------------------------------
  // Monad laws

  /** Left identity: `pure(x).flatMap(f) == f(x)`. */
  lemma FlatMapLeftIdentity<T, R>(x: T, f: T -> TriState<R>)
    ensures FlatMap(Pure(x), f) == f(x)
  {
  }

  /** Right identity: `m.flatMap(pure) == m`. */
  lemma FlatMapRightIdentity<T>(m: TriState<T>)
    ensures FlatMap(m, (x: T) => Pure(x)) == m
  {
  }

  /** Associativity. */
  lemma FlatMapAssociativity<T, U, R>(m: TriState<T>, f: T -> TriState<U>, g: U -> TriState<R>)
    ensures FlatMap(FlatMap(m, f), g) == FlatMap(m, (x: T) => FlatMap(f(x), g))
  {
  }

  /** The monad laws in terms of `flatten`: wrapping a state and flattening it
      changes nothing, wrapping every payload and flattening changes nothing,
      and flattening a triple nesting from the outside or from the inside
      gives the same state. */
  lemma FlattenLaws<T>(m: TriState<T>, s: TriState<TriState<TriState<T>>>)
    ensures Flatten(Pure(m)) == m
    ensures Flatten(Map(m, (x: T) => Pure(x))) == m
    ensures Flatten(Flatten(s)) == Flatten(Map(s, (inner: TriState<TriState<T>>) => Flatten(inner)))
  {
  }

  /** `flatMap` is `map` then `flatten`. */
  lemma FlatMapIsMapThenFlatten<T, R>(s: TriState<T>, f: T -> TriState<R>)
    ensures FlatMap(s, f) == Flatten(Map(s, f))
  {
  }

  // ---------------------------------------------------------------------------
  // fold is the universal eliminator

  /** Folding with the three constructors rebuilds the receiver. */
  lemma FoldWithConstructors<T>(s: TriState<T>)
    ensures Fold(s, (x: T) => Content(x), (m: string) => Error(m), () => Idle) == s
  {
  }

  /** The combinators are particular folds. */
  lemma CombinatorsAreFolds<T, R>(s: TriState<T>, f: T -> R, g: T -> TriState<R>, d: T)
    ensures Map(s, f) == Fold(s, (x: T) => Content(f(x)), (m: string) => Error(m), () => Idle)
    ensures FlatMap(s, g) == Fold(s, g, (m: string) => Error(m), () => Idle)
    ensures GetOrNull(s) == Fold(s, (x: T) => Some(x), (m: string) => None, () => None)
    ensures GetErrorMessage(s) == Fold(s, (x: T) => None, (m: string) => Some(m), () => None)
    ensures GetOrDefault(s, d) == Fold(s, (x: T) => x, (m: string) => d, () => d)
  {
  }

  // ---------------------------------------------------------------------------
  // Taps

  /** `onEach` is the chain `onIdle`, then `onError`, then `onContent`: same
      receiver back, same effects in the same order. */
  lemma OnEachIsChainedTaps<T, E>(s: TriState<T>, i: () -> E, e: string -> E, c: T -> E)
    ensures var a := OnIdle(s, i);
            var b := OnError(a.state, e);
            var d := OnContent(b.state, c);
            OnEach(s, i, e, c) == Tapped(d.state, a.fired + b.fired + d.fired)
  {
  }

  // ---------------------------------------------------------------------------
  // Extraction

  /** Rebuilds a state from what `getOrNull` and `getErrorMessage` report. */
  function FromExtracted<T>(payload: Option<T>, message: Option<string>): TriState<T>
  {
    match (payload, message)
    case (Some(x), _) => Content(x)
    case (None, Some(m)) => Error(m)
    case (None, None) => Idle
  }

  /** The two extractors together lose nothing. */
  lemma ExtractorsDetermineState<T>(s: TriState<T>)
    ensures FromExtracted(GetOrNull(s), GetErrorMessage(s)) == s
  {
  }

  /** The value and supplier forms of `getOrDefault` agree, and the default
      matters only when there is no payload. */
  lemma GetOrDefaultForms<T>(s: TriState<T>, supplier: () -> T, d1: T, d2: T)
    ensures GetOrDefaultWith(s, supplier) == GetOrDefault(s, supplier())
    ensures GetOrDefault(s, d1) == (match GetOrNull(s) case Some(x) => x case None => d1)
    ensures s.Content? ==> GetOrDefault(s, d1) == GetOrDefault(s, d2)
  {
  }

  // ---------------------------------------------------------------------------
  // effect

  /** What the extractors report about `effect`'s result determines the
      action's outcome, up to the fallback message. */
  lemma EffectExtracted<T>(action: Outcome<T>, v: T, m: string)
    ensures GetOrNull(Effect(action)) == Some(v) <==> action == Returned(v)
    ensures GetErrorMessage(Effect(action)) == Some(m)
        <==> action == Threw(Some(m)) || (action == Threw(None) && m == UnknownErrorMessage)
  {
  }

  // ---------------------------------------------------------------------------
  // Recovery

  /** `recover` is `recoverWith` whose transform always succeeds. */
  lemma RecoverIsRecoverWithContent<T>(s: TriState<T>, f: string -> T)
    ensures Recover(s, f) == RecoverWith(s, (m: string) => Content(f(m)))
  {
  }

  /** Recovering an idle state leaves it idle, whatever the transform. */
  lemma RecoverKeepsIdle<T>(f: string -> T, g: string -> TriState<T>)
    ensures Recover(Idle, f) == Idle
    ensures RecoverWith(Idle, g) == Idle
  {
  }

  /** A second `recover` has nothing left to heal. */
  lemma RecoverIdempotent<T>(s: TriState<T>, f: string -> T, g: string -> T)
    ensures Recover(Recover(s, f), g) == Recover(s, f)
  {
  }

  /** `recoverWith` is a bind on the error side: `error` is its unit on both
      sides, and it is associative. */
  lemma RecoverWithLaws<T>(s: TriState<T>, m: string, f: string -> TriState<T>, g: string -> TriState<T>)
    ensures RecoverWith(Error(m), f) == f(m)
    ensures RecoverWith(s, (n: string) => Error(n)) == s
    ensures RecoverWith(RecoverWith(s, f), g) == RecoverWith(s, (n: string) => RecoverWith(f(n), g))
  {
  }

  /** `recover` and `map` act on disjoint variants, so they commute when the
      recovery transform is mapped too. */
  lemma RecoverMapCommute<T, R>(s: TriState<T>, f: T -> R, h: string -> T)
    ensures Map(Recover(s, h), f) == Recover(Map(s, f), (m: string) => f(h(m)))
  {
  }

  // ---------------------------------------------------------------------------
  // zip and combine

  /** A receiver that is not `Content` never consults `other`. */
  lemma ZipIgnoresOtherAfterShortCircuit<T, R>(s: TriState<T>, o1: TriState<R>, o2: TriState<R>)
    requires !s.Content?
    ensures Zip(s, o1) == Zip(s, o2)
  {
  }

  /** `combine` is `zip` followed by mapping the pair through the transform. */
  lemma CombineIsZipThenMap<T, U, R>(s: TriState<T>, o: TriState<U>, f: (T, U) -> R)
    ensures Combine(s, o, f) == Map(Zip(s, o), (p: (T, U)) => f(p.0, p.1))
  {
  }

  /** `zip` pairs exactly when both sides have a payload, and projecting the
      pair gives the two payloads back. */
  lemma ZipProjections<T, R>(s: TriState<T>, o: TriState<R>)
    ensures Zip(s, o).Content? <==> s.Content? && o.Content?
    ensures s.Content? && o.Content? ==> Map(Zip(s, o), (p: (T, R)) => p.0) == s
    ensures s.Content? && o.Content? ==> Map(Zip(s, o), (p: (T, R)) => p.1) == o
  {
  }
}
