/** Property sources (properties.go): where an interpolation gets the value of a
    named property. A source is a value: looking a name up never changes it, so
    repeated queries for the same name always agree. */
module Properties {
  import opened Results

  datatype TranslationProperties =
      /** `NewTranslationProperties(values)`: a read of a fixed map. */
    | FromMap(values: map<string, string>)
      /** `NewTranslationPropertiesWithDefault(inner, fallback)`. */
    | WithDefault(inner: TranslationProperties, fallback: string)
      /** `TranslationPropertiesFunc(f)`: any caller-supplied lookup. */
    | PropertiesFunc(f: string -> Result<string>)

  /** `Property(name)` on a source. A map-backed source answers exactly for the
      names in its map and fails with `PropertyNotAvailable` otherwise; a
      defaulted source never fails, passes every successful inner answer through
      (the empty string included) and answers the fallback where the inner
      source fails. */
  function Property(ps: TranslationProperties, name: string): (r: Result<string>)
    ensures ps.FromMap? ==> (r.Ok? <==> name in ps.values)
    ensures ps.FromMap? && name in ps.values ==> r.value == ps.values[name]
    ensures ps.FromMap? && name !in ps.values ==> r.error == PropertyNotAvailable
    ensures ps.WithDefault? ==> r.Ok?
    ensures ps.WithDefault? && Property(ps.inner, name).Ok? ==> r == Property(ps.inner, name)
    ensures ps.WithDefault? && Property(ps.inner, name).Err? ==> r.value == ps.fallback
  {
    match ps
    case FromMap(values) =>
      if name in values then Ok(values[name]) else Err(PropertyNotAvailable)
    case WithDefault(inner, fallback) =>
      (match Property(inner, name)
       case Ok(v) => Ok(v)
       case Err(_) => Ok(fallback))
    case PropertiesFunc(f) => f(name)
  }

  /** A source that answers every name. */
  ghost predicate NeverFails(ps: TranslationProperties)
  {
    forall name :: Property(ps, name).Ok?
  }

  /** Wrapping any source with a default makes it total, and the wrapper agrees
      with the wrapped source wherever that one answers. */
  lemma WithDefaultIsTotal(inner: TranslationProperties, fallback: string)
    ensures NeverFails(WithDefault(inner, fallback))
    ensures forall name :: Property(inner, name).Ok? ==>
              Property(WithDefault(inner, fallback), name) == Property(inner, name)
  {
  }

  /** A leaf component of a composed translator or interpolator. */
  datatype Component = PlaceholderInterpolator | CustomInterpolator | TreeLookup | CustomTranslator

  /** A call of a leaf component during an evaluation: what it was given to
      work on and the property source it was handed. */
  datatype Invocation = Invocation(component: Component, input: string, props: TranslationProperties)

  /** The outcome of an evaluation together with the leaf component calls
      that produced it, in the order they were made. */
  datatype Traced = Traced(result: Result<string>, calls: seq<Invocation>)
}
