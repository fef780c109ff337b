/** Translator composition (translator.go).

    A translator is built from a tree lookup or a caller-supplied function and
    then wrapped: with a default translation, with the key as its own default,
    or with an interpolator applied to what the wrapped translator answers. The
    wrappers hold no state; each call only calls the wrapped components with
    the same key and property source and branches on their outcome. */
module Translators {
  import opened Results
  import opened Properties
  import Yaml
  import Interpolators

  datatype Translator =
      /** The tree-backed translator; it does not use the property source. */
    | YamlLookup(yaml: Yaml.YamlTranslator)
      /** `NewDefaultTranslator(translation, inner)`. */
    | WithDefaultTranslation(translation: string, inner: Translator)
      /** `NewKeyAsDefaultTranslator(inner)`. */
    | KeyAsDefault(inner: Translator)
      /** `NewInterpolatedTranslator(inner, interpolator)`. */
    | InterpolatedTranslator(inner: Translator, interpolator: Interpolators.Interpolator)
      /** `TranslatorFunc(f)`: any caller-supplied translation. */
    | TranslatorFunc(f: (string, TranslationProperties) -> Result<string>)

  /** Evaluates a composed translator, recording each leaf call. A leaf works
      on exactly the key (or translation) and property source its call
      records; the interpolator is only reached on a successful translation. */
  function Evaluate(t: Translator, key: string, props: TranslationProperties): Traced
  {
    match t
    case YamlLookup(y) =>
      var call := Invocation(TreeLookup, key, props);
      Traced(Yaml.Translate(y, call.input), [call])
    case WithDefaultTranslation(translation, inner) =>
      var e := Evaluate(inner, key, props);
      Traced(if e.result.Ok? then e.result else Ok(translation), e.calls)
    case KeyAsDefault(inner) =>
      var e := Evaluate(inner, key, props);
      Traced(if e.result.Ok? then e.result else Ok(key), e.calls)
    case InterpolatedTranslator(inner, interpolator) =>
      var e := Evaluate(inner, key, props);
      if e.result.Err? then e
      else
        var ie := Interpolators.Evaluate(interpolator, e.result.value, props);
        Traced(if ie.result.Ok? then ie.result else Err(Translating(key, ie.result.error)), e.calls + ie.calls)
    case TranslatorFunc(f) =>
      var call := Invocation(CustomTranslator, key, props);
      Traced(f(call.input, call.props), [call])
  }

  /** `Translate(key, props)` on a composed translator. The two default
      wrappers never fail: they pass a successful translation through unchanged
      and answer their fallback (the fixed translation, or the key itself) when
      the wrapped translator fails. */
  function Translate(t: Translator, key: string, props: TranslationProperties): (r: Result<string>)
    ensures t.WithDefaultTranslation? ==> r.Ok?
    ensures t.WithDefaultTranslation? && Translate(t.inner, key, props).Ok? ==> r == Translate(t.inner, key, props)
    ensures t.WithDefaultTranslation? && Translate(t.inner, key, props).Err? ==> r.value == t.translation
    ensures t.KeyAsDefault? ==> r.Ok?
    ensures t.KeyAsDefault? && Translate(t.inner, key, props).Ok? ==> r == Translate(t.inner, key, props)
    ensures t.KeyAsDefault? && Translate(t.inner, key, props).Err? ==> r.value == key
  {
    Evaluate(t, key, props).result
  }

  /** The interpolated wrapper succeeds exactly when the wrapped translator and
      then the interpolator, run on that translation, both succeed, and answers
      the interpolated translation. A failing translation is reported as it is;
      a failing interpolation is reported for the key, and the raw translation
      is never answered in its place. */
  lemma InterpolatedTranslation(inner: Translator, i: Interpolators.Interpolator, key: string, props: TranslationProperties)
    ensures var r := Translate(InterpolatedTranslator(inner, i), key, props);
            var t := Translate(inner, key, props);
            && (r.Ok? <==> t.Ok? && Interpolators.Run(i, t.value, props).Ok?)
            && (r.Ok? ==> r.value == Interpolators.Run(i, t.value, props).value)
            && (t.Err? ==> r == t)
            && (t.Ok? && Interpolators.Run(i, t.value, props).Err? ==>
                  r == Err(Translating(key, Interpolators.Run(i, t.value, props).error)))
  {
  }

  /** The leaf components a translation calls, in order, with what each is
      given. */
  function Invocations(t: Translator, key: string, props: TranslationProperties): seq<Invocation>
  {
    Evaluate(t, key, props).calls
  }

  /** Every component a composed translator calls is handed the very property
      source the translator was given, and at least one component is called. */
  lemma {:induction false} TranslatorForwards(t: Translator, key: string, props: TranslationProperties)
    ensures Invocations(t, key, props) != []
    ensures forall k :: 0 <= k < |Invocations(t, key, props)| ==> Invocations(t, key, props)[k].props == props
  {
    match t
    case YamlLookup(_) =>
    case WithDefaultTranslation(_, inner) => TranslatorForwards(inner, key, props);
    case KeyAsDefault(inner) => TranslatorForwards(inner, key, props);
    case InterpolatedTranslator(inner, interpolator) =>
      TranslatorForwards(inner, key, props);
      if Translate(inner, key, props).Ok? {
        Interpolators.InterpolatorForwards(interpolator, Translate(inner, key, props).value, props);
      }
    case TranslatorFunc(_) =>
  }

  /** The interpolated wrapper calls the wrapped translator first, with the
      key; when that succeeds it then calls one interpolator component, on the
      translation; when it fails nothing else is called. */
  lemma InterpolatedCallOrder(inner: Translator, i: Interpolators.Interpolator, key: string, props: TranslationProperties)
    ensures var calls := Invocations(InterpolatedTranslator(inner, i), key, props);
            && calls[..|Invocations(inner, key, props)|] == Invocations(inner, key, props)
            && (Translate(inner, key, props).Err? ==> calls == Invocations(inner, key, props))
            && (Translate(inner, key, props).Ok? ==>
                  |calls| == |Invocations(inner, key, props)| + 1
                  && calls[|calls| - 1].input == Translate(inner, key, props).value
                  && calls[|calls| - 1].props == props)
  {
    if Translate(inner, key, props).Ok? {
      Interpolators.InterpolatorForwards(i, Translate(inner, key, props).value, props);
    }
  }

  /** Of two nested default wrappers only the inner one ever answers a
      failure: the outer fallback is unreachable, so the order of wrapping
      decides whether the fixed translation or the key comes back. */
  lemma InnermostDefaultWins(t: Translator, translation: string, key: string, props: TranslationProperties)
    requires Translate(t, key, props).Err?
    ensures Translate(KeyAsDefault(WithDefaultTranslation(translation, t)), key, props) == Ok(translation)
    ensures Translate(WithDefaultTranslation(translation, KeyAsDefault(t)), key, props) == Ok(key)
  {
  }
}
