/** The outcomes the library's translator tests expect, derived from the
    model, and one pipeline from a document through interpolation. */
module TranslatorScenarios {
  import opened Results
  import opened Properties
  import opened Yaml
  import opened Interpolators
  import opened Translators
  import InterpolatorScenarios
  import YamlScenarios

  function Failing(): Translator
  {
    TranslatorFunc((key, props) => Err(Custom("some error")))
  }

  function Prefixing(): Translator
  {
    TranslatorFunc((key, props) => Ok("translated " + key))
  }

  function FailingInterpolator(): Interpolator
  {
    InterpolatorFunc((text, props) => Err(Custom("some error")))
  }

  function PrefixingInterpolator(): Interpolator
  {
    InterpolatorFunc((text, props) => Ok("interpolated " + text))
  }

  lemma DefaultReplacesFailure(props: TranslationProperties)
    ensures Translators.Translate(WithDefaultTranslation("lost in translation", Failing()), "my translation key", props)
            == Ok("lost in translation")
    ensures Translators.Translate(WithDefaultTranslation("lost in translation", Prefixing()), "my translation key", props)
            == Ok("translated my translation key")
  {
    assert "translated " + "my translation key" == "translated my translation key";
  }

  lemma KeyReplacesFailure(props: TranslationProperties)
    ensures Translators.Translate(KeyAsDefault(Failing()), "my.key", props) == Ok("my.key")
    ensures Translators.Translate(KeyAsDefault(Prefixing()), "my.key", props) == Ok("translated my.key")
  {
    assert "translated " + "my.key" == "translated my.key";
  }

  lemma InterpolatedOutcomes(props: TranslationProperties)
    ensures Translators.Translate(InterpolatedTranslator(Failing(), PrefixingInterpolator()), "my.key", props).Err?
    ensures Translators.Translate(InterpolatedTranslator(Prefixing(), FailingInterpolator()), "my.key", props).Err?
    ensures Translators.Translate(InterpolatedTranslator(Prefixing(), PrefixingInterpolator()), "my.key", props)
            == Ok("interpolated translated my.key")
  {
    assert Translators.Translate(Failing(), "my.key", props) == Err(Custom("some error"));
    assert "translated " + "my.key" == "translated my.key";
    assert Translators.Translate(Prefixing(), "my.key", props) == Ok("translated my.key");
    assert Run(PrefixingInterpolator(), "translated my.key", props) == Ok("interpolated " + "translated my.key");
    assert Run(FailingInterpolator(), "translated my.key", props).Err?;
    InterpolatedTranslation(Failing(), PrefixingInterpolator(), "my.key", props);
    InterpolatedTranslation(Prefixing(), FailingInterpolator(), "my.key", props);
    InterpolatedTranslation(Prefixing(), PrefixingInterpolator(), "my.key", props);
    assert "interpolated " + "translated my.key" == "interpolated translated my.key";
  }

  /** The one-entry document whose translation holds a placeholder. */
  function GreetingDocument(): map<string, Generic>
  {
    map["greeting" := Scalar("my name is %{name}")]
  }

  lemma GreetingLookup()
    ensures Yaml.Translate(YamlTranslator(".", NormalizedMap(GreetingDocument())), "greeting")
            == Ok("my name is %{name}")
  {
    YamlScenarios.LastSegment("greeting");
    TranslateDocument(GreetingDocument(), ".", "greeting");
  }

  /** A translation found in a document, with its placeholder filled in from a
      map of properties. */
  lemma DocumentThenPlaceholders()
    ensures Translators.Translate(
              InterpolatedTranslator(YamlLookup(YamlTranslator(".", NormalizedMap(GreetingDocument()))), Placeholders),
              "greeting", InterpolatorScenarios.Profile())
            == Ok("my name is Alan Ginsberg")
  {
    GreetingLookup();
    InterpolatorScenarios.FoundPropertyIsUsed();
  }
}
