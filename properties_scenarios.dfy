/** The outcomes the library's property-source tests expect, derived from the
    model. */
module PropertiesScenarios {
  import opened Results
  import opened Properties

  /** A map-backed source answers the names in its map and no others. */
  lemma MapSourceOutcomes()
    ensures Property(FromMap(map[]), "prop") == Err(PropertyNotAvailable)
    ensures Property(FromMap(map["prop" := "my value"]), "prop") == Ok("my value")
    ensures Property(FromMap(map["prop" := "my value"]), "other prop") == Err(PropertyNotAvailable)
    ensures Property(FromMap(map["my other prop" := "other value", "prop" := "my value"]), "yet another prop")
            == Err(PropertyNotAvailable)
  {
  }

  /** A defaulted source keeps the wrapped answer, even an empty one, and
      answers the fallback where the wrapped source fails. */
  lemma DefaultedSourceOutcomes()
    ensures Property(WithDefault(PropertiesFunc(name => Ok("value")), "default value"), "property") == Ok("value")
    ensures Property(WithDefault(PropertiesFunc(name => Ok("")), "default value"), "property") == Ok("")
    ensures Property(WithDefault(PropertiesFunc(name => Err(Custom("some error"))), "default value"), "property")
            == Ok("default value")
  {
  }
}
