/** The lookups of the library's tree-translator tests, derived from the
    model: each lemma states the outcome the test expects for a document. */
module YamlScenarios {
  import opened Results
  import opened Text
  import opened Yaml

  /** A key segment followed by the default separator and the rest of the key. */
  lemma LeadingSegment(segment: string, rest: string)
    requires forall k :: 0 <= k < |segment| ==> segment[k] != '.'
    ensures KeyPath(".", segment + "." + rest) == [segment] + KeyPath(".", rest)
  {
    var key := segment + "." + rest;
    forall j | 0 <= j < |segment| ensures !OccursAt(key, ".", j) {
      assert key[j] == segment[j];
    }
    SplitAfterFirst(segment, ".", rest);
  }

  /** A key without the default separator is a single segment. */
  lemma LastSegment(segment: string)
    requires forall k :: 0 <= k < |segment| ==> segment[k] != '.'
    ensures KeyPath(".", segment) == [segment]
  {
    AbsentFirstChar(segment, ".");
    SplitAbsent(segment, ".");
  }

  /** The document with nested keys and a list. */
  function Greetings(): map<string, Generic>
  {
    map[
      "greetings" := Mapping(map[
        "hello" := Scalar("Hello!"),
        "bye" := Mapping(map["night" := Scalar("Good night!"), "afternoon" := Scalar("Good afternoon!")])]),
      "numbers" := Sequence([Scalar("zero"), Scalar("one"), Scalar("two"), Scalar("three")])]
  }

  /** The document with two top-level translations. */
  function Shallow(): map<string, Generic>
  {
    map["hello" := Scalar("Hello!"), "bye" := Scalar("Good bye")]
  }

  lemma GreetingsHelloPath()
    ensures KeyPath(".", "greetings.hello") == ["greetings", "hello"]
  {
    assert "greetings.hello" == "greetings" + "." + "hello";
    LeadingSegment("greetings", "hello");
    LastSegment("hello");
  }

  lemma NestedKeyFound()
    ensures Translate(YamlTranslator(".", NormalizedMap(Greetings())), "greetings.hello") == Ok("Hello!")
  {
    GreetingsHelloPath();
    TranslateDocument(Greetings(), ".", "greetings.hello");
  }

  lemma BranchKeyIncomplete()
    ensures Translate(YamlTranslator(".", NormalizedMap(Greetings())), "greetings")
            == Err(Translating("greetings", IncompletePath))
  {
    LastSegment("greetings");
    TranslateDocument(Greetings(), ".", "greetings");
  }

  /** A list index segment after a key segment. */
  lemma IndexPath(key: string, index: string)
    requires forall k :: 0 <= k < |key| ==> key[k] != '.'
    requires forall k :: 0 <= k < |index| ==> index[k] != '.'
    ensures KeyPath(".", key + "." + index) == [key, index]
  {
    LeadingSegment(key, index);
    LastSegment(index);
  }

  /** The document's list of numbers, one step below the root. */
  lemma NumbersList()
    ensures Child(Mapping(Greetings()), "numbers")
            == Some(Sequence([Scalar("zero"), Scalar("one"), Scalar("two"), Scalar("three")]))
  {
  }

  /** Walking to a list element: the list is reached, then the numeral. */
  lemma NumbersAt(index: string)
    ensures GenericAt(Mapping(Greetings()), ["numbers", index])
            == GenericAt(Sequence([Scalar("zero"), Scalar("one"), Scalar("two"), Scalar("three")]), [index])
  {
    NumbersList();
    assert ["numbers", index][1..] == [index];
  }

  lemma FirstNumber()
    ensures GenericAt(Sequence([Scalar("zero"), Scalar("one"), Scalar("two"), Scalar("three")]), ["0"])
            == Some(Scalar("zero"))
  {
    assert IsCanonicalDecimal("0") && DecimalValue("0") == 0;
  }

  lemma PastLastNumber()
    ensures GenericAt(Sequence([Scalar("zero"), Scalar("one"), Scalar("two"), Scalar("three")]), ["4"]) == None
  {
    assert DecimalValue("4") == 4;
  }

  lemma ListElementFound()
    ensures Translate(YamlTranslator(".", NormalizedMap(Greetings())), "numbers.0") == Ok("zero")
  {
    assert "numbers.0" == "numbers" + "." + "0";
    IndexPath("numbers", "0");
    NumbersAt("0");
    FirstNumber();
    TranslateDocument(Greetings(), ".", "numbers.0");
  }

  lemma ListIndexOutOfRange()
    ensures Translate(YamlTranslator(".", NormalizedMap(Greetings())), "numbers.4")
            == Err(Translating("numbers.4", NotFound))
  {
    assert "numbers.4" == "numbers" + "." + "4";
    IndexPath("numbers", "4");
    NumbersAt("4");
    PastLastNumber();
    TranslateDocument(Greetings(), ".", "numbers.4");
  }

  lemma TwoSegments()
    ensures KeyPath(".", "my.key") == ["my", "key"]
  {
    assert "my.key" == "my" + "." + "key";
    LeadingSegment("my", "key");
    LastSegment("key");
  }

  lemma ThreeSegments()
    ensures KeyPath(".", "hello.my.key") == ["hello", "my", "key"]
  {
    assert "hello.my.key" == "hello" + "." + "my.key";
    LeadingSegment("hello", "my.key");
    TwoSegments();
  }

  lemma KeyPastLeafNotFound()
    ensures Translate(YamlTranslator(".", NormalizedMap(Shallow())), "hello.my.key")
            == Err(Translating("hello.my.key", NotFound))
  {
    ThreeSegments();
    TranslateDocument(Shallow(), ".", "hello.my.key");
  }
}
