/** The template scenarios of the library's interpolator tests, derived from the
    model: each lemma states the outcome the test expects. */
module InterpolatorScenarios {
  import opened Results
  import opened Text
  import opened Properties
  import opened Interpolators

  /** The profile the tests interpolate from. */
  function Profile(): TranslationProperties
  {
    FromMap(map["name" := "Alan Ginsberg", "hobby" := "writing poems", "favorite music" := "jazz"])
  }

  /** Replacing a pattern that occurs once, after text that cannot start it. */
  lemma ReplaceOnce(before: string, pattern: string, after: string, replacement: string)
    requires pattern != []
    requires forall k :: 0 <= k < |before| ==> before[k] != pattern[0]
    requires !Contains(after, pattern)
    ensures ReplaceAll(before + pattern + after, pattern, replacement) == before + replacement + after
  {
    var text := before + pattern + after;
    forall j | 0 <= j < |before| ensures !OccursAt(text, pattern, j) {
      assert text[j] == before[j];
    }
    SplitAfterFirst(before, pattern, after);
    SplitAbsent(after, pattern);
    ReplaceAllIsJoinOfSplit(text, pattern, replacement);
  }

  lemma EmptyTemplate()
    ensures Interpolated("", Profile()) == Ok("")
  {
    NoMatchUnchanged("", Profile());
  }

  /** `%{}` has an empty name, so it is not a declaration. */
  lemma EmptyNameIsLiteral()
    ensures Interpolated("this text %{}", Profile()) == Ok("this text %{}")
  {
    var text := "this text %{}";
    forall m | IsMatch(text, m) ensures false {
      MatchChars(text, m);
    }
    NoMatchUnchanged(text, Profile());
  }

  /** A template whose only declaration resolves to `value` has every
      occurrence of that declaration replaced by `value`. */
  lemma OnlyDeclarationResolved(text: string, d: Interpolation, props: TranslationProperties, value: string)
    requires Interpolations(text) == [d] && Resolve(d, props) == Ok(value)
    ensures d.literal != [] && Interpolated(text, props) == Ok(ReplaceAll(text, d.literal, value))
  {
    InterpolationsLiteralsNonEmpty(text);
    assert Interpolations(text)[0] == d;
    var next := ReplaceAll(text, d.literal, value);
    assert [d][1..] == [];
    assert SubstituteAll(text, [d], props) == SubstituteAll(next, [], props) == Ok(next);
  }

  /** A template holding one declaration and no other `%`, whose declaration
      resolves to `value`: the declaration is replaced by `value`. */
  lemma OneDeclarationReplaced(before: string, lit: string, name: string, group: string, after: string,
                               props: TranslationProperties, value: string)
    requires IsName(name) && IsDefaultGroup(group) && lit == "%{" + name + group + "}"
    requires forall k :: 0 <= k < |before| ==> before[k] != '%'
    requires forall k :: 0 <= k < |after| ==> after[k] != '%'
    requires Resolve(Interpolation(lit, name, group != [], if group != [] then group[1..] else ""), props) == Ok(value)
    ensures Interpolated(before + lit + after, props) == Ok(before + value + after)
  {
    OneDeclaration(before, lit, name, group, after);
    OnlyDeclarationResolved(before + lit + after, Interpolation(lit, name, group != [], if group != [] then group[1..] else ""), props, value);
    AbsentFirstChar(after, lit);
    ReplaceOnce(before, lit, after, value);
  }

  /** A template whose two declarations both resolve is substituted twice, the
      second time in the text the first substitution left. */
  lemma BothDeclarationsResolved(text: string, d1: Interpolation, d2: Interpolation,
                                 props: TranslationProperties, v1: string, v2: string)
    requires Interpolations(text) == [d1, d2]
    requires Resolve(d1, props) == Ok(v1) && Resolve(d2, props) == Ok(v2)
    ensures d1.literal != [] && d2.literal != []
    ensures Interpolated(text, props) == Ok(ReplaceAll(ReplaceAll(text, d1.literal, v1), d2.literal, v2))
  {
    InterpolationsLiteralsNonEmpty(text);
    assert Interpolations(text)[0] == d1 && Interpolations(text)[1] == d2;
    var t1 := ReplaceAll(text, d1.literal, v1);
    var t2 := ReplaceAll(t1, d2.literal, v2);
    assert [d1, d2][1..] == [d2] && [d2][1..] == [];
    assert SubstituteAll(text, [d1, d2], props) == SubstituteAll(t1, [d2], props);
    assert SubstituteAll(t1, [d2], props) == SubstituteAll(t2, [], props) == Ok(t2);
  }

  /** Replacing two patterns in turn, each occurring once after text that
      cannot start it. */
  lemma ReplaceTwice(before: string, lit1: string, middle: string, lit2: string, after: string, v1: string, v2: string)
    requires lit1 != [] && lit2 != [] && lit1[0] == '%' && lit2[0] == '%'
    requires forall k :: 0 <= k < |before| ==> before[k] != '%'
    requires forall k :: 0 <= k < |middle| ==> middle[k] != '%'
    requires forall k :: 0 <= k < |after| ==> after[k] != '%'
    requires forall k :: 0 <= k < |v1| ==> v1[k] != '%'
    requires !Contains(middle + lit2 + after, lit1)
    ensures ReplaceAll(ReplaceAll(before + lit1 + middle + lit2 + after, lit1, v1), lit2, v2)
            == before + v1 + middle + v2 + after
  {
    assert before + lit1 + middle + lit2 + after == before + lit1 + (middle + lit2 + after);
    ReplaceOnce(before, lit1, middle + lit2 + after, v1);
    var prefix := before + v1 + middle;
    assert before + v1 + (middle + lit2 + after) == prefix + lit2 + after;
    assert forall k :: 0 <= k < |prefix| ==> prefix[k] != '%';
    AbsentFirstChar(after, lit2);
    ReplaceOnce(prefix, lit2, after, v2);
  }

  /** A template holding two declarations and no other `%`, each resolving to
      a value without `%`, where the first declaration's text does not occur
      after it: each declaration is replaced by its value. */
  lemma TwoDeclarationsReplaced(before: string, lit1: string, name1: string, group1: string, middle: string,
                                lit2: string, name2: string, group2: string, after: string,
                                props: TranslationProperties, v1: string, v2: string)
    requires IsName(name1) && IsDefaultGroup(group1) && lit1 == "%{" + name1 + group1 + "}"
    requires IsName(name2) && IsDefaultGroup(group2) && lit2 == "%{" + name2 + group2 + "}"
    requires forall k :: 0 <= k < |before| ==> before[k] != '%'
    requires forall k :: 0 <= k < |middle| ==> middle[k] != '%'
    requires forall k :: 0 <= k < |after| ==> after[k] != '%'
    requires forall k :: 0 <= k < |v1| ==> v1[k] != '%'
    requires !Contains(middle + lit2 + after, lit1)
    requires Resolve(Interpolation(lit1, name1, group1 != [], if group1 != [] then group1[1..] else ""), props) == Ok(v1)
    requires Resolve(Interpolation(lit2, name2, group2 != [], if group2 != [] then group2[1..] else ""), props) == Ok(v2)
    ensures Interpolated(before + lit1 + middle + lit2 + after, props) == Ok(before + v1 + middle + v2 + after)
  {
    TwoDeclarations(before, lit1, name1, group1, middle, lit2, name2, group2, after);
    BothDeclarationsResolved(before + lit1 + middle + lit2 + after,
      Interpolation(lit1, name1, group1 != [], if group1 != [] then group1[1..] else ""),
      Interpolation(lit2, name2, group2 != [], if group2 != [] then group2[1..] else ""), props, v1, v2);
    ReplaceTwice(before, lit1, middle, lit2, after, v1, v2);
  }

  lemma FoundPropertyIsUsed()
    ensures Interpolated("my name is %{name}", Profile()) == Ok("my name is Alan Ginsberg")
  {
    var lit := "%{name}";
    assert lit == "%{" + "name" + "" + "}";
    assert "my name is " + lit + "" == "my name is %{name}";
    assert "my name is " + "Alan Ginsberg" + "" == "my name is Alan Ginsberg";
    OneDeclarationReplaced("my name is ", lit, "name", "", "", Profile(), "Alan Ginsberg");
  }

  lemma FoundPropertyOverridesDefault()
    ensures Interpolated("my name is %{name|Frida Kahlo}", Profile()) == Ok("my name is Alan Ginsberg")
  {
    var lit := "%{name|Frida Kahlo}";
    assert lit == "%{" + "name" + "|Frida Kahlo" + "}";
    assert "my name is " + lit + "" == "my name is %{name|Frida Kahlo}";
    assert "my name is " + "Alan Ginsberg" + "" == "my name is Alan Ginsberg";
    OneDeclarationReplaced("my name is ", lit, "name", "|Frida Kahlo", "", Profile(), "Alan Ginsberg");
  }

  lemma MissingPropertyWithoutDefaultFails()
    ensures Interpolated("my name is %{firstname}", Profile()).Err?
  {
    var lit := "%{firstname}";
    assert lit == "%{" + "firstname" + "" + "}";
    assert "my name is " + lit + "" == "my name is %{firstname}";
    OneDeclaration("my name is ", lit, "firstname", "", "");
    SingleDeclaration("my name is %{firstname}", Profile());
  }

  lemma MissingPropertyUsesDefault()
    ensures Interpolated("my name is %{firstname|Frida}", Profile()) == Ok("my name is Frida")
  {
    var lit := "%{firstname|Frida}";
    assert lit == "%{" + "firstname" + "|Frida" + "}";
    assert "my name is " + lit + "" == "my name is %{firstname|Frida}";
    assert "my name is " + "Frida" + "" == "my name is Frida";
    OneDeclarationReplaced("my name is ", lit, "firstname", "|Frida", "", Profile(), "Frida");
  }

  /** `%{n|}` declares an empty default. */
  lemma EmptyDefault()
    ensures Interpolated("[%{n|}]", Profile()) == Ok("[]")
  {
    var lit := "%{n|}";
    assert lit == "%{" + "n" + "|" + "}";
    assert "|"[1..] == "";
    assert "[" + lit + "]" == "[%{n|}]";
    assert "[" + "" + "]" == "[]";
    OneDeclarationReplaced("[", lit, "n", "|", "]", Profile(), "");
  }

  lemma DefaultThenFoundSpelling()
    ensures "my name is " + "%{lastname|Ginsberg}" + ", " + "%{name}" + "" == "my name is %{lastname|Ginsberg}, %{name}"
    ensures "my name is " + "Ginsberg" + ", " + "Alan Ginsberg" + "" == "my name is Ginsberg, Alan Ginsberg"
  {
  }

  /** Two declarations: the first falls back to its default, the second is
      found. */
  lemma DefaultThenFound()
    ensures Interpolated("my name is %{lastname|Ginsberg}, %{name}", Profile()) == Ok("my name is Ginsberg, Alan Ginsberg")
  {
    var lit1 := "%{lastname|Ginsberg}";
    var lit2 := "%{name}";
    assert lit1 == "%{" + "lastname" + "|Ginsberg" + "}";
    assert lit2 == "%{" + "name" + "" + "}";
    DefaultThenFoundSpelling();
    assert !Contains(", " + lit2 + "", lit1) by {
      assert |", " + lit2 + ""| < |lit1|;
    }
    TwoDeclarationsReplaced("my name is ", lit1, "lastname", "|Ginsberg", ", ", lit2, "name", "", "",
                            Profile(), "Ginsberg", "Alan Ginsberg");
  }

  /** The clause after the first declaration of the two-property template
      does not contain that declaration's text. */
  lemma HobbyClauseLacksName(lit1: string, lit2: string)
    requires lit1 == "%{name}" && lit2 == "%{hobby}"
    ensures !Contains(" and I like " + lit2 + "", lit1)
  {
    var s := " and I like " + lit2 + "";
    assert |" and I like "| == 12;
    forall j ensures !OccursAt(s, lit1, j) {
      if 0 <= j && j + |lit1| <= |s| {
        assert s[j..j + |lit1|][0] == s[j];
        if j < 12 {
          assert s[j] == " and I like "[j];
        } else if j == 12 {
          assert s[j..j + |lit1|][2] == s[14] == 'h';
        } else {
          assert s[j] == lit2[j - 12];
        }
      }
    }
  }

  lemma TwoFoundSpelling()
    ensures "my name is " + "%{name}" + " and I like " + "%{hobby}" + "" == "my name is %{name} and I like %{hobby}"
  {
  }

  lemma TwoValuesSpelling()
    ensures "my name is " + "Alan Ginsberg" + " and I like " + "writing poems" + ""
            == "my name is Alan Ginsberg and I like writing poems"
  {
  }

  /** Two declarations without defaults, both found. */
  lemma TwoFound()
    ensures Interpolated("my name is %{name} and I like %{hobby}", Profile())
            == Ok("my name is Alan Ginsberg and I like writing poems")
  {
    var lit1 := "%{name}";
    var lit2 := "%{hobby}";
    assert lit1 == "%{" + "name" + "" + "}";
    assert lit2 == "%{" + "hobby" + "" + "}";
    TwoFoundSpelling();
    TwoValuesSpelling();
    HobbyClauseLacksName(lit1, lit2);
    TwoDeclarationsReplaced("my name is ", lit1, "name", "", " and I like ", lit2, "hobby", "", "",
                            Profile(), "Alan Ginsberg", "writing poems");
  }

  /** A caller-supplied interpolator that appends to the text. */
  function Appending(): Interpolator
  {
    InterpolatorFunc((text, props) => Ok(text + " - some text"))
  }

  /** A caller-supplied interpolator that always fails. */
  function Refusing(): Interpolator
  {
    InterpolatorFunc((text, props) => Err(Custom("property not available")))
  }

  /** The no-error wrapper passes a successful interpolation through and
      answers the original text for a failing one. */
  lemma NoErrorOutcomes(props: TranslationProperties)
    ensures Run(NoError(Appending()), "this text", props) == Ok("this text - some text")
    ensures Run(NoError(Refusing()), "this other text", props) == Ok("this other text")
  {
    assert "this text" + " - some text" == "this text - some text";
  }

  lemma LastnameThenName()
    ensures Interpolations("my name is %{lastname}, %{name}")
            == [Interpolation("%{lastname}", "lastname", false, ""), Interpolation("%{name}", "name", false, "")]
  {
    var lit1 := "%{lastname}";
    var lit2 := "%{name}";
    assert lit1 == "%{" + "lastname" + "" + "}";
    assert lit2 == "%{" + "name" + "" + "}";
    assert "my name is " + lit1 + ", " + lit2 + "" == "my name is %{lastname}, %{name}";
    TwoDeclarations("my name is ", lit1, "lastname", "", ", ", lit2, "name", "", "");
  }

  /** Two declarations, the first missing without a default: the error names
      the template and the source's error. */
  lemma FirstOfTwoMissingFails()
    ensures Interpolated("my name is %{lastname}, %{name}", Profile())
            == Err(Interpolating("my name is %{lastname}, %{name}", PropertyNotAvailable))
  {
    LastnameThenName();
    InterpolationsLiteralsNonEmpty("my name is %{lastname}, %{name}");
  }

  /** Of two declarations, the first resolves and the second does not: the
      error quotes the template with the first declaration replaced. */
  lemma SecondOfTwoFails(text: string, d1: Interpolation, d2: Interpolation, props: TranslationProperties,
                         v1: string, e: Error)
    requires Interpolations(text) == [d1, d2]
    requires Resolve(d1, props) == Ok(v1) && Resolve(d2, props) == Err(e)
    ensures d1.literal != []
    ensures Interpolated(text, props) == Err(Interpolating(ReplaceAll(text, d1.literal, v1), e))
  {
    InterpolationsLiteralsNonEmpty(text);
    assert Interpolations(text)[0] == d1 && Interpolations(text)[1] == d2;
    var t1 := ReplaceAll(text, d1.literal, v1);
    assert [d1, d2][1..] == [d2];
    assert SubstituteAll(text, [d1, d2], props) == SubstituteAll(t1, [d2], props);
    assert SubstituteAll(t1, [d2], props) == Err(Interpolating(t1, e));
  }

  /** A failure after an earlier substitution quotes the template as it
      stands at that point, with the earlier declaration already replaced. */
  lemma FailureQuotesCurrentText()
    ensures Interpolated("%{name} %{x}", Profile())
            == Err(Interpolating("Alan Ginsberg %{x}", PropertyNotAvailable))
  {
    var lit1 := "%{name}";
    var lit2 := "%{x}";
    assert lit1 == "%{" + "name" + "" + "}";
    assert lit2 == "%{" + "x" + "" + "}";
    assert "" + lit1 + " " + lit2 + "" == "%{name} %{x}";
    TwoDeclarations("", lit1, "name", "", " ", lit2, "x", "", "");
    SecondOfTwoFails("%{name} %{x}", Interpolation(lit1, "name", false, ""), Interpolation(lit2, "x", false, ""),
                     Profile(), "Alan Ginsberg", PropertyNotAvailable);
    CurrentTextAfterName();
  }

  lemma CurrentTextAfterName()
    ensures ReplaceAll("%{name} %{x}", "%{name}", "Alan Ginsberg") == "Alan Ginsberg %{x}"
  {
    assert !Contains(" %{x}", "%{name}") by {
      assert |" %{x}"| < |"%{name}"|;
    }
    assert "" + "%{name}" + " %{x}" == "%{name} %{x}";
    ReplaceOnce("", "%{name}", " %{x}", "Alan Ginsberg");
    assert "" + "Alan Ginsberg" + " %{x}" == "Alan Ginsberg %{x}";
  }
}
