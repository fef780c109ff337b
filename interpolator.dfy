/** Placeholder interpolation (interpolator.go).

    A template declares placeholders as `%{name}` or `%{name|default}`. The
    library finds them with the regular expression
    `%\{(?P<name>[^\}\|]+)(?P<default>\|[^\}]*)?\}`; here that one pattern is
    recognised by a hand-written scanner (`MatchAt`, `MatchesFrom`) and the
    pattern itself is stated as a predicate (`IsMatch`) the scanner is proved
    sound and complete against. */
module Interpolators {
  import opened Results
  import opened Text
  import opened Properties

  /** One declaration found in a template: its literal text, the property it
      names and, when present, its default value. */
  datatype Interpolation = Interpolation(literal: string, property: string, hasDefaultValue: bool, defaultValue: string)

  /** A match as the regular-expression engine reports it: the whole match is
      `text[start..end]`; `defaultGroup` keeps its leading `|` and is empty when
      the optional group did not take part. */
  datatype Submatch = Submatch(start: nat, end: nat, name: string, defaultGroup: string)

  /** The `name` group: one or more characters other than `}` and `|`. */
  predicate IsName(s: string)
  {
    s != [] && forall k :: 0 <= k < |s| ==> s[k] != '}' && s[k] != '|'
  }

  /** The optional `default` group: absent, or `|` followed by characters other than `}`. */
  predicate IsDefaultGroup(s: string)
  {
    s == [] || (s[0] == '|' && forall k :: 1 <= k < |s| ==> s[k] != '}')
  }

  /** `m` is a match of the placeholder pattern starting at `m.start`. */
  predicate IsMatch(text: string, m: Submatch)
  {
    m.start <= m.end <= |text| && IsName(m.name) && IsDefaultGroup(m.defaultGroup)
    && text[m.start..m.end] == "%{" + m.name + m.defaultGroup + "}"
  }

  /** The end of the longest run of name characters (neither `}` nor `|`)
      that starts at `from`. */
  function NameRunEnd(text: string, from: nat): (e: nat)
    requires from <= |text|
    ensures from <= e <= |text|
    ensures forall k :: from <= k < e ==> text[k] != '}' && text[k] != '|'
    ensures e < |text| ==> text[e] == '}' || text[e] == '|'
    decreases |text| - from
  {
    if from == |text| || text[from] == '}' || text[from] == '|' then from else NameRunEnd(text, from + 1)
  }

  /** The end of the longest run of default-value characters (anything but `}`)
      that starts at `from`. */
  function GroupRunEnd(text: string, from: nat): (e: nat)
    requires from <= |text|
    ensures from <= e <= |text|
    ensures forall k :: from <= k < e ==> text[k] != '}'
    ensures e < |text| ==> text[e] == '}'
    decreases |text| - from
  {
    if from == |text| || text[from] == '}' then from else GroupRunEnd(text, from + 1)
  }

  /** The match of the pattern that starts at position `i`, if any. The name is
      the whole run of non-`}`, non-`|` characters after `%{`; it must be
      non-empty and be followed by `}`, or by `|`, a run of non-`}` characters
      and `}`. */
  function MatchAt(text: string, i: nat): (r: Option<Submatch>)
    requires i <= |text|
    ensures r.Some? ==> r.value.start == i && IsMatch(text, r.value)
  {
    if i + 2 <= |text| && text[i] == '%' && text[i + 1] == '{' then
      var n := NameRunEnd(text, i + 2);
      if n == i + 2 || n == |text| then None
      else if text[n] == '}' then
        DeclarationSlice(text, i, n, n);
        assert text[n..n] == [];
        Some(Submatch(i, n + 1, text[i + 2..n], []))
      else
        var d := GroupRunEnd(text, n + 1);
        if d == |text| then None
        else
          DeclarationSlice(text, i, n, d);
          Some(Submatch(i, d + 1, text[i + 2..n], text[n..d]))
    else None
  }

  /** A stretch of text from a `%{` to a `}`, cut in two at `n`, spells a
      declaration. */
  lemma DeclarationSlice(text: string, i: nat, n: nat, d: nat)
    requires i + 2 <= n <= d < |text|
    requires text[i] == '%' && text[i + 1] == '{' && text[d] == '}'
    ensures text[i..d + 1] == "%{" + text[i + 2..n] + text[n..d] + "}"
  {
    assert text[i..i + 2] == "%{";
    assert text[d..d + 1] == "}";
    assert text[i..d + 1] == text[i..i + 2] + text[i + 2..n] + text[n..d] + text[d..d + 1];
  }

  /** The characters of a declaration text `%{` name group `}`. */
  lemma DeclarationChars(name: string, group: string)
    ensures var lit := "%{" + name + group + "}";
      && |lit| == |name| + |group| + 3
      && lit[0] == '%' && lit[1] == '{' && lit[|lit| - 1] == '}'
      && (forall k :: 0 <= k < |name| ==> lit[2 + k] == name[k])
      && (forall k :: 0 <= k < |group| ==> lit[2 + |name| + k] == group[k])
  {
  }

  /** Where a match starts, its text spells out `%{`, the name group, the
      default group and `}`, character by character. */
  lemma MatchChars(text: string, m: Submatch)
    requires IsMatch(text, m)
    ensures m.end == m.start + |m.name| + |m.defaultGroup| + 3
    ensures text[m.start] == '%' && text[m.start + 1] == '{' && text[m.end - 1] == '}'
    ensures forall k :: 0 <= k < |m.name| ==> text[m.start + 2 + k] == m.name[k]
    ensures forall k :: 0 <= k < |m.defaultGroup| ==> text[m.start + 2 + |m.name| + k] == m.defaultGroup[k]
  {
    var lit := "%{" + m.name + m.defaultGroup + "}";
    DeclarationChars(m.name, m.defaultGroup);
    forall k | 0 <= k < |lit| ensures text[m.start + k] == lit[k] {
      assert text[m.start..m.end][k] == lit[k];
    }
  }

  lemma NameRunEndIs(text: string, from: nat, e: nat)
    requires from <= e < |text|
    requires forall k :: from <= k < e ==> text[k] != '}' && text[k] != '|'
    requires text[e] == '}' || text[e] == '|'
    ensures NameRunEnd(text, from) == e
  {
  }

  lemma GroupRunEndIs(text: string, from: nat, e: nat)
    requires from <= e < |text|
    requires forall k :: from <= k < e ==> text[k] != '}'
    requires text[e] == '}'
    ensures GroupRunEnd(text, from) == e
  {
  }

  /** Characters that spell out `s` from `from` on form the slice `s`. */
  lemma SpelledSlice(text: string, from: nat, s: string)
    requires from + |s| <= |text|
    requires forall k :: 0 <= k < |s| ==> text[from + k] == s[k]
    ensures text[from..from + |s|] == s
  {
    forall k | 0 <= k < |s| ensures text[from..from + |s|][k] == s[k] {
      assert text[from + k] == s[k];
    }
  }

  /** A name spelled out from `from` on and followed by `}` or `|` is the whole
      name run there. */
  lemma SpelledNameRun(text: string, from: nat, name: string)
    requires IsName(name) && from + |name| < |text|
    requires forall k :: 0 <= k < |name| ==> text[from + k] == name[k]
    requires text[from + |name|] == '}' || text[from + |name|] == '|'
    ensures NameRunEnd(text, from) == from + |name|
  {
    forall k | from <= k < from + |name| ensures text[k] != '}' && text[k] != '|' {
      assert text[from + (k - from)] == name[k - from];
    }
    NameRunEndIs(text, from, from + |name|);
  }

  /** A default group spelled out from `from` on and followed by `}`: the run of
      non-`}` characters after its `|` ends at that `}`. */
  lemma SpelledGroupRun(text: string, from: nat, group: string)
    requires IsDefaultGroup(group) && group != [] && from + |group| < |text|
    requires forall k :: 0 <= k < |group| ==> text[from + k] == group[k]
    requires text[from + |group|] == '}'
    ensures GroupRunEnd(text, from + 1) == from + |group|
  {
    forall k | from + 1 <= k < from + |group| ensures text[k] != '}' {
      assert text[from + (k - from)] == group[k - from];
    }
    GroupRunEndIs(text, from + 1, from + |group|);
  }

  /** Where a match starts, the name group is followed by the `|` opening the
      default group, or by the closing `}` when there is none. */
  lemma MatchedSeparator(text: string, m: Submatch)
    requires IsMatch(text, m)
    ensures m.start + 2 + |m.name| < |text|
    ensures text[m.start + 2 + |m.name|] == if m.defaultGroup == [] then '}' else '|'
  {
    MatchChars(text, m);
    if m.defaultGroup != [] {
      assert text[m.start + 2 + |m.name| + 0] == m.defaultGroup[0];
    }
  }

  /** Where a match starts, the run of name characters after `%{` ends exactly
      where the name group does. */
  lemma MatchedNameRun(text: string, m: Submatch)
    requires IsMatch(text, m)
    ensures NameRunEnd(text, m.start + 2) == m.start + 2 + |m.name|
  {
    MatchedSeparator(text, m);
    MatchChars(text, m);
    SpelledNameRun(text, m.start + 2, m.name);
  }

  /** Where a match starts, the text after `%{` spells out the name group. */
  lemma MatchedNameText(text: string, m: Submatch)
    requires IsMatch(text, m)
    ensures m.start + 2 + |m.name| <= |text|
    ensures text[m.start + 2..m.start + 2 + |m.name|] == m.name
  {
    MatchChars(text, m);
    SpelledSlice(text, m.start + 2, m.name);
  }

  /** Where a match with a default group starts, the group is exactly the run
      that `MatchAt` takes after the name, and `}` follows it. */
  lemma MatchedDefaultGroup(text: string, m: Submatch)
    requires IsMatch(text, m) && m.defaultGroup != []
    ensures m.end - 1 == m.start + 2 + |m.name| + |m.defaultGroup| < |text|
    ensures GroupRunEnd(text, m.start + 3 + |m.name|) == m.end - 1
    ensures text[m.start + 2 + |m.name|..m.end - 1] == m.defaultGroup
    ensures text[m.end - 1] == '}'
  {
    var nameEnd := m.start + 2 + |m.name|;
    MatchChars(text, m);
    assert m.end - 1 == nameEnd + |m.defaultGroup|;
    forall k | 0 <= k < |m.defaultGroup| ensures text[nameEnd + k] == m.defaultGroup[k] {
      assert text[m.start + 2 + |m.name| + k] == m.defaultGroup[k];
    }
    SpelledGroupRun(text, nameEnd, m.defaultGroup);
    SpelledSlice(text, nameEnd, m.defaultGroup);
  }

  /** The scanner misses no match: whenever the pattern matches at a position,
      `MatchAt` reports exactly that match there (so the match at a position is
      unique). */
  lemma MatchAtComplete(text: string, m: Submatch)
    requires IsMatch(text, m)
    ensures MatchAt(text, m.start) == Some(m)
  {
    MatchChars(text, m);
    MatchedSeparator(text, m);
    MatchedNameRun(text, m);
    MatchedNameText(text, m);
    if m.defaultGroup != [] {
      MatchedDefaultGroup(text, m);
    }
  }

  /** `FindAllStringSubmatch(text, -1)` continued from position `i`: the
      leftmost match, then the matches after its end. The matches are real and
      come in order without overlapping. */
  function MatchesFrom(text: string, i: nat): (ms: seq<Submatch>)
    requires i <= |text|
    ensures forall k :: 0 <= k < |ms| ==> IsMatch(text, ms[k]) && i <= ms[k].start
    ensures forall k :: 0 < k < |ms| ==> ms[k - 1].end <= ms[k].start
    decreases |text| - i
  {
    if i == |text| then []
    else
      match MatchAt(text, i)
      case None => MatchesFrom(text, i + 1)
      case Some(m) =>
        assert m.end - m.start == |"%{" + m.name + m.defaultGroup + "}"|;
        [m] + MatchesFrom(text, m.end)
  }

  /** Position `p` lies inside one of the matches `ms`. */
  ghost predicate Covers(ms: seq<Submatch>, p: nat)
  {
    exists k :: 0 <= k < |ms| && ms[k].start <= p < ms[k].end
  }

  lemma CoversCons(m: Submatch, rest: seq<Submatch>, p: nat)
    requires Covers(rest, p) || m.start <= p < m.end
    ensures Covers([m] + rest, p)
  {
    var ms := [m] + rest;
    if m.start <= p < m.end {
      assert ms[0] == m;
    } else {
      var k :| 0 <= k < |rest| && rest[k].start <= p < rest[k].end;
      assert ms[k + 1] == rest[k];
    }
  }

  /** The scan is leftmost-first: every position from `i` on where the pattern
      matches is either the start of a reported match or lies inside an earlier
      reported match. */
  lemma {:induction false} MatchesFromLeftmost(text: string, i: nat, p: nat)
    requires i <= p <= |text| && MatchAt(text, p).Some?
    ensures Covers(MatchesFrom(text, i), p)
    decreases |text| - i
  {
    if i == |text| {
      assert false;
    }
    match MatchAt(text, i)
    case None =>
      assert MatchesFrom(text, i) == MatchesFrom(text, i + 1);
      MatchesFromLeftmost(text, i + 1, p);
    case Some(m) =>
      assert MatchesFrom(text, i) == [m] + MatchesFrom(text, m.end);
      if m.end <= p {
        MatchesFromLeftmost(text, m.end, p);
      }
      CoversCons(m, MatchesFrom(text, m.end), p);
  }

  /** The matches of the whole template. */
  function Matches(text: string): (ms: seq<Submatch>)
  {
    MatchesFrom(text, 0)
  }

  /** The literal text of a declaration. */
  function Declaration(d: Interpolation): string
  {
    "%{" + d.property + (if d.hasDefaultValue then "|" + d.defaultValue else "") + "}"
  }

  /** A declaration as the grammar allows it: its literal spells out its name
      and default, the name is non-empty without `}` or `|`, and the default has
      no `}` and is empty when not declared. */
  predicate WellFormed(d: Interpolation)
  {
    && IsName(d.property)
    && (forall k :: 0 <= k < |d.defaultValue| ==> d.defaultValue[k] != '}')
    && (!d.hasDefaultValue ==> d.defaultValue == [])
    && d.literal == Declaration(d)
  }

  /** The declaration a match describes: the default is the group without its
      leading `|`, and declared exactly when the group is non-empty. */
  function ToInterpolation(text: string, m: Submatch): (d: Interpolation)
    requires IsMatch(text, m)
    ensures WellFormed(d) && OccursAt(text, d.literal, m.start)
  {
    var hasDefault := |m.defaultGroup| > 0;
    var d := Interpolation(text[m.start..m.end], m.name, hasDefault, if hasDefault then m.defaultGroup[1..] else "");
    assert hasDefault ==> m.defaultGroup == "|" + d.defaultValue;
    d
  }

  /** The declarations of a template, in the order they occur. */
  function Interpolations(text: string): (ds: seq<Interpolation>)
    ensures |ds| == |Matches(text)|
    ensures forall k :: 0 <= k < |ds| ==> WellFormed(ds[k]) && OccursAt(text, ds[k].literal, Matches(text)[k].start)
  {
    var ms := Matches(text);
    seq(|ms|, k requires 0 <= k < |ms| => ToInterpolation(text, ms[k]))
  }

  /** `findInterpolations` (interpolator.go:99-116): one record per match, in order. */
  method FindInterpolations(text: string) returns (ds: seq<Interpolation>)
    ensures ds == Interpolations(text)
  {
    var ms := Matches(text);
    ds := [];
    var i := 0;
    while i < |ms|
      invariant 0 <= i <= |ms|
      invariant ds == Interpolations(text)[..i]
    {
      var m := ms[i];
      var hasDefaultValue := |m.defaultGroup| > 0;
      var defaultValue := "";
      if hasDefaultValue {
        defaultValue := m.defaultGroup[1..];
      }
      ds := ds + [Interpolation(text[m.start..m.end], m.name, hasDefaultValue, defaultValue)];
      i := i + 1;
    }
  }

  /** The value a declaration is replaced by: the property's value when the
      source has it, otherwise the declared default, otherwise the source's error. */
  function Resolve(d: Interpolation, props: TranslationProperties): Result<string>
  {
    match Property(props, d.property)
    case Ok(v) => Ok(v)
    case Err(e) => if d.hasDefaultValue then Ok(d.defaultValue) else Err(e)
  }

  predicate LiteralsNonEmpty(ds: seq<Interpolation>)
  {
    forall k :: 0 <= k < |ds| ==> ds[k].literal != []
  }

  /** Substitutes the declarations one after the other into the text as it
      stands after the previous substitutions, stopping at the first declaration
      that cannot be resolved. */
  function SubstituteAll(text: string, ds: seq<Interpolation>, props: TranslationProperties): Result<string>
    requires LiteralsNonEmpty(ds)
    decreases |ds|
  {
    if ds == [] then Ok(text)
    else
      match Resolve(ds[0], props)
      case Err(e) => Err(Interpolating(text, e))
      case Ok(v) => SubstituteAll(ReplaceAll(text, ds[0].literal, v), ds[1..], props)
  }

  lemma InterpolationsLiteralsNonEmpty(text: string)
    ensures LiteralsNonEmpty(Interpolations(text))
  {
  }

  /** What `(*interpolator).Interpolate` computes for a template. */
  function Interpolated(text: string, props: TranslationProperties): Result<string>
  {
    InterpolationsLiteralsNonEmpty(text);
    SubstituteAll(text, Interpolations(text), props)
  }

  /** `(*interpolator).Interpolate` (interpolator.go:79-91). */
  method Interpolate(text: string, props: TranslationProperties) returns (r: Result<string>)
    ensures r == Interpolated(text, props)
  {
    var ds := FindInterpolations(text);
    InterpolationsLiteralsNonEmpty(text);
    var current := text;
    var i := 0;
    while i < |ds|
      invariant 0 <= i <= |ds|
      invariant SubstituteAll(current, ds[i..], props) == SubstituteAll(text, ds, props)
      decreases |ds| - i
    {
      var d := ds[i];
      assert ds[i..][1..] == ds[i + 1..];
      var value: string;
      match Property(props, d.property) {
        case Ok(v) =>
          value := v;
        case Err(e) =>
          if !d.hasDefaultValue {
            return Err(Interpolating(current, e));
          }
          value := d.defaultValue;
      }
      current := ReplaceAll(current, d.literal, value);
      i := i + 1;
    }
    r := Ok(current);
  }

  // Properties of the placeholder scan.

  /** Positions before the next `%` start no match and can be skipped. */
  lemma {:induction false} MatchesFromSkip(text: string, i: nat, j: nat)
    requires i <= j <= |text|
    requires forall p :: i <= p < j ==> text[p] != '%'
    ensures MatchesFrom(text, i) == MatchesFrom(text, j)
    decreases j - i
  {
    if i < j {
      assert MatchAt(text, i) == None;
      assert MatchesFrom(text, i) == MatchesFrom(text, i + 1);
      MatchesFromSkip(text, i + 1, j);
    }
  }

  /** A template has no declarations exactly when the placeholder pattern
      matches nowhere in it. */
  lemma NoDeclarationsIffNoMatch(text: string)
    ensures Interpolations(text) == [] <==> forall m :: !IsMatch(text, m)
  {
    if Interpolations(text) == [] {
      forall m | IsMatch(text, m) ensures false {
        MatchAtComplete(text, m);
        MatchesFromLeftmost(text, 0, m.start);
      }
    } else {
      assert IsMatch(text, Matches(text)[0]);
    }
  }

  /** A template without `%{` declares nothing. */
  lemma NoOpenerNoDeclarations(text: string)
    requires !Contains(text, "%{")
    ensures Interpolations(text) == []
  {
    if Interpolations(text) != [] {
      FirstDeclarationOpens(text);
      assert false;
    }
  }

  lemma FirstDeclarationOpens(text: string)
    requires Interpolations(text) != []
    ensures Contains(text, "%{")
  {
    var m := Matches(text)[0];
    MatchChars(text, m);
    assert text[m.start..m.start + 2] == "%{";
    assert OccursAt(text, "%{", m.start);
  }

  /** When the next `%` from `i` on starts a match, the scan reports that match
      first and carries on after it. */
  lemma MatchesFromAt(text: string, i: nat, m: Submatch)
    requires IsMatch(text, m) && i <= m.start
    requires forall p :: i <= p < m.start ==> text[p] != '%'
    ensures MatchesFrom(text, i) == [m] + MatchesFrom(text, m.end)
  {
    MatchesFromSkip(text, i, m.start);
    MatchAtComplete(text, m);
    MatchChars(text, m);
  }

  /** A template holding exactly one declaration, with no other `%` around it,
      declares just that one. */
  lemma OneDeclaration(before: string, lit: string, name: string, group: string, after: string)
    requires IsName(name) && IsDefaultGroup(group) && lit == "%{" + name + group + "}"
    requires forall k :: 0 <= k < |before| ==> before[k] != '%'
    requires forall k :: 0 <= k < |after| ==> after[k] != '%'
    ensures Interpolations(before + lit + after)
              == [Interpolation(lit, name, group != [], if group != [] then group[1..] else "")]
  {
    var text := before + lit + after;
    var m := Submatch(|before|, |before| + |lit|, name, group);
    assert text[m.start..m.end] == lit;
    MatchesFromAt(text, 0, m);
    MatchesFromSkip(text, m.end, |text|);
    assert Matches(text) == [m];
  }

  /** A template holding two declarations, with no other `%` around or
      between them, declares those two in order. */
  lemma TwoDeclarations(before: string, lit1: string, name1: string, group1: string, middle: string,
                        lit2: string, name2: string, group2: string, after: string)
    requires IsName(name1) && IsDefaultGroup(group1) && lit1 == "%{" + name1 + group1 + "}"
    requires IsName(name2) && IsDefaultGroup(group2) && lit2 == "%{" + name2 + group2 + "}"
    requires forall k :: 0 <= k < |before| ==> before[k] != '%'
    requires forall k :: 0 <= k < |middle| ==> middle[k] != '%'
    requires forall k :: 0 <= k < |after| ==> after[k] != '%'
    ensures Interpolations(before + lit1 + middle + lit2 + after)
              == [Interpolation(lit1, name1, group1 != [], if group1 != [] then group1[1..] else ""),
                  Interpolation(lit2, name2, group2 != [], if group2 != [] then group2[1..] else "")]
  {
    var text := before + lit1 + middle + lit2 + after;
    var m1 := Submatch(|before|, |before| + |lit1|, name1, group1);
    var m2 := Submatch(m1.end + |middle|, m1.end + |middle| + |lit2|, name2, group2);
    assert text[m1.start..m1.end] == lit1;
    assert text[m2.start..m2.end] == lit2;
    MatchesFromAt(text, 0, m1);
    MatchesFromAt(text, m1.end, m2);
    MatchesFromSkip(text, m2.end, |text|);
    assert Matches(text) == [m1, m2];
  }

  // Properties of interpolation.

  /** Substitution fails exactly when some declaration names a property the
      source lacks and declares no default. */
  lemma {:induction false} SubstituteAllFails(text: string, ds: seq<Interpolation>, props: TranslationProperties)
    requires LiteralsNonEmpty(ds)
    ensures SubstituteAll(text, ds, props).Err? <==>
              exists k :: 0 <= k < |ds| && !ds[k].hasDefaultValue && Property(props, ds[k].property).Err?
    decreases |ds|
  {
    if ds != [] {
      match Resolve(ds[0], props)
      case Err(e) =>
        assert !ds[0].hasDefaultValue && Property(props, ds[0].property).Err?;
      case Ok(v) =>
        SubstituteAllFails(ReplaceAll(text, ds[0].literal, v), ds[1..], props);
        if exists k :: 0 <= k < |ds| && !ds[k].hasDefaultValue && Property(props, ds[k].property).Err? {
          var k :| 0 <= k < |ds| && !ds[k].hasDefaultValue && Property(props, ds[k].property).Err?;
          assert ds[1..][k - 1] == ds[k];
        }
        if exists k :: 0 <= k < |ds[1..]| && !ds[1..][k].hasDefaultValue && Property(props, ds[1..][k].property).Err? {
          var k :| 0 <= k < |ds[1..]| && !ds[1..][k].hasDefaultValue && Property(props, ds[1..][k].property).Err?;
          assert ds[k + 1] == ds[1..][k];
        }
    }
  }

  /** A failed substitution reports, as an interpolation error, the source's
      error for the first declaration that cannot be resolved; every declaration
      before it was resolved. */
  lemma {:induction false} SubstituteAllFirstFailure(text: string, ds: seq<Interpolation>, props: TranslationProperties)
    requires LiteralsNonEmpty(ds) && SubstituteAll(text, ds, props).Err?
    ensures exists k :: 0 <= k < |ds| && !ds[k].hasDefaultValue && Property(props, ds[k].property).Err?
              && (forall j :: 0 <= j < k ==> Resolve(ds[j], props).Ok?)
              && SubstituteAll(text, ds, props).error.Interpolating?
              && SubstituteAll(text, ds, props).error.cause == Property(props, ds[k].property).error
    decreases |ds|
  {
    match Resolve(ds[0], props)
    case Err(e) =>
      assert !ds[0].hasDefaultValue && Property(props, ds[0].property).Err?;
    case Ok(v) =>
      var next := ReplaceAll(text, ds[0].literal, v);
      SubstituteAllFirstFailure(next, ds[1..], props);
      var k :| 0 <= k < |ds[1..]| && !ds[1..][k].hasDefaultValue && Property(props, ds[1..][k].property).Err?
               && (forall j :: 0 <= j < k ==> Resolve(ds[1..][j], props).Ok?)
               && SubstituteAll(next, ds[1..], props).error.cause == Property(props, ds[1..][k].property).error;
      assert ds[k + 1] == ds[1..][k];
      forall j | 0 <= j < k + 1 ensures Resolve(ds[j], props).Ok? {
        if j > 0 {
          assert ds[j] == ds[1..][j - 1];
        }
      }
  }

  /** `Interpolate` fails exactly when some declaration of the original
      template names a property the source lacks and has no default. */
  lemma InterpolatedFailsIff(text: string, props: TranslationProperties)
    ensures Interpolated(text, props).Err? <==>
              exists k :: 0 <= k < |Interpolations(text)| && !Interpolations(text)[k].hasDefaultValue
                && Property(props, Interpolations(text)[k].property).Err?
  {
    InterpolationsLiteralsNonEmpty(text);
    SubstituteAllFails(text, Interpolations(text), props);
  }

  /** With a source that answers every name, interpolation never fails. */
  lemma TotalSourceNeverFails(text: string, props: TranslationProperties)
    requires NeverFails(props)
    ensures Interpolated(text, props).Ok?
  {
    InterpolatedFailsIff(text, props);
  }

  /** A template in which the pattern matches nowhere (the empty template, or
      one holding only `%{}`) comes back unchanged. */
  lemma NoMatchUnchanged(text: string, props: TranslationProperties)
    requires forall m :: !IsMatch(text, m)
    ensures Interpolated(text, props) == Ok(text)
  {
    NoDeclarationsIffNoMatch(text);
  }

  /** A template with one declaration: the found property's value replaces every
      occurrence of the declaration (the default is ignored); a missing property
      with a default is replaced by the default verbatim; a missing property
      without a default is an error on the template. */
  lemma SingleDeclaration(text: string, props: TranslationProperties)
    requires |Interpolations(text)| == 1
    ensures var d := Interpolations(text)[0];
      match Property(props, d.property)
      case Ok(v) => Interpolated(text, props) == Ok(Join(Split(text, d.literal), v))
      case Err(e) =>
        Interpolated(text, props) ==
          if d.hasDefaultValue then Ok(Join(Split(text, d.literal), d.defaultValue))
          else Err(Interpolating(text, e))
  {
    var d := Interpolations(text)[0];
    InterpolationsLiteralsNonEmpty(text);
    var ds := Interpolations(text);
    assert ds[1..] == [];
    match Resolve(d, props)
    case Ok(v) =>
      var next := ReplaceAll(text, d.literal, v);
      assert SubstituteAll(text, ds, props) == SubstituteAll(next, [], props) == Ok(next);
      ReplaceAllIsJoinOfSplit(text, d.literal, v);
    case Err(_) =>
  }

  // Composition of interpolators.

  datatype Interpolator =
      /** `NewInterpolator()`: the placeholder interpolator above. */
    | Placeholders
      /** `NewNoErrorInterpolator(inner)`. */
    | NoError(inner: Interpolator)
      /** `InterpolatorFunc(f)`: any caller-supplied interpolation. */
    | InterpolatorFunc(f: (string, TranslationProperties) -> Result<string>)

  /** Evaluates a composed interpolator, recording each leaf call. A leaf
      works on exactly the text and property source its call records. */
  function Evaluate(i: Interpolator, text: string, props: TranslationProperties): Traced
  {
    match i
    case Placeholders =>
      var call := Invocation(PlaceholderInterpolator, text, props);
      Traced(Interpolated(call.input, call.props), [call])
    case NoError(inner) =>
      var e := Evaluate(inner, text, props);
      Traced(if e.result.Ok? then e.result else Ok(text), e.calls)
    case InterpolatorFunc(f) =>
      var call := Invocation(CustomInterpolator, text, props);
      Traced(f(call.input, call.props), [call])
  }

  /** `Interpolate(text, props)` on a composed interpolator. The no-error
      wrapper never fails: it answers the wrapped interpolator's result when
      that succeeds and the original text when it fails. */
  function Run(i: Interpolator, text: string, props: TranslationProperties): (r: Result<string>)
    ensures i.NoError? ==> r.Ok?
    ensures i.NoError? && Run(i.inner, text, props).Ok? ==> r == Run(i.inner, text, props)
    ensures i.NoError? && Run(i.inner, text, props).Err? ==> r.value == text
  {
    Evaluate(i, text, props).result
  }

  /** The leaf components an interpolation calls, with what each is given. */
  function Invocations(i: Interpolator, text: string, props: TranslationProperties): seq<Invocation>
  {
    Evaluate(i, text, props).calls
  }

  /** An interpolator calls exactly one leaf component, and hands it the
      template and the very property source it was given. */
  lemma {:induction false} InterpolatorForwards(i: Interpolator, text: string, props: TranslationProperties)
    ensures |Invocations(i, text, props)| == 1
    ensures Invocations(i, text, props)[0].input == text && Invocations(i, text, props)[0].props == props
  {
    if i.NoError? {
      InterpolatorForwards(i.inner, text, props);
    }
  }
}
