/** The tree-backed translator (yaml.go).

    A deserialised document is normalised into a tree whose leaves are strings
    and whose branches are keyed by strings, sequences becoming branches keyed
    by the decimal indices "0", "1", ... A lookup key is cut into a path on the
    translator's separator and the path is walked down the tree; it succeeds
    exactly when it ends at a leaf. */
module Yaml {
  import opened Results
  import opened Text

  /** A normalised tree node (`yamlTranslations` values): a translation or a
      branch of further translations. The unexpected-type panic of `find` has
      no counterpart: normalisation only ever produces these two shapes. */
  datatype Node = Leaf(text: string) | Branch(children: map<string, Node>)

  /** A document as the YAML decoder hands it over, with keys and scalars
      already rendered as strings. */
  datatype Generic =
    | Mapping(entries: map<string, Generic>)
    | Sequence(items: seq<Generic>)
    | Scalar(text: string)

  /** The separator `NewYAMLTranslator` uses. */
  const DefaultSeparator: string := "."

  /** `yamlTranslator`: a separator and the normalised top-level branch. */
  datatype YamlTranslator = YamlTranslator(separator: string, translations: map<string, Node>)

  // Key paths.

  /** The path a key describes: the whole key when the separator is empty,
      otherwise the pieces of the key between occurrences of the separator. */
  function KeyPath(separator: string, key: string): (path: seq<string>)
    ensures path != []
    ensures separator == "" ==> path == [key]
  {
    if separator == "" then [key] else Split(key, separator)
  }

  /** With a separator, the path's segments joined by the separator give back
      the key, and no segment contains the separator. */
  lemma KeyPathSegments(separator: string, key: string)
    requires separator != ""
    ensures Join(KeyPath(separator, key), separator) == key
    ensures forall k :: 0 <= k < |KeyPath(separator, key)| ==> !Contains(KeyPath(separator, key)[k], separator)
  {
    JoinSplit(key, separator);
    SplitPiecesAvoidSeparator(key, separator);
  }

  // Lookup.

  /** The node reached from `n` by following `path`, if every step exists: a
      reference reading of a tree walk, independent of how `find` reports
      failures. */
  function NodeAt(n: Node, path: seq<string>): Option<Node>
    decreases |path|
  {
    if path == [] then Some(n)
    else
      match n
      case Leaf(_) => None
      case Branch(c) => if path[0] in c then NodeAt(c[path[0]], path[1..]) else None
  }

  /** `yamlTranslations.find(path)` (yaml.go:68-89). It answers the leaf the
      path ends at; it fails with `NotFound` when some segment is missing or the
      path goes on past a leaf, and with `IncompletePath` when the path ends at
      a branch. */
  function Find(ts: map<string, Node>, path: seq<string>): (r: Result<string>)
    ensures match NodeAt(Branch(ts), path)
            case None => r == Err(NotFound)
            case Some(Leaf(t)) => r == Ok(t)
            case Some(Branch(_)) => r == Err(IncompletePath)
    decreases |path|
  {
    if path == [] then Err(IncompletePath)
    else if path[0] !in ts then Err(NotFound)
    else
      match ts[path[0]]
      case Branch(c) => Find(c, path[1..])
      case Leaf(t) =>
        if path[1..] != [] then
          assert NodeAt(Leaf(t), path[1..]) == None;
          Err(NotFound)
        else
          assert NodeAt(Leaf(t), path[1..]) == Some(Leaf(t));
          Ok(t)
  }

  /** `(*yamlTranslator).Translate(key, _)` (yaml.go:54-66): the key's path is
      looked up; a failure is reported for this key, with the lookup's reason. */
  function Translate(t: YamlTranslator, key: string): (r: Result<string>)
    ensures r == match NodeAt(Branch(t.translations), KeyPath(t.separator, key))
                 case None => Err(Translating(key, NotFound))
                 case Some(Leaf(v)) => Ok(v)
                 case Some(Branch(_)) => Err(Translating(key, IncompletePath))
  {
    match Find(t.translations, KeyPath(t.separator, key))
    case Ok(v) => Ok(v)
    case Err(e) => Err(Translating(key, e))
  }

  /** Walking `p + q` is walking `p`, then `q` from where `p` ended. */
  lemma {:induction false} NodeAtAppend(n: Node, p: seq<string>, q: seq<string>)
    ensures NodeAt(n, p + q) == match NodeAt(n, p)
                                case None => None
                                case Some(m) => NodeAt(m, q)
    decreases |p|
  {
    if p == [] {
      assert p + q == q;
    } else {
      assert p + q != [] && (p + q)[0] == p[0] && (p + q)[1..] == p[1..] + q;
      match n
      case Leaf(_) =>
      case Branch(c) =>
        if p[0] in c {
          NodeAtAppend(c[p[0]], p[1..], q);
        }
    }
  }

  /** A path that reaches a branch and then names a segment that branch lacks
      is not found, whatever follows. */
  lemma MissingSegmentNotFound(ts: map<string, Node>, p: seq<string>, segment: string, q: seq<string>)
    requires NodeAt(Branch(ts), p).Some? && NodeAt(Branch(ts), p).value.Branch?
    requires segment !in NodeAt(Branch(ts), p).value.children
    ensures Find(ts, p + [segment] + q) == Err(NotFound)
  {
    NodeAtAppend(Branch(ts), p, [segment] + q);
    assert p + [segment] + q == p + ([segment] + q);
  }

  /** A path that goes on past a leaf is not found. */
  lemma PastLeafNotFound(ts: map<string, Node>, p: seq<string>, q: seq<string>)
    requires NodeAt(Branch(ts), p).Some? && NodeAt(Branch(ts), p).value.Leaf?
    requires q != []
    ensures Find(ts, p + q) == Err(NotFound)
  {
    NodeAtAppend(Branch(ts), p, q);
  }

  /** A path that stops at a branch is incomplete. */
  lemma BranchIncomplete(ts: map<string, Node>, p: seq<string>)
    requires NodeAt(Branch(ts), p).Some? && NodeAt(Branch(ts), p).value.Branch?
    ensures Find(ts, p) == Err(IncompletePath)
  {
  }

  /** In an empty tree no key is found. */
  lemma EmptyTreeNotFound(separator: string, key: string)
    ensures Translate(YamlTranslator(separator, map[]), key) == Err(Translating(key, NotFound))
  {
    var path := KeyPath(separator, key);
    var empty: map<string, Node> := map[];
    assert path[0] !in empty;
  }

  // Normalisation.

  /** The normalised form of a document node: mappings keep their keys,
      sequences are keyed by the decimal rendering of each index, and scalars
      become leaves. */
  function Normalized(g: Generic): Node
    decreases g, 1
  {
    match g
    case Mapping(e) => Branch(NormalizedMap(e))
    case Sequence(items) => Branch(IndexedNodes(items, |items|))
    case Scalar(t) => Leaf(t)
  }

  function NormalizedMap(e: map<string, Generic>): map<string, Node>
    decreases Mapping(e), 0
  {
    map k | k in e :: Normalized(e[k])
  }

  /** The first `n` elements of a sequence, normalised and keyed by index. */
  function IndexedNodes(items: seq<Generic>, n: nat): map<string, Node>
    requires n <= |items|
    decreases Sequence(items), 0
  {
    IndexKeysDistinct();
    map j | 0 <= j < n :: NatToString(j) := Normalized(items[j])
  }

  function NormalizedSlice(items: seq<Generic>): map<string, Node>
  {
    IndexedNodes(items, |items|)
  }

  lemma IndexKeysDistinct()
    ensures forall i: nat, j: nat :: NatToString(i) == NatToString(j) ==> i == j
  {
    forall i: nat, j: nat | NatToString(i) == NatToString(j) ensures i == j {
      NatToStringInjective(i, j);
    }
  }

  /** The keys of a normalised sequence of length n are exactly the canonical
      numerals "0" .. n-1, and each maps to the normalised element at its index. */
  lemma SliceKeys(items: seq<Generic>, key: string)
    ensures key in NormalizedSlice(items) <==> IsCanonicalDecimal(key) && DecimalValue(key) < |items|
    ensures key in NormalizedSlice(items) ==> NormalizedSlice(items)[key] == Normalized(items[DecimalValue(key)])
  {
    IndexKeysDistinct();
    if key in NormalizedSlice(items) {
      var j :| 0 <= j < |items| && NatToString(j) == key;
      DecimalOfNatToString(j);
    }
    if IsCanonicalDecimal(key) && DecimalValue(key) < |items| {
      NatToStringOfDecimal(key);
      assert NatToString(DecimalValue(key)) in NormalizedSlice(items);
    }
  }

  /** One step into an unnormalised document: a mapping's entry, a sequence's
      element at a canonical numeral, nothing below a scalar. */
  function Child(g: Generic, segment: string): Option<Generic>
  {
    match g
    case Mapping(e) => if segment in e then Some(e[segment]) else None
    case Sequence(items) =>
      if IsCanonicalDecimal(segment) && DecimalValue(segment) < |items| then Some(items[DecimalValue(segment)]) else None
    case Scalar(_) => None
  }

  /** The document node reached by following `path`. */
  function GenericAt(g: Generic, path: seq<string>): Option<Generic>
    decreases |path|
  {
    if path == [] then Some(g)
    else
      match Child(g, path[0])
      case None => None
      case Some(c) => GenericAt(c, path[1..])
  }

  /** Normalisation keeps every lookup: walking a path through the normalised
      tree reaches the normalised form of the document node the same path
      reaches, and fails exactly where that walk fails. */
  lemma {:induction false} NormalizedNodeAt(g: Generic, path: seq<string>)
    ensures NodeAt(Normalized(g), path) == match GenericAt(g, path)
                                           case None => None
                                           case Some(h) => Some(Normalized(h))
    decreases |path|
  {
    if path != [] {
      var segment := path[0];
      match g
      case Mapping(e) =>
        if segment in e {
          NormalizedNodeAt(e[segment], path[1..]);
        }
      case Sequence(items) =>
        SliceKeys(items, segment);
        if IsCanonicalDecimal(segment) && DecimalValue(segment) < |items| {
          NormalizedNodeAt(items[DecimalValue(segment)], path[1..]);
        }
      case Scalar(_) =>
    }
  }

  /** A translator built from a document translates a key to a scalar exactly
      when the key's path leads to that scalar in the document; a path that
      stops at a mapping or a sequence is incomplete; any other path is not
      found. */
  lemma TranslateDocument(doc: map<string, Generic>, separator: string, key: string)
    ensures Translate(YamlTranslator(separator, NormalizedMap(doc)), key)
            == match GenericAt(Mapping(doc), KeyPath(separator, key))
               case None => Err(Translating(key, NotFound))
               case Some(Scalar(v)) => Ok(v)
               case Some(_) => Err(Translating(key, IncompletePath))
  {
    NormalizedNodeAt(Mapping(doc), KeyPath(separator, key));
  }

  // Construction.

  /** `yamlTranslationizeMap` (yaml.go:91-97): a fresh map filled entry by entry. */
  method TranslationizeMap(ts: map<string, Generic>) returns (yts: map<string, Node>)
    ensures yts == NormalizedMap(ts)
    decreases Mapping(ts), 0
  {
    yts := map[];
    var todo := ts.Keys;
    while todo != {}
      invariant todo <= ts.Keys
      invariant yts == map k | k in ts.Keys - todo :: Normalized(ts[k])
      decreases todo
    {
      var k :| k in todo;
      var v := TranslationizeValue(ts[k]);
      yts := yts[k := v];
      todo := todo - {k};
    }
  }

  /** `yamlTranslationizeValue` (yaml.go:99-108). */
  method TranslationizeValue(v: Generic) returns (n: Node)
    ensures n == Normalized(v)
    decreases v, 1
  {
    match v {
      case Mapping(e) =>
        var children := TranslationizeMap(e);
        n := Branch(children);
      case Sequence(items) =>
        var children := TranslationizeSlice(items);
        n := Branch(children);
      case Scalar(t) =>
        n := Leaf(t);
    }
  }

  /** `yamlTranslationizeSlice` (yaml.go:110-116): element `i` is stored under
      the decimal rendering of `i`. */
  method TranslationizeSlice(ts: seq<Generic>) returns (yts: map<string, Node>)
    ensures yts == NormalizedSlice(ts)
    decreases Sequence(ts), 0
  {
    yts := map[];
    var i := 0;
    while i < |ts|
      invariant 0 <= i <= |ts|
      invariant yts == IndexedNodes(ts, i)
    {
      var v := TranslationizeValue(ts[i]);
      IndexedNodesStep(ts, i);
      yts := yts[NatToString(i) := v];
      i := i + 1;
    }
  }

  /** Adding the next element to the indexed prefix. */
  lemma IndexedNodesStep(items: seq<Generic>, i: nat)
    requires i < |items|
    ensures IndexedNodes(items, i + 1) == IndexedNodes(items, i)[NatToString(i) := Normalized(items[i])]
  {
    IndexKeysDistinct();
  }

  /** `NewYAMLTranslatorWithSeparator` (yaml.go:40-52) on an already decoded
      document. */
  method NewYamlTranslatorWithSeparator(doc: map<string, Generic>, separator: string) returns (t: YamlTranslator)
    ensures t.separator == separator
    ensures t.translations == NormalizedMap(doc)
  {
    var translations := TranslationizeMap(doc);
    t := YamlTranslator(separator, translations);
  }

  /** `NewYAMLTranslator` (yaml.go:27-29): the `"."` separator. */
  method NewYamlTranslator(doc: map<string, Generic>) returns (t: YamlTranslator)
    ensures t.separator == "."
    ensures t.translations == NormalizedMap(doc)
  {
    t := NewYamlTranslatorWithSeparator(doc, DefaultSeparator);
  }
}
