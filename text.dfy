/** The string operations of Go's standard library that the core relies on:
    `strings.Split` (key paths), `strings.Replace` with a count of -1
    (placeholder substitution) and `fmt.Sprintf("%v", i)` on a sequence index
    (decimal rendering). Each is given with the properties the core needs. */
module Text {

  /** `pattern` occurs in `s` starting at index `k`. */
  predicate OccursAt(s: string, pattern: string, k: int)
  {
    0 <= k && k + |pattern| <= |s| && s[k..k + |pattern|] == pattern
  }

  ghost predicate Contains(s: string, pattern: string)
  {
    exists k :: OccursAt(s, pattern, k)
  }

  /** `strings.Split(s, sep)` for a non-empty separator: the pieces between the
      leftmost non-overlapping occurrences of `sep`. The first piece is always a
      prefix of `s`. */
  function Split(s: string, sep: string): (parts: seq<string>)
    requires sep != []
    ensures parts != []
    ensures |parts[0]| <= |s| && parts[0] == s[..|parts[0]|]
    decreases |s|
  {
    if |s| < |sep| then [s]
    else if s[..|sep|] == sep then [[]] + Split(s[|sep|..], sep)
    else
      var rest := Split(s[1..], sep);
      [[s[0]] + rest[0]] + rest[1..]
  }

  /** `strings.Join(parts, sep)`. */
  function Join(parts: seq<string>, sep: string): string
    requires parts != []
    decreases |parts|
  {
    if |parts| == 1 then parts[0] else parts[0] + sep + Join(parts[1..], sep)
  }

  /** `strings.Replace(s, pattern, replacement, -1)` for a non-empty pattern:
      every leftmost non-overlapping occurrence of `pattern` is replaced. */
  function ReplaceAll(s: string, pattern: string, replacement: string): string
    requires pattern != []
    decreases |s|
  {
    if |s| < |pattern| then s
    else if s[..|pattern|] == pattern then replacement + ReplaceAll(s[|pattern|..], pattern, replacement)
    else [s[0]] + ReplaceAll(s[1..], pattern, replacement)
  }

  lemma JoinExtendFirst(c: string, parts: seq<string>, sep: string)
    requires parts != []
    ensures Join([c + parts[0]] + parts[1..], sep) == c + Join(parts, sep)
  {
    var extended := [c + parts[0]] + parts[1..];
    if |parts| > 1 {
      assert extended[1..] == parts[1..];
    }
  }

  /** Splitting and joining again with the same separator gives back the text. */
  lemma {:induction false} JoinSplit(s: string, sep: string)
    requires sep != []
    ensures Join(Split(s, sep), sep) == s
    decreases |s|
  {
    if |s| < |sep| {
      assert Split(s, sep) == [s];
    } else if s[..|sep|] == sep {
      var tail := s[|sep|..];
      var rest := Split(tail, sep);
      var parts := [[]] + rest;
      assert Split(s, sep) == parts;
      JoinSplit(tail, sep);
      assert |parts| > 1 && parts[0] == [] && parts[1..] == rest;
      assert Join(parts, sep) == [] + sep + Join(rest, sep);
      assert [] + sep + tail == s;
    } else {
      var rest := Split(s[1..], sep);
      assert Split(s, sep) == [[s[0]] + rest[0]] + rest[1..];
      JoinSplit(s[1..], sep);
      JoinExtendFirst([s[0]], rest, sep);
      assert [s[0]] + s[1..] == s;
    }
  }

  /** No piece of a split contains the separator: every occurrence was cut out. */
  lemma {:induction false} SplitPiecesAvoidSeparator(s: string, sep: string)
    requires sep != []
    ensures forall k :: 0 <= k < |Split(s, sep)| ==> !Contains(Split(s, sep)[k], sep)
    decreases |s|
  {
    var parts := Split(s, sep);
    if |s| < |sep| {
      assert parts == [s];
    } else if s[..|sep|] == sep {
      var rest := Split(s[|sep|..], sep);
      SplitPiecesAvoidSeparator(s[|sep|..], sep);
      assert parts == [[]] + rest;
      forall k | 0 <= k < |parts| ensures !Contains(parts[k], sep) {
        if k > 0 {
          assert parts[k] == rest[k - 1];
        }
      }
    } else {
      var rest := Split(s[1..], sep);
      SplitPiecesAvoidSeparator(s[1..], sep);
      var first := [s[0]] + rest[0];
      assert parts == [first] + rest[1..];
      forall k | 0 <= k < |parts| ensures !Contains(parts[k], sep) {
        if k == 0 {
          if Contains(first, sep) {
            var j :| OccursAt(first, sep, j);
            if j > 0 {
              assert first[j..j + |sep|] == rest[0][j - 1..j - 1 + |sep|];
              assert OccursAt(rest[0], sep, j - 1);
            }
            assert false;
          }
        } else {
          assert parts[k] == rest[k];
        }
      }
    }
  }

  /** A text without the separator is a single piece. */
  lemma {:induction false} SplitAbsent(s: string, sep: string)
    requires sep != [] && !Contains(s, sep)
    ensures Split(s, sep) == [s]
    decreases |s|
  {
    if |s| >= |sep| {
      assert !OccursAt(s, sep, 0);
      forall j ensures !OccursAt(s[1..], sep, j) {
        if 0 <= j && j + |sep| <= |s[1..]| {
          assert s[1..][j..j + |sep|] == s[j + 1..j + 1 + |sep|];
          assert !OccursAt(s, sep, j + 1);
        }
      }
      SplitAbsent(s[1..], sep);
      assert [s[0]] + s[1..] == s;
    }
  }

  /** When `sep` first occurs right after `a`, the split begins with `a`. */
  lemma {:induction false} SplitAfterFirst(a: string, sep: string, b: string)
    requires sep != []
    requires forall j :: 0 <= j < |a| ==> !OccursAt(a + sep + b, sep, j)
    ensures Split(a + sep + b, sep) == [a] + Split(b, sep)
    decreases |a|
  {
    var s := a + sep + b;
    if a == [] {
      assert s == sep + b;
      assert s[..|sep|] == sep && s[|sep|..] == b;
    } else {
      assert !OccursAt(s, sep, 0);
      var tail := a[1..] + sep + b;
      assert s[1..] == tail;
      forall j | 0 <= j < |a[1..]| ensures !OccursAt(tail, sep, j) {
        assert !OccursAt(s, sep, j + 1);
        if j + |sep| <= |tail| {
          assert tail[j..j + |sep|] == s[j + 1..j + 1 + |sep|];
        }
      }
      SplitAfterFirst(a[1..], sep, b);
      assert [a[0]] + a[1..] == a;
    }
  }

  /** A text none of whose characters starts the pattern does not contain it. */
  lemma AbsentFirstChar(s: string, pattern: string)
    requires pattern != []
    requires forall k :: 0 <= k < |s| ==> s[k] != pattern[0]
    ensures !Contains(s, pattern)
  {
    forall j ensures !OccursAt(s, pattern, j) {
      if 0 <= j && j + |pattern| <= |s| {
        assert s[j..j + |pattern|][0] == s[j];
      }
    }
  }

  /** `strings.Replace` with count -1 is the same as splitting on the pattern and
      joining with the replacement: the result is the pattern-free pieces of the
      text with the replacement between them, so every occurrence is replaced. */
  lemma {:induction false} ReplaceAllIsJoinOfSplit(s: string, pattern: string, replacement: string)
    requires pattern != []
    ensures ReplaceAll(s, pattern, replacement) == Join(Split(s, pattern), replacement)
    decreases |s|
  {
    if |s| < |pattern| {
    } else if s[..|pattern|] == pattern {
      var rest := Split(s[|pattern|..], pattern);
      ReplaceAllIsJoinOfSplit(s[|pattern|..], pattern, replacement);
      assert ([[]] + rest)[1..] == rest;
    } else {
      var rest := Split(s[1..], pattern);
      ReplaceAllIsJoinOfSplit(s[1..], pattern, replacement);
      JoinExtendFirst([s[0]], rest, replacement);
    }
  }

  /** A text that does not contain the pattern is left unchanged. */
  lemma ReplaceAllAbsent(s: string, pattern: string, replacement: string)
    requires pattern != [] && !Contains(s, pattern)
    ensures ReplaceAll(s, pattern, replacement) == s
  {
    ReplaceAllIsJoinOfSplit(s, pattern, replacement);
    SplitAbsent(s, pattern);
  }

  // Decimal rendering of sequence indices.

  predicate IsDigit(c: char)
  {
    '0' <= c <= '9'
  }

  function DigitChar(d: nat): (c: char)
    requires d < 10
    ensures IsDigit(c)
  {
    ('0' as int + d) as char
  }

  function DigitValue(c: char): nat
    requires IsDigit(c)
  {
    c as int - '0' as int
  }

  /** A decimal numeral as Go prints a non-negative integer: digits only, and no
      leading zero unless the numeral is "0" itself. */
  predicate IsCanonicalDecimal(s: string)
  {
    s != [] && (forall k :: 0 <= k < |s| ==> IsDigit(s[k])) && (s[0] == '0' ==> |s| == 1)
  }

  /** `fmt.Sprintf("%v", n)` for a non-negative integer. */
  function NatToString(n: nat): (s: string)
    ensures IsCanonicalDecimal(s)
    ensures s[0] == '0' <==> n == 0
    decreases n
  {
    if n < 10 then [DigitChar(n)] else NatToString(n / 10) + [DigitChar(n % 10)]
  }

  /** The value of a numeral (a reference reading, independent of `NatToString`). */
  function DecimalValue(s: string): nat
    requires forall k :: 0 <= k < |s| ==> IsDigit(s[k])
    decreases |s|
  {
    if s == [] then 0 else DecimalValue(s[..|s| - 1]) * 10 + DigitValue(s[|s| - 1])
  }

  /** Reading back a rendered index gives the index. */
  lemma {:induction false} DecimalOfNatToString(n: nat)
    ensures DecimalValue(NatToString(n)) == n
    decreases n
  {
    var s := NatToString(n);
    if n >= 10 {
      DecimalOfNatToString(n / 10);
      assert s[..|s| - 1] == NatToString(n / 10);
    }
  }

  /** Every canonical numeral is the rendering of its value. */
  lemma {:induction false} NatToStringOfDecimal(s: string)
    requires IsCanonicalDecimal(s)
    ensures NatToString(DecimalValue(s)) == s
    decreases |s|
  {
    if |s| == 1 {
      assert s[..0] == [];
      assert DigitChar(DigitValue(s[0])) == s[0];
    } else {
      var prefix := s[..|s| - 1];
      var d := DigitValue(s[|s| - 1]);
      assert prefix[0] == s[0];
      NatToStringOfDecimal(prefix);
      var v := DecimalValue(prefix);
      assert v != 0;
      assert DecimalValue(s) / 10 == v && DecimalValue(s) % 10 == d;
      assert DigitChar(d) == s[|s| - 1];
      assert prefix + [s[|s| - 1]] == s;
    }
  }

  /** Distinct indices are rendered as distinct keys. */
  lemma NatToStringInjective(i: nat, j: nat)
    requires NatToString(i) == NatToString(j)
    ensures i == j
  {
    DecimalOfNatToString(i);
    DecimalOfNatToString(j);
  }
}
