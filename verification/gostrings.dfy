/** The part of Go's `strings` package that main.go relies on. A Go string
    is seen here as its sequence of decoded runes. */
module GoStrings {

  /** The NUL rune that separates the tokens of a channel payload. */
  const Nul: char := '\0'

  /** unicode.IsSpace: the ASCII white space characters, NEL, NO-BREAK SPACE
      and the Unicode White_Space characters above Latin-1. */
  predicate IsSpace(c: char)
  {
    || c == ' ' || c == '\t' || c == '\n' || c == '\U{B}' || c == '\U{C}' || c == '\r'
    || c == '\U{85}' || c == '\U{A0}' || c == '\U{1680}'
    || ('\U{2000}' <= c <= '\U{200A}')
    || c == '\U{2028}' || c == '\U{2029}' || c == '\U{202F}' || c == '\U{205F}'
    || c == '\U{3000}'
  }

  predicate AllSpace(s: string)
  {
    forall k :: 0 <= k < |s| ==> IsSpace(s[k])
  }

  predicate NoSpace(s: string)
  {
    forall k :: 0 <= k < |s| ==> !IsSpace(s[k])
  }

  /** strings.HasPrefix */
  predicate HasPrefix(s: string, prefix: string)
  {
    |prefix| <= |s| && s[..|prefix|] == prefix
  }

  /** strings.HasSuffix */
  predicate HasSuffix(s: string, suffix: string)
  {
    |suffix| <= |s| && s[|s| - |suffix|..] == suffix
  }

  /** `sub` occurs in `s` starting at position `i`. */
  predicate OccursAt(s: string, sub: string, i: nat)
  {
    i + |sub| <= |s| && s[i..i + |sub|] == sub
  }

  /** The number of white space runes `s` starts with. */
  function LeadingSpaces(s: string): (n: nat)
    ensures n <= |s|
    ensures forall k :: 0 <= k < n ==> IsSpace(s[k])
    ensures n < |s| ==> !IsSpace(s[n])
  {
    if s != [] && IsSpace(s[0]) then 1 + LeadingSpaces(s[1..]) else 0
  }

  /** The number of white space runes `s` ends with. */
  function TrailingSpaces(s: string): (n: nat)
    ensures n <= |s|
    ensures forall k :: |s| - n <= k < |s| ==> IsSpace(s[k])
    ensures n < |s| ==> !IsSpace(s[|s| - n - 1])
  {
    if s != [] && IsSpace(s[|s| - 1]) then 1 + TrailingSpaces(s[..|s| - 1]) else 0
  }

  /** strings.TrimLeftFunc(s, unicode.IsSpace) */
  function TrimLeft(s: string): string
  {
    s[LeadingSpaces(s)..]
  }

  /** strings.TrimRightFunc(s, unicode.IsSpace) */
  function TrimRight(s: string): string
  {
    s[..|s| - TrailingSpaces(s)]
  }

  /** strings.TrimSpace: the part of `s` between its leading and its
      trailing white space. */
  function TrimSpace(s: string): (r: string)
    ensures var i := LeadingSpaces(s);
            && i + |r| <= |s| && r == s[i..i + |r|]
            && (forall k :: 0 <= k < i ==> IsSpace(s[k]))
            && (forall k :: i + |r| <= k < |s| ==> IsSpace(s[k]))
    ensures r != [] ==> !IsSpace(r[0]) && !IsSpace(r[|r| - 1])
  {
    TrimRight(TrimLeft(s))
  }

  /** The longest prefix of `s` that holds no white space. */
  function Word(s: string): (w: string)
    ensures |w| <= |s| && w == s[..|w|] && NoSpace(w)
    ensures |w| < |s| ==> IsSpace(s[|w|])
  {
    if s == [] || IsSpace(s[0]) then []
    else
      var w := [s[0]] + Word(s[1..]);
      assert s[..|w|] == [s[0]] + s[1..][..|w| - 1];
      w
  }

  /** strings.Fields: the maximal runs of non-space runes of `s`, in order. */
  function Fields(s: string): (r: seq<string>)
    ensures forall k :: 0 <= k < |r| ==> r[k] != [] && NoSpace(r[k])
    ensures r == [] <==> AllSpace(s)
    decreases |s|
  {
    if s == [] then []
    else if IsSpace(s[0]) then Fields(s[1..])
    else
      var w := Word(s);
      [w] + Fields(s[|w|..])
  }

  /** strings.Join */
  function Join(parts: seq<string>, sep: string): string
  {
    if parts == [] then []
    else if |parts| == 1 then parts[0]
    else parts[0] + sep + Join(parts[1..], sep)
  }

  /** strings.Split with a one-rune separator: the pieces of `s` between
      the separators. The pieces never contain the separator and joining
      them back gives `s`. */
  function Split(s: string, sep: char): (r: seq<string>)
    ensures |r| >= 1
    ensures forall k :: 0 <= k < |r| ==> sep !in r[k]
    ensures Join(r, [sep]) == s
  {
    if s == [] then [[]]
    else
      var rest := Split(s[1..], sep);
      if s[0] == sep then
        assert [[]] + rest == [[]] + ([rest[0]] + rest[1..]);
        [[]] + rest
      else
        var r := [[s[0]] + rest[0]] + rest[1..];
        assert Join(r, [sep]) == [s[0]] + Join(rest, [sep]) by {
          if |rest| > 1 {
            assert r[1..] == rest[1..];
          }
        }
        r
  }

  /** A rune lowered as unicode.ToLower lowers the ASCII letters. */
  function LowerRune(c: char): char
  {
    if 'A' <= c <= 'Z' then (c as int + 32) as char else c
  }

  /** strings.ToLower, on its ASCII letters. */
  function ToLower(s: string): string
  {
    if s == [] then [] else [LowerRune(s[0])] + ToLower(s[1..])
  }

  /** ToLower lowers the two halves of a string independently. */
  lemma {:induction false} LowerAppend(a: string, b: string)
    ensures ToLower(a + b) == ToLower(a) + ToLower(b)
    decreases |a|
  {
    if a == [] {
      assert a + b == b;
    } else {
      assert (a + b)[1..] == a[1..] + b;
      LowerAppend(a[1..], b);
    }
  }

  /** strings.Index: the first position at which `sub` occurs in `s`, or -1. */
  function Index(s: string, sub: string): (r: int)
    ensures r >= -1
    ensures r >= 0 ==> OccursAt(s, sub, r) && forall j :: 0 <= j < r ==> !OccursAt(s, sub, j)
    ensures r == -1 ==> forall j :: 0 <= j <= |s| ==> !OccursAt(s, sub, j)
    decreases |s|
  {
    if |s| < |sub| then -1
    else if s[..|sub|] == sub then 0
    else
      var k := Index(s[1..], sub);
      assert !OccursAt(s, sub, 0);
      assert forall j :: 0 < j <= |s| ==> (OccursAt(s, sub, j) <==> OccursAt(s[1..], sub, j - 1)) by {
        forall j | 0 < j <= |s|
          ensures OccursAt(s, sub, j) <==> OccursAt(s[1..], sub, j - 1)
        {
          if j + |sub| <= |s| {
            assert s[1..][j - 1..j - 1 + |sub|] == s[j..j + |sub|];
          }
        }
      }
      if k < 0 then -1 else k + 1
  }

  /** strings.Replace(s, pattern, repl, 1): the first occurrence of
      `pattern` replaced by `repl`. */
  function ReplaceFirst(s: string, pattern: string, repl: string): (r: string)
    ensures HasPrefix(s, pattern) ==> r == repl + s[|pattern|..]
    ensures (forall j :: 0 <= j <= |s| ==> !OccursAt(s, pattern, j)) ==> r == s
  {
    var i := Index(s, pattern);
    if i < 0 then s else s[..i] + repl + s[i + |pattern|..]
  }

  // ---------------------------------------------------------------------
  // Fields and TrimSpace

  /** Leading white space contributes no field. */
  lemma {:induction false} FieldsSkipLeading(a: string, x: string)
    requires AllSpace(a)
    ensures Fields(a + x) == Fields(x)
    decreases |a|
  {
    if a == [] {
      assert a + x == x;
    } else {
      assert (a + x)[1..] == a[1..] + x;
      FieldsSkipLeading(a[1..], x);
    }
  }

  /** Trailing white space does not change the first word. */
  lemma {:induction false} WordDropTrailing(x: string, b: string)
    requires AllSpace(b)
    ensures Word(x + b) == Word(x)
    decreases |x|
  {
    if x != [] && !IsSpace(x[0]) {
      assert (x + b)[1..] == x[1..] + b;
      WordDropTrailing(x[1..], b);
    }
  }

  /** Trailing white space contributes no field. */
  lemma {:induction false} FieldsDropTrailing(x: string, b: string)
    requires AllSpace(b)
    ensures Fields(x + b) == Fields(x)
    decreases |x|
  {
    if x == [] {
      assert x + b == b;
    } else if IsSpace(x[0]) {
      assert (x + b)[1..] == x[1..] + b;
      FieldsDropTrailing(x[1..], b);
    } else {
      WordDropTrailing(x, b);
      var w := Word(x);
      assert (x + b)[|w|..] == x[|w|..] + b;
      FieldsDropTrailing(x[|w|..], b);
    }
  }

  /** A sequence is its prefix followed by its suffix. */
  lemma SplitAt(s: string, i: nat)
    requires i <= |s|
    ensures s == s[..i] + s[i..]
  {
  }

  /** Trimming the leading white space keeps the fields. */
  lemma FieldsOfTrimmedLeft(s: string)
    ensures Fields(TrimLeft(s)) == Fields(s)
  {
    var i := LeadingSpaces(s);
    SplitAt(s, i);
    assert AllSpace(s[..i]) by {
      forall k | 0 <= k < i ensures IsSpace(s[..i][k]) {
        assert s[..i][k] == s[k];
      }
    }
    FieldsSkipLeading(s[..i], s[i..]);
  }

  /** Trimming the trailing white space keeps the fields. */
  lemma FieldsOfTrimmedRight(s: string)
    ensures Fields(TrimRight(s)) == Fields(s)
  {
    var j := |s| - TrailingSpaces(s);
    SplitAt(s, j);
    assert AllSpace(s[j..]) by {
      forall k | 0 <= k < |s| - j ensures IsSpace(s[j..][k]) {
        assert s[j..][k] == s[j + k];
      }
    }
    FieldsDropTrailing(s[..j], s[j..]);
  }

  /** Trimming a line does not change its fields, which is why a parser
      may trim before splitting. */
  lemma FieldsOfTrimmed(s: string)
    ensures Fields(TrimSpace(s)) == Fields(s)
  {
    FieldsOfTrimmedLeft(s);
    FieldsOfTrimmedRight(TrimLeft(s));
  }

  /** A word followed by nothing or by white space is the first field. */
  lemma {:induction false} FieldsOfLeadingWord(w: string, rest: string)
    requires w != [] && NoSpace(w)
    requires rest == [] || IsSpace(rest[0])
    ensures Fields(w + rest) == [w] + Fields(rest)
  {
    WordOfLeadingWord(w, rest);
    assert (w + rest)[|w|..] == rest;
  }

  lemma {:induction false} WordOfLeadingWord(w: string, rest: string)
    requires NoSpace(w)
    requires rest == [] || IsSpace(rest[0])
    ensures Word(w + rest) == w
    decreases |w|
  {
    if w == [] {
      assert w + rest == rest;
    } else {
      assert (w + rest)[1..] == w[1..] + rest;
      WordOfLeadingWord(w[1..], rest);
    }
  }

  /** Fields inverts joining non-empty, space-free words with single spaces. */
  lemma {:induction false} FieldsOfJoin(words: seq<string>)
    requires forall k :: 0 <= k < |words| ==> words[k] != [] && NoSpace(words[k])
    ensures Fields(Join(words, " ")) == words
    decreases |words|
  {
    if |words| == 1 {
      FieldsOfLeadingWord(words[0], []);
      assert words[0] + [] == words[0];
    } else if |words| > 1 {
      var rest := Join(words[1..], " ");
      assert Join(words, " ") == words[0] + (" " + rest);
      FieldsOfLeadingWord(words[0], " " + rest);
      FieldsSkipLeading(" ", rest);
      FieldsOfJoin(words[1..]);
    }
  }

  // ---------------------------------------------------------------------
  // Split and Join

  /** A piece without the separator is split off whole. */
  lemma {:induction false} SplitLeadingPiece(w: string, s: string, sep: char)
    requires sep !in w
    ensures Split(w + [sep] + s, sep) == [w] + Split(s, sep)
    decreases |w|
  {
    if w == [] {
      assert (w + [sep] + s)[1..] == s;
    } else {
      assert (w + [sep] + s)[1..] == w[1..] + [sep] + s;
      SplitLeadingPiece(w[1..], s, sep);
      assert [w[0]] + w[1..] == w;
    }
  }

  /** A string without the separator splits into itself. */
  lemma {:induction false} SplitWithoutSeparator(w: string, sep: char)
    requires sep !in w
    ensures Split(w, sep) == [w]
    decreases |w|
  {
    if w != [] {
      SplitWithoutSeparator(w[1..], sep);
      assert [w[0]] + w[1..] == w;
    }
  }

  /** Split inverts Join on a non-empty list of separator-free pieces. */
  lemma {:induction false} SplitOfJoin(parts: seq<string>, sep: char)
    requires |parts| >= 1
    requires forall k :: 0 <= k < |parts| ==> sep !in parts[k]
    ensures Split(Join(parts, [sep]), sep) == parts
    decreases |parts|
  {
    if |parts| == 1 {
      SplitWithoutSeparator(parts[0], sep);
    } else {
      SplitLeadingPiece(parts[0], Join(parts[1..], [sep]), sep);
      SplitOfJoin(parts[1..], sep);
    }
  }
}
