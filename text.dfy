/**
 * String helpers standing in for the JavaScript string built-ins the pages use:
 * `toLowerCase`/`toUpperCase` (restricted to the ASCII letters), `trim`,
 * `includes`, `split(' ')` with `join`, and the decimal rendering of a number
 * inside a template literal.
 */
module Text {

  /** `toLowerCase` on one character, restricted to the ASCII letters. */
  function Lower(c: char): char
  {
    if 'A' <= c <= 'Z' then (c as int + 32) as char else c
  }

  /** `toUpperCase` on one character, restricted to the ASCII letters. */
  function Upper(c: char): char
  {
    if 'a' <= c <= 'z' then (c as int - 32) as char else c
  }

  function ToLower(s: string): (r: string)
    ensures |r| == |s|
    ensures forall i :: 0 <= i < |s| ==> r[i] == Lower(s[i])
  {
    seq(|s|, i requires 0 <= i < |s| => Lower(s[i]))
  }

  function ToUpper(s: string): (r: string)
    ensures |r| == |s|
    ensures forall i :: 0 <= i < |s| ==> r[i] == Upper(s[i])
  {
    seq(|s|, i requires 0 <= i < |s| => Upper(s[i]))
  }

  /** Lower-casing forgets how a string was cased: the property that makes the
      search in the discovery page case-insensitive. */
  lemma LowerForgetsCase(s: string)
    ensures ToLower(ToUpper(s)) == ToLower(s)
    ensures ToLower(ToLower(s)) == ToLower(s)
  {
    assert forall i :: 0 <= i < |s| ==> ToLower(ToUpper(s))[i] == ToLower(s)[i];
  }

  /** `s.charAt(0).toUpperCase() + s.slice(1)`; the empty string stays empty. */
  function Capitalize(s: string): (r: string)
    ensures |r| == |s|
  {
    if s == [] then [] else [Upper(s[0])] + s[1..]
  }

  /** Capitalizing a lower-case word and lower-casing it again gives the word back. */
  lemma CapitalizeRoundTrip(s: string)
    requires forall i :: 0 <= i < |s| ==> !('A' <= s[i] <= 'Z')
    ensures ToLower(Capitalize(s)) == s
    ensures s != [] && 'a' <= s[0] <= 'z' ==> 'A' <= Capitalize(s)[0] <= 'Z'
  {
    var r := ToLower(Capitalize(s));
    assert |r| == |s|;
    forall i | 0 <= i < |s| ensures r[i] == s[i] {
      if i == 0 {
        assert Capitalize(s)[0] == Upper(s[0]);
      } else {
        assert Capitalize(s)[i] == s[i];
      }
    }
  }

  // ---------------------------------------------------------------------------
  // Whitespace and trim

  /** The characters `String.prototype.trim` removes: WhiteSpace and LineTerminator. */
  predicate IsWhitespace(c: char)
  {
    c == ' ' || c == '\t' || c == '\n' || c == '\r' || c == '\U{000B}' || c == '\U{000C}'
    || c == '\U{00A0}' || c == '\U{1680}' || ('\U{2000}' <= c <= '\U{200A}')
    || c == '\U{2028}' || c == '\U{2029}' || c == '\U{202F}' || c == '\U{205F}'
    || c == '\U{3000}' || c == '\U{FEFF}'
  }

  /** A string made only of whitespace (the empty string included). */
  predicate IsBlank(s: string)
  {
    forall i :: 0 <= i < |s| ==> IsWhitespace(s[i])
  }

  /** Blankness of a concatenation is blankness of both halves. */
  lemma BlankAppend(a: string, b: string)
    ensures IsBlank(a + b) <==> IsBlank(a) && IsBlank(b)
  {
    var ab := a + b;
    if IsBlank(ab) {
      forall j | 0 <= j < |b| ensures IsWhitespace(b[j]) {
        assert b[j] == ab[|a| + j];
      }
      forall j | 0 <= j < |a| ensures IsWhitespace(a[j]) {
        assert a[j] == ab[j];
      }
    }
    if IsBlank(a) && IsBlank(b) {
      forall i | 0 <= i < |ab| ensures IsWhitespace(ab[i]) {
        if i >= |a| {
          assert ab[i] == b[i - |a|];
        }
      }
    }
  }

  /** Drops the leading whitespace: what is left is a suffix that is empty or
      starts with a non-whitespace character, and what is dropped is blank. */
  function TrimStart(s: string): (r: string)
    ensures |r| <= |s| && r == s[|s| - |r|..]
    ensures IsBlank(s[..|s| - |r|])
    ensures r == [] || !IsWhitespace(r[0])
  {
    if s == [] || !IsWhitespace(s[0]) then s
    else
      var r := TrimStart(s[1..]);
      var dropped := s[1..][..|s| - 1 - |r|];
      assert s[..|s| - |r|] == [s[0]] + dropped;
      BlankAppend([s[0]], dropped);
      r
  }

  /** Drops the trailing whitespace: what is left is a prefix that is empty or
      ends with a non-whitespace character, and what is dropped is blank. */
  function TrimEnd(s: string): (r: string)
    ensures |r| <= |s| && r == s[..|r|]
    ensures IsBlank(s[|r|..])
    ensures r == [] || !IsWhitespace(r[|r| - 1])
  {
    if s == [] || !IsWhitespace(s[|s| - 1]) then s
    else
      var prefix := s[..|s| - 1];
      var r := TrimEnd(prefix);
      assert s[|r|..] == prefix[|r|..] + [s[|s| - 1]];
      BlankAppend(prefix[|r|..], [s[|s| - 1]]);
      r
  }

  /** `String.prototype.trim`. */
  function Trim(s: string): string
  {
    TrimEnd(TrimStart(s))
  }

  /** `!s.trim()` holds exactly for the blank strings. */
  lemma TrimEmptyIffBlank(s: string)
    ensures Trim(s) == [] <==> IsBlank(s)
  {
    TrimStartEmptyIffBlank(s);
    TrimEndEmptyIffBlank(TrimStart(s));
  }

  lemma {:induction false} TrimStartEmptyIffBlank(s: string)
    ensures TrimStart(s) == [] <==> IsBlank(s)
  {
    if s != [] {
      TrimStartEmptyIffBlank(s[1..]);
      BlankCons(s);
    }
  }

  lemma {:induction false} TrimEndEmptyIffBlank(s: string)
    ensures TrimEnd(s) == [] <==> IsBlank(s)
  {
    if s != [] {
      TrimEndEmptyIffBlank(s[..|s| - 1]);
      BlankSnoc(s);
    }
  }

  lemma BlankCons(s: string)
    requires s != []
    ensures IsBlank(s) <==> IsWhitespace(s[0]) && IsBlank(s[1..])
  {
    assert s == [s[0]] + s[1..];
    BlankAppend([s[0]], s[1..]);
  }

  lemma BlankSnoc(s: string)
    requires s != []
    ensures IsBlank(s) <==> IsWhitespace(s[|s| - 1]) && IsBlank(s[..|s| - 1])
  {
    assert s == s[..|s| - 1] + [s[|s| - 1]];
    BlankAppend(s[..|s| - 1], [s[|s| - 1]]);
  }

  // ---------------------------------------------------------------------------
  // Substring search

  /** `hay.includes(needle)`. */
  predicate Includes(hay: string, needle: string)
  {
    exists i :: 0 <= i <= |hay| - |needle| && needle <= hay[i..]
  }

  /** Every string includes the empty string. */
  lemma IncludesEmpty(hay: string)
    ensures Includes(hay, "")
  {
    assert "" <= hay[0..];
  }

  // ---------------------------------------------------------------------------
  // split(' ') and join

  /** `s.split(sep)` for a one-character separator: the pieces between separators,
      empty pieces included, and always at least one piece. */
  function Split(s: string, sep: char): (parts: seq<string>)
    ensures |parts| >= 1
    ensures forall p :: p in parts ==> sep !in p
    ensures Join(parts, sep) == s
  {
    if s == [] then [""]
    else
      var rest := Split(s[1..], sep);
      if s[0] == sep then
        assert Join([""] + rest, sep) == [sep] + Join(rest, sep);
        [""] + rest
      else
        var parts := [[s[0]] + rest[0]] + rest[1..];
        JoinHead(parts, sep);
        JoinHead(rest, sep);
        assert s == [s[0]] + s[1..];
        parts
  }

  /** `parts.join(sep)`. */
  function Join(parts: seq<string>, sep: char): string
  {
    if parts == [] then ""
    else if |parts| == 1 then parts[0]
    else parts[0] + [sep] + Join(parts[1..], sep)
  }

  lemma JoinHead(parts: seq<string>, sep: char)
    requires |parts| >= 1
    ensures Join(parts, sep) == parts[0] + (if |parts| == 1 then "" else [sep] + Join(parts[1..], sep))
  {
  }

  /** The number of pieces `split` produces is one more than the separators. */
  lemma {:induction false} SplitCount(s: string, sep: char)
    ensures |Split(s, sep)| == Occurrences(s, sep) + 1
  {
    if s != [] {
      SplitCount(s[1..], sep);
    }
  }

  /** The text before the first separator: the first piece `split` yields. */
  function BeforeSep(s: string, sep: char): (r: string)
    ensures r <= s && sep !in r
    ensures r == s || s[|r|] == sep
  {
    if s == [] || s[0] == sep then [] else [s[0]] + BeforeSep(s[1..], sep)
  }

  lemma {:induction false} BeforeSepSkipsPiece(p: string, rest: string, sep: char)
    requires sep !in p
    ensures BeforeSep(p + rest, sep) == p + BeforeSep(rest, sep)
  {
    if p != [] {
      assert p[0] in p && (p + rest)[0] == p[0];
      assert (p + rest)[1..] == p[1..] + rest;
      assert forall c :: c in p[1..] ==> c in p;
      BeforeSepSkipsPiece(p[1..], rest, sep);
      assert BeforeSep(p + rest, sep) == [p[0]] + BeforeSep(p[1..] + rest, sep);
      assert p == [p[0]] + p[1..];
    } else {
      assert p + rest == rest;
    }
  }

  /** Joining pieces that hold no separator loses nothing: the joined text
      determines the pieces. */
  lemma {:induction false} JoinInjective(a: seq<string>, b: seq<string>, sep: char)
    requires |a| >= 1 && |b| >= 1
    requires forall i :: 0 <= i < |a| ==> sep !in a[i]
    requires forall i :: 0 <= i < |b| ==> sep !in b[i]
    requires Join(a, sep) == Join(b, sep)
    ensures a == b
    decreases |a|
  {
    var s := Join(a, sep);
    JoinHead(a, sep);
    JoinHead(b, sep);
    var ta := if |a| == 1 then "" else [sep] + Join(a[1..], sep);
    var tb := if |b| == 1 then "" else [sep] + Join(b[1..], sep);
    BeforeSepSkipsPiece(a[0], ta, sep);
    BeforeSepSkipsPiece(b[0], tb, sep);
    assert a[0] == BeforeSep(s, sep) == b[0];
    assert |a| > 1 <==> |s| > |a[0]|;
    assert |b| > 1 <==> |s| > |b[0]|;
    if |a| > 1 {
      assert Join(a[1..], sep) == s[|a[0]| + 1..] == Join(b[1..], sep);
      JoinInjective(a[1..], b[1..], sep);
      assert a == [a[0]] + a[1..] && b == [b[0]] + b[1..];
    }
  }

  /** `split` undoes `join` on pieces that hold no separator. */
  lemma SplitJoin(parts: seq<string>, sep: char)
    requires |parts| >= 1
    requires forall i :: 0 <= i < |parts| ==> sep !in parts[i]
    ensures Split(Join(parts, sep), sep) == parts
  {
    var split := Split(Join(parts, sep), sep);
    assert forall i :: 0 <= i < |split| ==> split[i] in split;
    JoinInjective(Split(Join(parts, sep), sep), parts, sep);
  }

  function Occurrences(s: string, c: char): nat
  {
    if s == [] then 0 else (if s[0] == c then 1 else 0) + Occurrences(s[1..], c)
  }

  // ---------------------------------------------------------------------------
  // Decimal rendering of a natural number, as in `${n}`

  function DigitChar(d: nat): char
    requires d < 10
  {
    "0123456789"[d]
  }

  function DigitValue(c: char): nat
  {
    if '0' <= c <= '9' then c as int - '0' as int else 0
  }

  predicate IsDigit(c: char)
  {
    '0' <= c <= '9'
  }

  function NatToString(n: nat): (s: string)
    ensures |s| >= 1
    ensures forall i :: 0 <= i < |s| ==> IsDigit(s[i])
    ensures |s| > 1 ==> s[0] != '0'
  {
    if n < 10 then [DigitChar(n)] else NatToString(n / 10) + [DigitChar(n % 10)]
  }

  /** Reads a string of decimal digits back as a number. */
  function ParseNat(s: string): nat
  {
    if s == [] then 0 else 10 * ParseNat(s[..|s| - 1]) + DigitValue(s[|s| - 1])
  }

  /** Rendering a number in decimal loses nothing: parsing gives it back. */
  lemma {:induction false} ParseNatToString(n: nat)
    ensures ParseNat(NatToString(n)) == n
  {
    var s := NatToString(n);
    if n < 10 {
      assert s[..0] == [];
    } else {
      ParseNatToString(n / 10);
      assert s[..|s| - 1] == NatToString(n / 10);
    }
  }

  /** A decimal numeral as `${n}` writes one: digits only, no leading zero. */
  predicate IsNumeral(s: string)
  {
    |s| >= 1 && (forall i :: 0 <= i < |s| ==> IsDigit(s[i])) && (|s| > 1 ==> s[0] != '0')
  }

  lemma {:induction false} NumeralWithoutLeadingZero(s: string)
    requires IsNumeral(s) && s[0] != '0'
    ensures ParseNat(s) >= 1
    decreases |s|
  {
    if |s| > 1 {
      NumeralWithoutLeadingZero(s[..|s| - 1]);
    } else {
      assert s[..0] == [];
    }
  }

  /** Every numeral is the rendering of the number it denotes. */
  lemma {:induction false} NatToStringParseNat(s: string)
    requires IsNumeral(s)
    ensures NatToString(ParseNat(s)) == s
    decreases |s|
  {
    var init, c := s[..|s| - 1], s[|s| - 1];
    var n := ParseNat(s);
    assert DigitChar(DigitValue(c)) == c;
    if |s| == 1 {
      assert init == [];
      assert s == [c];
    } else {
      assert init[0] == s[0];
      NumeralWithoutLeadingZero(init);
      NatToStringParseNat(init);
      assert n / 10 == ParseNat(init) && n % 10 == DigitValue(c);
      assert s == init + [c];
    }
  }

  /** So two numbers render the same exactly when they are equal. */
  lemma NatToStringInjective(a: nat, b: nat)
    ensures NatToString(a) == NatToString(b) <==> a == b
  {
    if NatToString(a) == NatToString(b) {
      ParseNatToString(a);
      ParseNatToString(b);
    }
  }
}
