/** String helpers standing for the JavaScript string methods the clients call
    (`toLowerCase`, `trim`, `includes`, `split`, `Number`, the `<` comparison
    of strings) and for the length and format checks of the backend's
    validation attributes. Characters are compared as code points; case
    mapping is that of ASCII. White space is JavaScript's (`IsWhite`) for
    the client helpers and .NET's (`IsDotNetWhite`) for the backend's
    attributes. */
module Text {
  import opened Common

  predicate IsUpper(c: char) { 'A' <= c <= 'Z' }

  predicate IsDigit(c: char) { '0' <= c <= '9' }

  function ToLower(c: char): (r: char)
    ensures !IsUpper(r)
    ensures IsUpper(c) ==> r as int == c as int + 32
    ensures !IsUpper(c) ==> r == c
  {
    if IsUpper(c) then (c as int + 32) as char else c
  }

  /** `String.prototype.toLowerCase`, character by character. */
  function Lower(s: string): (r: string)
    ensures |r| == |s|
    ensures forall i :: 0 <= i < |s| ==> r[i] == ToLower(s[i])
  {
    if s == [] then [] else [ToLower(s[0])] + Lower(s[1..])
  }

  /** Lower-casing twice is lower-casing once. */
  lemma LowerIdempotent(s: string)
    ensures Lower(Lower(s)) == Lower(s)
  {
  }

  /** The Unicode space separators (general category Zs). */
  predicate IsSpaceSeparator(c: char) {
    c == ' ' || c == '\U{A0}' || c == '\U{1680}' || ('\U{2000}' <= c <= '\U{200A}')
    || c == '\U{202F}' || c == '\U{205F}' || c == '\U{3000}'
  }

  /** The white space `String.prototype.trim` strips and `Number` skips:
      tab, vertical tab, form feed, the byte order mark and the space
      separators, and the line terminators line feed, carriage return and
      the line and paragraph separators. */
  predicate IsWhite(c: char) {
    c == '\t' || c == '\U{B}' || c == '\U{C}' || c == '\U{FEFF}' || IsSpaceSeparator(c)
    || c == '\n' || c == '\r' || c == '\U{2028}' || c == '\U{2029}'
  }

  /** `char.IsWhiteSpace`, which `string.IsNullOrWhiteSpace` applies: the
      control characters tab to carriage return and next line, the space
      separators, and the line and paragraph separators; not the byte order
      mark. */
  predicate IsDotNetWhite(c: char) {
    ('\t' <= c <= '\r') || c == '\U{85}' || IsSpaceSeparator(c) || c == '\U{2028}' || c == '\U{2029}'
  }

  /** `string.IsNullOrWhiteSpace` of a present string. */
  predicate AllDotNetWhite(s: string) {
    forall i :: 0 <= i < |s| ==> IsDotNetWhite(s[i])
  }

  predicate AllWhite(s: string) {
    forall i :: 0 <= i < |s| ==> IsWhite(s[i])
  }

  /** Index of the first character that is not white (or `|s|`). */
  function TrimStart(s: string): (i: nat)
    ensures i <= |s|
    ensures forall k :: 0 <= k < i ==> IsWhite(s[k])
    ensures i < |s| ==> !IsWhite(s[i])
  {
    if s == [] || !IsWhite(s[0]) then 0 else 1 + TrimStart(s[1..])
  }

  /** One past the index of the last character that is not white (or 0). */
  function TrimEnd(s: string): (j: nat)
    ensures j <= |s|
    ensures forall k :: j <= k < |s| ==> IsWhite(s[k])
    ensures 0 < j ==> !IsWhite(s[j - 1])
  {
    if s == [] || !IsWhite(s[|s| - 1]) then |s| else TrimEnd(s[..|s| - 1])
  }

  /** `String.prototype.trim`: the part of `s` between its leading and its
      trailing white space. */
  function Trim(s: string): (r: string)
    ensures |r| <= |s|
    ensures r == [] || (!IsWhite(r[0]) && !IsWhite(r[|r| - 1]))
    ensures r == [] <==> AllWhite(s)
  {
    var i := TrimStart(s);
    if i == |s| then []
    else
      var j := TrimEnd(s);
      assert !IsWhite(s[i]);
      s[i..j]
  }

  /** Trimming a string that has no white space at either end returns it. */
  lemma {:induction false} TrimOfTrimmed(s: string)
    requires s == [] || (!IsWhite(s[0]) && !IsWhite(s[|s| - 1]))
    ensures Trim(s) == s
  {
    if s != [] {
      assert TrimStart(s) == 0;
      assert TrimEnd(s) == |s|;
    }
  }

  /** `String.prototype.includes`: `t` occurs in `s` as a contiguous block. */
  predicate Contains(s: string, t: string) {
    exists i | 0 <= i <= |s| :: OccursAt(s, t, i)
  }

  /** `t` occurs in `s` starting at index `i`. */
  predicate OccursAt(s: string, t: string, i: int) {
    0 <= i && i + |t| <= |s| && s[i..i + |t|] == t
  }

  /** Every string contains the empty string and itself. */
  lemma ContainsEmptyAndSelf(s: string)
    ensures Contains(s, [])
    ensures Contains(s, s)
  {
    assert OccursAt(s, [], 0);
    assert OccursAt(s, s, 0);
  }

  /** `strings.join(sep)`. */
  function Join(parts: seq<string>, sep: char): string
    requires |parts| >= 1
  {
    if |parts| == 1 then parts[0] else parts[0] + [sep] + Join(parts[1..], sep)
  }

  /** `String.prototype.split` with a one-character separator: the maximal
      pieces between separators, so that there is always one more piece than
      separators, and no piece holds a separator. */
  function Split(s: string, sep: char): (r: seq<string>)
    ensures |r| >= 1
    ensures forall k :: 0 <= k < |r| ==> sep !in r[k]
    ensures Join(r, sep) == s
  {
    if s == [] then [[]]
    else
      var rest := Split(s[1..], sep);
      if s[0] == sep then [[]] + rest
      else [[s[0]] + rest[0]] + rest[1..]
  }

  /** Splitting a join of separator-free pieces gives the pieces back. */
  lemma {:induction false} SplitJoin(parts: seq<string>, sep: char)
    requires |parts| >= 1
    requires forall k :: 0 <= k < |parts| ==> sep !in parts[k]
    ensures Split(Join(parts, sep), sep) == parts
    decreases |parts|, |parts[0]|
  {
    var p := parts[0];
    if p == [] {
      if |parts| > 1 {
        assert Join(parts, sep) == [sep] + Join(parts[1..], sep);
        assert ([sep] + Join(parts[1..], sep))[1..] == Join(parts[1..], sep);
        SplitJoin(parts[1..], sep);
      }
    } else {
      var parts' := [p[1..]] + parts[1..];
      assert Join(parts, sep) == [p[0]] + Join(parts', sep) by {
        if |parts| > 1 {
          assert parts'[1..] == parts[1..];
        }
      }
      assert ([p[0]] + Join(parts', sep))[1..] == Join(parts', sep);
      SplitJoin(parts', sep);
      assert [p[0]] + p[1..] == p;
    }
  }

  /** The value of a non-empty string of decimal digits. */
  function DigitsValue(s: string): (r: Option<nat>)
    ensures r.Some? <==> (s != [] && forall k :: 0 <= k < |s| ==> IsDigit(s[k]))
  {
    if s == [] then None
    else if !IsDigit(s[|s| - 1]) then None
    else if |s| == 1 then Some(s[0] as int - '0' as int)
    else match DigitsValue(s[..|s| - 1]) {
      case None => None
      case Some(v) => Some(10 * v + (s[|s| - 1] as int - '0' as int))
    }
  }

  /** The decimal representation of `n`, without leading zeros. */
  function Decimal(n: nat): (r: string)
    ensures r != [] && forall k :: 0 <= k < |r| ==> IsDigit(r[k])
  {
    if n < 10 then [('0' as int + n) as char]
    else Decimal(n / 10) + [('0' as int + n % 10) as char]
  }

  /** Reading back the decimal representation of a number gives the number. */
  lemma {:induction false} DigitsValueDecimal(n: nat)
    ensures DigitsValue(Decimal(n)) == Some(n)
  {
    if n >= 10 {
      DigitsValueDecimal(n / 10);
      var d := Decimal(n);
      assert d[..|d| - 1] == Decimal(n / 10);
    }
  }

  /** The index of the first `c` in `s`, or `|s|` when there is none. */
  function IndexOf(s: string, c: char): (i: nat)
    ensures i <= |s|
    ensures i < |s| ==> s[i] == c
    ensures forall k :: 0 <= k < i ==> s[k] != c
  {
    if s == [] || s[0] == c then 0 else 1 + IndexOf(s[1..], c)
  }

  function Pow10(n: nat): (p: nat)
    ensures p >= 1
  {
    if n == 0 then 1 else 10 * Pow10(n - 1)
  }

  /** The value of a digit string that may be empty, an empty one being 0. */
  function DigitsOrZero(s: string): nat {
    if s == [] then 0 else match DigitsValue(s) { case None => 0 case Some(v) => v }
  }

  /** A decimal literal: digits with at most one `.` and at least one digit
      (`"12"`, `"1.5"`, `"1."`, `".5"`), read as its value; anything else is
      not one (None). */
  function DecimalLiteral(t: string): (r: Option<real>)
    ensures '.' !in t ==> r == (match DigitsValue(t) { case None => None case Some(v) => Some(v as real) })
    ensures r.Some? ==> r.value >= 0.0
  {
    var i := IndexOf(t, '.');
    if i == |t| then
      assert '.' !in t;
      match DigitsValue(t) { case None => None case Some(v) => Some(v as real) }
    else
      assert '.' in t;
      var whole, frac := t[..i], t[i + 1..];
      if whole == [] && frac == [] then None
      else if (whole != [] && DigitsValue(whole).None?) || (frac != [] && DigitsValue(frac).None?) then None
      else Some(DigitsOrZero(whole) as real + DigitsOrZero(frac) as real / Pow10(|frac|) as real)
  }

  /** `Number(s)` on the strings the model covers: white space around the
      text is ignored, an empty or all-white string is 0, a decimal literal
      is its value, and anything else is `NaN` (None). */
  function JsNumber(s: string): (r: Option<real>)
    ensures AllWhite(s) ==> r == Some(0.0)
    ensures !AllWhite(s) ==> r == DecimalLiteral(Trim(s))
  {
    var t := Trim(s);
    if t == [] then Some(0.0) else DecimalLiteral(t)
  }

  /** `Number` reads back a decimal representation. */
  lemma JsNumberDecimal(n: nat)
    ensures JsNumber(Decimal(n)) == Some(n as real)
  {
    var d := Decimal(n);
    assert !IsWhite(d[0]) && !IsWhite(d[|d| - 1]);
    TrimOfTrimmed(d);
    DigitsValueDecimal(n);
    assert '.' !in d by {
      assert forall k :: 0 <= k < |d| ==> IsDigit(d[k]);
    }
  }

  /** `Number` reads a fraction: "1.5" is one and a half, and "01.0" is
      one. */
  lemma JsNumberFractions()
    ensures JsNumber("1.5") == Some(1.5)
    ensures JsNumber("01.0") == Some(1.0)
  {
    var a, b := "1.5", "01.0";
    TrimOfTrimmed(a);
    TrimOfTrimmed(b);
    assert IndexOf(a, '.') == 1;
    assert a[..1] == "1" && a[2..] == "5";
    assert IndexOf(b, '.') == 2;
    assert b[..2] == "01" && b[3..] == "0";
    assert DigitsValue("01") == Some(1) by {
      assert "01"[..1] == "0";
    }
  }

  /** The JavaScript `<` on strings: lexicographic order of code points,
      a proper prefix coming first. */
  predicate LexLess(a: string, b: string)
    decreases |a|
  {
    if a == [] then b != []
    else if b == [] then false
    else a[0] < b[0] || (a[0] == b[0] && LexLess(a[1..], b[1..]))
  }

  /** `a <= b` in the same order. */
  predicate LexLe(a: string, b: string) {
    a == b || LexLess(a, b)
  }

  lemma {:induction false} LexTotal(a: string, b: string)
    ensures LexLe(a, b) || LexLe(b, a)
    decreases |a|
  {
    if a != [] && b != [] && a[0] == b[0] {
      LexTotal(a[1..], b[1..]);
      if a[1..] == b[1..] {
        assert a == [a[0]] + a[1..] && b == [b[0]] + b[1..];
      }
    }
  }

  lemma {:induction false} LexLessTransitive(a: string, b: string, c: string)
    requires LexLess(a, b) && LexLess(b, c)
    ensures LexLess(a, c)
    decreases |a|
  {
    if a != [] && a[0] == b[0] && b[0] == c[0] {
      LexLessTransitive(a[1..], b[1..], c[1..]);
    }
  }

  lemma LexLeTransitive(a: string, b: string, c: string)
    requires LexLe(a, b) && LexLe(b, c)
    ensures LexLe(a, c)
  {
    if a != b && b != c {
      LexLessTransitive(a, b, c);
    }
  }

  /** The strict order is irreflexive: no string comes before itself. */
  lemma {:induction false} LexLessIrreflexive(a: string)
    ensures !LexLess(a, a)
    decreases |a|
  {
    if a != [] {
      LexLessIrreflexive(a[1..]);
    }
  }
}
