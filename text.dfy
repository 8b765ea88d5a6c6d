/**
 * The JavaScript string operations the site's code relies on, over `string` (`seq<char>`):
 * `trim`, ASCII `toLowerCase`, `split` on one character, `join`, `includes`,
 * `parseInt(_, 10)`, decimal printing of integers, `padStart(2, '0')`, and the
 * ordering used by `<` and `localeCompare` on strings.
 */
module Text {
  import opened Wrappers

  // ---------------------------------------------------------------------------
  // Whitespace and trimming

  /** The characters `String.prototype.trim` removes and a regular expression's `\s`
      matches: ASCII white space, the line terminators, the byte-order mark and the space
      separators of Unicode 15 (no-break space, ogham space mark, the spaces U+2000 to
      U+200A, narrow no-break space, medium mathematical space, ideographic space). */
  predicate IsWhitespace(c: char) {
    c == ' ' || c == '\t' || c == '\n' || c == '\r' || c == '\U{000B}' || c == '\U{000C}'
    || c == '\U{00A0}' || c == '\U{1680}' || '\U{2000}' <= c <= '\U{200A}'
    || c == '\U{2028}' || c == '\U{2029}' || c == '\U{202F}' || c == '\U{205F}'
    || c == '\U{3000}' || c == '\U{FEFF}'
  }

  predicate IsBlank(s: string) {
    forall i :: 0 <= i < |s| ==> IsWhitespace(s[i])
  }

  /** `s.trimStart()`; `TrimStartShape` states what it removes. */
  function TrimStart(s: string): (r: string)
    ensures |r| <= |s|
  {
    if s != [] && IsWhitespace(s[0]) then TrimStart(s[1..]) else s
  }

  /** `s.trimEnd()`; `TrimEndShape` states what it removes. */
  function TrimEnd(s: string): (r: string)
    ensures |r| <= |s|
  {
    if s != [] && IsWhitespace(s[|s| - 1]) then TrimEnd(s[..|s| - 1]) else s
  }

  /** `s.trim()`: the longest infix of `s` that neither starts nor ends with white space
      (`TrimShape`). */
  function Trim(s: string): (r: string)
    ensures |r| <= |s|
  {
    TrimEnd(TrimStart(s))
  }

  /** `trimStart` keeps a suffix of `s` that does not start with white space, and
      everything it drops is white space. */
  lemma {:induction false} TrimStartShape(s: string)
    ensures TrimStart(s) == s[|s| - |TrimStart(s)|..]
    ensures TrimStart(s) == [] || !IsWhitespace(TrimStart(s)[0])
    ensures forall i :: 0 <= i < |s| - |TrimStart(s)| ==> IsWhitespace(s[i])
    decreases |s|
  {
    if s != [] && IsWhitespace(s[0]) {
      TrimStartShape(s[1..]);
    }
  }

  /** `trimEnd` keeps a prefix of `s` that does not end with white space, and everything
      it drops is white space. */
  lemma {:induction false} TrimEndShape(s: string)
    ensures TrimEnd(s) == s[..|TrimEnd(s)|]
    ensures TrimEnd(s) == [] || !IsWhitespace(TrimEnd(s)[|TrimEnd(s)| - 1])
    ensures forall i :: |TrimEnd(s)| <= i < |s| ==> IsWhitespace(s[i])
    decreases |s|
  {
    if s != [] && IsWhitespace(s[|s| - 1]) {
      TrimEndShape(s[..|s| - 1]);
    }
  }

  /** The result of `trim` has no white space at either end, and it is empty exactly when
      `s` is all white space. */
  lemma TrimShape(s: string)
    ensures Trim(s) == [] || (!IsWhitespace(Trim(s)[0]) && !IsWhitespace(Trim(s)[|Trim(s)| - 1]))
    ensures Trim(s) == [] <==> IsBlank(s)
  {
    var t := TrimStart(s);
    TrimStartShape(s);
    TrimEndShape(t);
    var r := TrimEnd(t);
    if r != [] {
      assert r[0] == t[0] == s[|s| - |t|];
      assert !IsWhitespace(s[|s| - |t|]);
    } else {
      assert t == [];
    }
  }

  /** A string with no white space at either end is left alone by `trim`. */
  lemma TrimUnchanged(s: string)
    requires s == [] || (!IsWhitespace(s[0]) && !IsWhitespace(s[|s| - 1]))
    ensures Trim(s) == s
  {
  }

  /** Leading white space is removed by `trim`. */
  lemma {:induction false} TrimDropsLeadingSpace(w: string, s: string)
    requires IsBlank(w)
    requires s == [] || (!IsWhitespace(s[0]) && !IsWhitespace(s[|s| - 1]))
    ensures Trim(w + s) == s
  {
    if w == [] {
      assert w + s == s;
    } else {
      assert (w + s)[1..] == w[1..] + s;
      TrimDropsLeadingSpace(w[1..], s);
    }
  }

  lemma {:induction false} TrimStartBlankPrefix(w: string, t: string)
    requires IsBlank(w)
    requires t == [] || !IsWhitespace(t[0])
    ensures TrimStart(w + t) == t
  {
    if w == [] {
      assert w + t == t;
    } else {
      assert (w + t)[1..] == w[1..] + t;
      TrimStartBlankPrefix(w[1..], t);
    }
  }

  lemma {:induction false} TrimEndBlankSuffix(t: string, w: string)
    requires IsBlank(w)
    requires t == [] || !IsWhitespace(t[|t| - 1])
    ensures TrimEnd(t + w) == t
  {
    if w == [] {
      assert t + w == t;
    } else {
      var w' := w[..|w| - 1];
      assert (t + w)[..|t + w| - 1] == t + w';
      TrimEndBlankSuffix(t, w');
    }
  }

  /** White space around a word is exactly what `trim` takes away. */
  lemma {:induction false} TrimPadded(w1: string, s: string, w2: string)
    requires IsBlank(w1) && IsBlank(w2)
    requires s != [] && !IsWhitespace(s[0]) && !IsWhitespace(s[|s| - 1])
    ensures Trim(w1 + s + w2) == s
  {
    assert w1 + s + w2 == w1 + (s + w2);
    TrimStartBlankPrefix(w1, s + w2);
    TrimEndBlankSuffix(s, w2);
  }

  // ---------------------------------------------------------------------------
  // Case

  /** The lower case of `c` where it is an ASCII letter: `A` to `Z`, and the Kelvin sign
      U+212A, whose lower case is `k`. */
  function LowerChar(c: char): char {
    if 'A' <= c <= 'Z' then (c as int + 32) as char
    else if c == '\U{212A}' then 'k'
    else c
  }

  /** `s.toLowerCase()` as far as it yields ASCII letters; other characters are kept. */
  function Lower(s: string): (r: string)
    ensures |r| == |s|
    ensures forall i :: 0 <= i < |s| ==> r[i] == LowerChar(s[i])
  {
    if s == [] then [] else [LowerChar(s[0])] + Lower(s[1..])
  }

  function UpperChar(c: char): char {
    if 'a' <= c <= 'z' then (c as int - 32) as char else c
  }

  /** Lower-casing a string that has no upper-case ASCII letter and no Kelvin sign changes
      nothing. */
  lemma LowerUnchanged(s: string)
    requires forall i :: 0 <= i < |s| ==> !('A' <= s[i] <= 'Z') && s[i] != '\U{212A}'
    ensures Lower(s) == s
  {
  }

  lemma {:induction false} LowerIdempotent(s: string)
    ensures Lower(Lower(s)) == Lower(s)
  {
    var once := Lower(s);
    assert forall i :: 0 <= i < |s| ==> Lower(once)[i] == LowerChar(once[i]) == once[i];
  }

  /** Lower-casing leaves white space where it was, so it commutes with trimming. */
  lemma {:induction false} TrimLower(s: string)
    ensures Trim(Lower(s)) == Lower(Trim(s))
  {
    TrimStartLower(s);
    TrimEndLower(TrimStart(s));
  }

  /** Lower-casing neither makes nor removes white space. */
  lemma LowerCharWhitespace(c: char)
    ensures IsWhitespace(LowerChar(c)) <==> IsWhitespace(c)
  {
  }

  lemma {:induction false} TrimStartLower(s: string)
    ensures TrimStart(Lower(s)) == Lower(TrimStart(s))
  {
    if s != [] {
      assert Lower(s)[1..] == Lower(s[1..]);
      LowerCharWhitespace(s[0]);
      TrimStartLower(s[1..]);
    }
  }

  lemma {:induction false} TrimEndLower(s: string)
    ensures TrimEnd(Lower(s)) == Lower(TrimEnd(s))
  {
    if s != [] {
      var init := s[..|s| - 1];
      assert Lower(s)[..|s| - 1] == Lower(init);
      LowerCharWhitespace(s[|s| - 1]);
      TrimEndLower(init);
    }
  }

  // ---------------------------------------------------------------------------
  // split and join

  /** `parts.join(sep)`. */
  function Join(parts: seq<string>, sep: string): string {
    if |parts| == 0 then ""
    else if |parts| == 1 then parts[0]
    else parts[0] + sep + Join(parts[1..], sep)
  }

  /** `s.split(sep)` for a one-character separator. */
  function Split(s: string, sep: char): (r: seq<string>)
    ensures |r| >= 1
    ensures forall i :: 0 <= i < |r| ==> sep !in r[i]
  {
    if s == [] then [[]]
    else
      var rest := Split(s[1..], sep);
      if s[0] == sep then [[]] + rest else [[s[0]] + rest[0]] + rest[1..]
  }

  /** Joining the pieces of a split gives the string back. */
  lemma {:induction false} JoinSplit(s: string, sep: char)
    ensures Join(Split(s, sep), [sep]) == s
  {
    if s != [] {
      var rest := Split(s[1..], sep);
      JoinSplit(s[1..], sep);
      if s[0] == sep {
        assert Split(s, sep) == [[]] + rest;
        if |rest| == 1 {
          assert Join([[]] + rest, [sep]) == [] + [sep] + rest[0];
        } else {
          assert ([[]] + rest)[1..] == rest;
        }
      } else {
        var head := [s[0]] + rest[0];
        assert Split(s, sep) == [head] + rest[1..];
        if |rest| == 1 {
          assert s == [s[0]] + s[1..];
        } else {
          assert ([head] + rest[1..])[1..] == rest[1..];
          assert rest == [rest[0]] + rest[1..];
          assert Join(rest, [sep]) == rest[0] + [sep] + Join(rest[1..], [sep]);
          assert s == [s[0]] + s[1..];
        }
      }
    }
  }

  /** A piece without the separator followed by the separator splits off as one piece. */
  lemma {:induction false} SplitAppend(a: string, b: string, sep: char)
    requires sep !in a
    ensures Split(a + [sep] + b, sep) == [a] + Split(b, sep)
  {
    if a == [] {
      assert a + [sep] + b == [sep] + b;
      assert ([sep] + b)[1..] == b;
    } else {
      assert (a + [sep] + b)[1..] == a[1..] + [sep] + b;
      SplitAppend(a[1..], b, sep);
      assert [a[0]] + a[1..] == a;
    }
  }

  /** A string without the separator splits into itself alone. */
  lemma {:induction false} SplitNoSeparator(a: string, sep: char)
    requires sep !in a
    ensures Split(a, sep) == [a]
  {
    if a != [] {
      SplitNoSeparator(a[1..], sep);
      assert [a[0]] + a[1..] == a;
    }
  }

  /** Splitting a join of separator-free pieces gives the pieces back. */
  lemma {:induction false} SplitJoin(parts: seq<string>, sep: char)
    requires |parts| >= 1
    requires forall i :: 0 <= i < |parts| ==> sep !in parts[i]
    ensures Split(Join(parts, [sep]), sep) == parts
  {
    if |parts| == 1 {
      SplitNoSeparator(parts[0], sep);
    } else {
      SplitJoin(parts[1..], sep);
      SplitAppend(parts[0], Join(parts[1..], [sep]), sep);
      assert parts == [parts[0]] + parts[1..];
    }
  }

  // ---------------------------------------------------------------------------
  // Substrings

  predicate IsPrefixOf(p: string, s: string) {
    |p| <= |s| && s[..|p|] == p
  }

  /** `sub` occurs in `s` starting at index `i`. */
  predicate OccursAt(s: string, sub: string, i: int) {
    0 <= i <= |s| - |sub| && s[i..i + |sub|] == sub
  }

  /** `s.includes(sub)`. */
  function Contains(s: string, sub: string): (b: bool)
    ensures b <==> exists i :: OccursAt(s, sub, i)
  {
    if IsPrefixOf(sub, s) then
      assert OccursAt(s, sub, 0);
      true
    else if s == [] then
      assert forall i :: !OccursAt(s, sub, i);
      false
    else
      var b := Contains(s[1..], sub);
      assert forall i :: OccursAt(s, sub, i) <==> (i == 0 && IsPrefixOf(sub, s)) || (i >= 1 && OccursAt(s[1..], sub, i - 1));
      assert b ==> OccursAt(s, sub, (var j :| OccursAt(s[1..], sub, j); j) + 1);
      b
  }

  // ---------------------------------------------------------------------------
  // Decimal numbers

  predicate IsDigit(c: char) {
    '0' <= c <= '9'
  }

  predicate AllDigits(s: string) {
    forall i :: 0 <= i < |s| ==> IsDigit(s[i])
  }

  function DigitChar(d: nat): char
    requires d < 10
  {
    ('0' as int + d) as char
  }

  function DigitValue(c: char): nat
    requires IsDigit(c)
  {
    c as int - '0' as int
  }

  /** The value of a run of decimal digits, most significant first. */
  function DigitsValue(s: string): nat
    requires AllDigits(s)
  {
    if s == [] then 0 else DigitsValue(s[..|s| - 1]) * 10 + DigitValue(s[|s| - 1])
  }

  /** `n.toString()` for a non-negative integer: no sign, no leading zero. */
  function NatToString(n: nat): (r: string)
    ensures |r| >= 1 && AllDigits(r)
    ensures |r| > 1 ==> r[0] != '0'
  {
    if n < 10 then [DigitChar(n)] else NatToString(n / 10) + [DigitChar(n % 10)]
  }

  /** `n.toString()` for any integer. */
  function IntToString(n: int): (r: string)
    ensures |r| >= 1
  {
    if n < 0 then "-" + NatToString(-n) else NatToString(n)
  }

  /** Reading back a printed number gives the number. */
  lemma {:induction false} DigitsValueOfNatToString(n: nat)
    ensures DigitsValue(NatToString(n)) == n
  {
    if n >= 10 {
      var s := NatToString(n);
      DigitsValueOfNatToString(n / 10);
      assert s[..|s| - 1] == NatToString(n / 10);
    }
  }

  /** The longest prefix of `s` made of digits. */
  function DigitPrefix(s: string): (r: string)
    ensures AllDigits(r) && IsPrefixOf(r, s)
    ensures |r| == |s| || !IsDigit(s[|r|])
  {
    if s != [] && IsDigit(s[0]) then [s[0]] + DigitPrefix(s[1..]) else []
  }

  lemma {:induction false} DigitPrefixOfDigits(s: string)
    requires AllDigits(s)
    ensures DigitPrefix(s) == s
  {
    if s != [] {
      DigitPrefixOfDigits(s[1..]);
    }
  }

  /** `parseInt(s, 10)`: leading white space, an optional sign, then the longest run of
      digits; `None` stands for `NaN` (no digit where one is required). */
  function ParseIntPrefix(s: string): (r: Option<int>)
    ensures r.None? <==> DigitPrefix(if TrimStart(s) != [] && TrimStart(s)[0] in "+-"
                                         then TrimStart(s)[1..] else TrimStart(s)) == []
  {
    var t := TrimStart(s);
    var negative := t != [] && t[0] == '-';
    var body := if t != [] && t[0] in "+-" then t[1..] else t;
    var digits := DigitPrefix(body);
    if digits == [] then None
    else if negative then Some(-(DigitsValue(digits) as int))
    else Some(DigitsValue(digits))
  }

  /** `parseInt` reads back what `toString` wrote. */
  lemma ParseIntOfNatToString(n: nat)
    ensures ParseIntPrefix(NatToString(n)) == Some(n)
  {
    var s := NatToString(n);
    assert TrimStart(s) == s by {
      assert s[0] != ' ' && !IsWhitespace(s[0]);
    }
    assert s[0] !in "+-";
    DigitPrefixOfDigits(s);
    DigitsValueOfNatToString(n);
  }

  /** `Number(s)` for the integer spellings: surrounding white space is ignored, the empty
      string is 0, an optional sign precedes the digits; anything else is `NaN` (`None`). */
  function NumberValue(s: string): (r: Option<int>)
    ensures IsBlank(s) ==> r == Some(0)
    ensures AllDigits(Trim(s)) ==> r == Some(DigitsValue(Trim(s)))
  {
    TrimShape(s);
    var t := Trim(s);
    if t == [] then Some(0)
    else if AllDigits(t) then Some(DigitsValue(t))
    else if |t| > 1 && t[0] in "+-" && AllDigits(t[1..]) then
      (if t[0] == '-' then Some(-(DigitsValue(t[1..]) as int)) else Some(DigitsValue(t[1..])))
    else None
  }

  /** A sign before the digits is read, as `Number` does; a fraction is not (`NaN` here). */
  lemma NumberValueSigned()
    ensures NumberValue("+5") == Some(5) && NumberValue("-5") == Some(-5)
    ensures NumberValue("10.5") == None
  {
    assert !IsWhitespace('+') && !IsWhitespace('-') && !IsWhitespace('5');
    TrimUnchanged("+5");
    TrimUnchanged("-5");
    TrimUnchanged("10.5");
    assert !IsDigit("+5"[0]) && !IsDigit("-5"[0]) && !IsDigit("10.5"[2]);
    assert "+5"[1..] == "5" && "-5"[1..] == "5";
    assert !IsDigit("10.5"[1..][1]);
  }

  /** `String(n).padStart(2, '0')`. */
  function Pad2(n: nat): (r: string)
    ensures |r| >= 2 && AllDigits(r)
    ensures n < 100 ==> |r| == 2 && DigitValue(r[0]) == n / 10 && DigitValue(r[1]) == n % 10
  {
    if n < 10 then ['0', DigitChar(n)] else NatToString(n)
  }

  // ---------------------------------------------------------------------------
  // Ordering of strings

  /** `a < b` on JavaScript strings: lexicographic on characters, a proper prefix first. */
  predicate StrLt(a: string, b: string) {
    if a == [] then b != []
    else if b == [] then false
    else if a[0] != b[0] then a[0] < b[0]
    else StrLt(a[1..], b[1..])
  }

  predicate StrLeq(a: string, b: string) {
    a == b || StrLt(a, b)
  }

  lemma {:induction false} StrLtIrreflexive(a: string)
    ensures !StrLt(a, a)
  {
    if a != [] {
      StrLtIrreflexive(a[1..]);
    }
  }

  lemma {:induction false} StrLtTrichotomy(a: string, b: string)
    ensures StrLt(a, b) || a == b || StrLt(b, a)
    ensures !(StrLt(a, b) && StrLt(b, a))
  {
    if a != [] && b != [] && a[0] == b[0] {
      StrLtTrichotomy(a[1..], b[1..]);
      if a[1..] == b[1..] {
        assert a == [a[0]] + a[1..] && b == [b[0]] + b[1..];
      }
    }
  }

  lemma {:induction false} StrLtTransitive(a: string, b: string, c: string)
    requires StrLt(a, b) && StrLt(b, c)
    ensures StrLt(a, c)
  {
    if a != [] && a[0] == b[0] && b[0] == c[0] {
      StrLtTransitive(a[1..], b[1..], c[1..]);
    }
  }

  /** `a.localeCompare(b)`, modelled by the code-point order: negative, zero or positive. */
  function LocaleCompare(a: string, b: string): (r: int)
    ensures r == 0 <==> a == b
    ensures r < 0 <==> StrLt(a, b)
    ensures r > 0 <==> StrLt(b, a)
  {
    StrLtTrichotomy(a, b);
    StrLtIrreflexive(a);
    if a == b then 0 else if StrLt(a, b) then -1 else 1
  }
}
