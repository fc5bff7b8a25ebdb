/**
 * The JavaScript string primitives the components rely on: `split` and `join`
 * on a one-character separator, `parseInt(s, 10)`, the "is not NaN" test on
 * `Number(s)`, and the `replace(/\D/g, '')` digit filter.
 */
module Text {
  import opened Wrappers

  predicate IsDigit(c: char) {
    '0' <= c <= '9'
  }

  predicate AllDigits(s: string) {
    forall i | 0 <= i < |s| :: IsDigit(s[i])
  }

  /** The white space and line terminators ECMAScript strips in `parseInt`, `Number` and `trim`. */
  predicate IsSpace(c: char) {
    || c == '\t' || c == '\n' || c == '\U{B}' || c == '\U{C}' || c == '\r' || c == ' '
    || c == '\U{A0}' || c == '\U{1680}' || ('\U{2000}' <= c <= '\U{200A}')
    || c == '\U{2028}' || c == '\U{2029}' || c == '\U{202F}' || c == '\U{205F}'
    || c == '\U{3000}' || c == '\U{FEFF}'
  }

  /** Index of the first character of `s` in `cs`, or `|s|` when there is none. */
  function IndexOfAny(s: string, cs: set<char>): (r: nat)
    ensures r <= |s|
    ensures forall i | 0 <= i < r :: s[i] !in cs
    ensures r < |s| ==> s[r] in cs
  {
    if |s| == 0 then 0
    else if s[0] in cs then 0
    else 1 + IndexOfAny(s[1..], cs)
  }

  function IndexOf(s: string, c: char): (r: nat)
    ensures r <= |s| && c !in s[..r]
    ensures r < |s| ==> s[r] == c
    ensures r == |s| <==> c !in s
  {
    var r := IndexOfAny(s, {c});
    assert forall i | 0 <= i < r :: s[..r][i] == s[i];
    r
  }

  // ---------------------------------------------------------------- split / join

  /** `s.split(sep)` for a one-character separator: the pieces between the separators, at least one. */
  function Split(s: string, sep: char): (parts: seq<string>)
    ensures |parts| >= 1
    ensures forall k | 0 <= k < |parts| :: sep !in parts[k]
    decreases |s|
  {
    var i := IndexOf(s, sep);
    if i == |s| then [s] else [s[..i]] + Split(s[i + 1..], sep)
  }

  /** `parts.join(sep)`; the empty array joins to the empty string. */
  function Join(parts: seq<string>, sep: char): string {
    if |parts| == 0 then []
    else if |parts| == 1 then parts[0]
    else parts[0] + [sep] + Join(parts[1..], sep)
  }

  /** Joining the pieces again gives back the string that was split. */
  lemma {:induction false} JoinSplit(s: string, sep: char)
    ensures Join(Split(s, sep), sep) == s
    decreases |s|
  {
    var i := IndexOf(s, sep);
    if i < |s| {
      var rest := Split(s[i + 1..], sep);
      var parts := Split(s, sep);
      assert parts == [s[..i]] + rest;
      assert parts[1..] == rest;
      JoinSplit(s[i + 1..], sep);
      assert Join(parts, sep) == s[..i] + [sep] + Join(rest, sep);
      assert s == s[..i] + [sep] + s[i + 1..];
    } else {
      assert Split(s, sep) == [s];
    }
  }

  /** Splitting a join of separator-free pieces gives back the pieces. */
  lemma {:induction false} SplitJoin(parts: seq<string>, sep: char)
    requires |parts| >= 1
    requires forall k | 0 <= k < |parts| :: sep !in parts[k]
    ensures Split(Join(parts, sep), sep) == parts
  {
    if |parts| > 1 {
      var s := Join(parts, sep);
      assert s == parts[0] + [sep] + Join(parts[1..], sep);
      assert IndexOf(s, sep) == |parts[0]| by {
        assert s[|parts[0]|] == sep;
        assert s[..|parts[0]|] == parts[0];
      }
      assert s[|parts[0]| + 1..] == Join(parts[1..], sep);
      SplitJoin(parts[1..], sep);
    } else {
      assert IndexOf(parts[0], sep) == |parts[0]|;
    }
  }

  /** When `sep` occurs, the first piece is the text before its first occurrence and the rest
      are the pieces of the text after it. */
  lemma SplitFirst(s: string, sep: char)
    requires sep in s
    ensures var i := IndexOf(s, sep);
      |Split(s, sep)| >= 2 && Split(s, sep)[0] == s[..i] && Split(s, sep)[1..] == Split(s[i + 1..], sep)
  {
  }

  // ---------------------------------------------------------------- digits

  /** `s.replace(/\D/g, '')`: the decimal digits of `s`, in order. */
  function Digits(s: string): (r: string)
    ensures AllDigits(r)
    ensures forall c :: c in r <==> c in s && IsDigit(c)
  {
    if |s| == 0 then []
    else (if IsDigit(s[0]) then [s[0]] else []) + Digits(s[1..])
  }

  /** Digits are taken piece by piece: those of a concatenation are those of each part, in order. */
  lemma {:induction false} DigitsAppend(a: string, b: string)
    ensures Digits(a + b) == Digits(a) + Digits(b)
  {
    if |a| == 0 {
      assert a + b == b;
    } else {
      assert (a + b)[0] == a[0];
      assert (a + b)[1..] == a[1..] + b;
      DigitsAppend(a[1..], b);
    }
  }

  /** A single character is kept exactly when it is a digit. */
  lemma DigitsOne(c: char)
    ensures Digits([c]) == if IsDigit(c) then [c] else []
  {
    assert [c][1..] == [];
  }

  /** A string of digits keeps every character. */
  lemma {:induction false} DigitsOfDigits(ds: string)
    requires AllDigits(ds)
    ensures Digits(ds) == ds
  {
    if |ds| > 0 {
      DigitsOfDigits(ds[1..]);
      assert ds == [ds[0]] + ds[1..];
    }
  }

  /** The number written by a string of decimal digits. */
  function DecimalValue(ds: string): nat
    requires AllDigits(ds)
  {
    if |ds| == 0 then 0
    else 10 * DecimalValue(ds[..|ds| - 1]) + (ds[|ds| - 1] as int - '0' as int)
  }

  /** The longest prefix of `s` made of decimal digits. */
  function LeadingDigits(s: string): (r: string)
    ensures AllDigits(r) && r <= s
    ensures |r| < |s| ==> !IsDigit(s[|r|])
  {
    if |s| == 0 || !IsDigit(s[0]) then [] else [s[0]] + LeadingDigits(s[1..])
  }

  /** `s` without its leading white space. */
  function TrimStart(s: string): (r: string)
    ensures |r| <= |s| && r == s[|s| - |r|..]
    ensures r == [] || !IsSpace(r[0])
  {
    if |s| > 0 && IsSpace(s[0]) then TrimStart(s[1..]) else s
  }

  /** `s` without its trailing white space. */
  function TrimEnd(s: string): (r: string)
    ensures r <= s
    ensures r == [] || !IsSpace(r[|r| - 1])
  {
    if |s| > 0 && IsSpace(s[|s| - 1]) then TrimEnd(s[..|s| - 1]) else s
  }

  /** `parseInt(s, 10)`: None stands for NaN. */
  function ParseInt(s: string): Option<int> {
    var t := TrimStart(s);
    var negative := |t| > 0 && t[0] == '-';
    var u := if |t| > 0 && (t[0] == '-' || t[0] == '+') then t[1..] else t;
    var ds := LeadingDigits(u);
    var magnitude: int := DecimalValue(ds);
    if |ds| == 0 then None
    else Some(if negative then -magnitude else magnitude)
  }

  /** A string of decimal digits parses to the number it writes; one without any parses to NaN. */
  lemma ParseIntOfDigits(ds: string)
    requires AllDigits(ds)
    ensures ParseInt(ds) == if |ds| == 0 then None else Some(DecimalValue(ds))
  {
    if |ds| > 0 {
      ParseIntIgnoresTail(ds, []);
      assert ds + [] == ds;
    } else {
      assert LeadingDigits(TrimStart(ds)) == [];
    }
  }

  /** `parseInt` reads the leading digits and ignores whatever follows them. */
  lemma ParseIntIgnoresTail(ds: string, tail: string)
    requires |ds| > 0 && AllDigits(ds)
    requires tail == [] || !IsDigit(tail[0])
    ensures ParseInt(ds + tail) == Some(DecimalValue(ds))
  {
    var s := ds + tail;
    assert s[0] == ds[0] && IsDigit(s[0]);
    assert !IsSpace(s[0]);
    assert TrimStart(s) == s;
    assert !(s[0] == '-' || s[0] == '+');
    LeadingDigitsPrefix(ds, tail);
    assert LeadingDigits(s) == ds;
  }

  lemma {:induction false} LeadingDigitsOfDigits(ds: string)
    requires AllDigits(ds)
    ensures LeadingDigits(ds) == ds
  {
    if |ds| > 0 {
      LeadingDigitsOfDigits(ds[1..]);
    }
  }

  lemma {:induction false} LeadingDigitsPrefix(ds: string, tail: string)
    requires AllDigits(ds)
    requires tail == [] || !IsDigit(tail[0])
    ensures LeadingDigits(ds + tail) == ds
  {
    if |ds| > 0 {
      assert (ds + tail)[1..] == ds[1..] + tail;
      LeadingDigitsPrefix(ds[1..], tail);
    } else {
      assert ds + tail == tail;
    }
  }

  // ---------------------------------------------------------------- Number(s)

  predicate IsBinaryDigit(c: char) { c == '0' || c == '1' }
  predicate IsOctalDigit(c: char) { '0' <= c <= '7' }
  predicate IsHexDigit(c: char) { IsDigit(c) || 'a' <= c <= 'f' || 'A' <= c <= 'F' }

  /** An optionally signed, non-empty run of decimal digits (the exponent of a literal). */
  predicate IsSignedInteger(s: string) {
    var u := if |s| > 0 && (s[0] == '+' || s[0] == '-') then s[1..] else s;
    |u| > 0 && AllDigits(u)
  }

  /** Digits, optionally with one decimal point, with at least one digit in all. */
  predicate IsMantissa(m: string) {
    var j := IndexOf(m, '.');
    var whole := m[..j];
    var fraction := if j < |m| then m[j + 1..] else [];
    AllDigits(whole) && AllDigits(fraction) && |whole| + |fraction| > 0
  }

  /** StrUnsignedDecimalLiteral of ECMAScript's StringToNumber grammar. */
  predicate IsUnsignedDecimal(u: string) {
    u == "Infinity" ||
    (var e := IndexOfAny(u, {'e', 'E'});
     IsMantissa(u[..e]) && (e == |u| || IsSignedInteger(u[e + 1..])))
  }

  /** NonDecimalIntegerLiteral: `0b…`, `0o…` or `0x…`, unsigned. */
  predicate IsNonDecimalLiteral(t: string) {
    |t| > 2 && t[0] == '0' &&
    ((t[1] in {'b', 'B'} && forall i | 2 <= i < |t| :: IsBinaryDigit(t[i])) ||
     (t[1] in {'o', 'O'} && forall i | 2 <= i < |t| :: IsOctalDigit(t[i])) ||
     (t[1] in {'x', 'X'} && forall i | 2 <= i < |t| :: IsHexDigit(t[i])))
  }

  /** `!isNaN(Number(s))`: the trimmed string is empty (which converts to 0) or a numeric literal. */
  predicate IsNumeric(s: string) {
    var t := TrimEnd(TrimStart(s));
    var u := if |t| > 0 && (t[0] == '+' || t[0] == '-') then t[1..] else t;
    t == [] || IsUnsignedDecimal(u) || IsNonDecimalLiteral(t)
  }

  /** Every non-empty string of decimal digits is numeric, and so is the empty string. */
  lemma DigitsAreNumeric(ds: string)
    requires AllDigits(ds)
    ensures IsNumeric(ds)
  {
    if |ds| > 0 {
      DigitsAreTrimmed(ds);
      var t := TrimEnd(TrimStart(ds));
      assert IsDigit(t[0]) && t == ds;
      assert !(t[0] == '+' || t[0] == '-');
      DigitsAreUnsignedDecimal(ds);
    }
  }

  lemma DigitsAreTrimmed(ds: string)
    requires |ds| > 0 && AllDigits(ds)
    ensures TrimEnd(TrimStart(ds)) == ds
  {
    assert IsDigit(ds[0]) && IsDigit(ds[|ds| - 1]);
    TrimStartAtDigit(ds);
    TrimEndAtDigit(ds);
  }

  lemma TrimStartAtDigit(s: string)
    requires |s| > 0 && IsDigit(s[0])
    ensures TrimStart(s) == s
  {
    assert !IsSpace(s[0]);
  }

  lemma TrimEndAtDigit(s: string)
    requires |s| > 0 && IsDigit(s[|s| - 1])
    ensures TrimEnd(s) == s
  {
  }

  lemma DigitsAreUnsignedDecimal(ds: string)
    requires |ds| > 0 && AllDigits(ds)
    ensures IsUnsignedDecimal(ds)
  {
    DigitsAreMantissa(ds);
    NoneOfAny(ds, {'e', 'E'});
    assert ds[..|ds|] == ds;
  }

  lemma DigitsAreMantissa(ds: string)
    requires |ds| > 0 && AllDigits(ds)
    ensures IsMantissa(ds)
  {
    NoneOfAny(ds, {'.'});
    assert IndexOf(ds, '.') == |ds|;
    assert ds[..|ds|] == ds;
  }

  lemma NoneOfAny(s: string, cs: set<char>)
    requires forall i | 0 <= i < |s| :: s[i] !in cs
    ensures IndexOfAny(s, cs) == |s|
  {
  }
}
