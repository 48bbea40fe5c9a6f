/**
 * The small part of Python's string handling the sensor loops rely on:
 * `str.strip()`, `str.split(sep)` with an explicit one-character separator,
 * and `float(s)` for plain decimal numerals.
 */
module Text {
  import opened Wrappers

  /**
   * Whitespace as `str.strip()` sees it (`str.isspace`): \t to \r, the separators
   * U+001C to U+001F, space, and the Unicode spaces and line breaks
   * (U+0085, U+00A0, U+1680, U+2000 to U+200A, U+2028, U+2029, U+202F, U+205F, U+3000).
   */
  predicate IsSpace(c: char) {
    ('\t' <= c <= '\r') || ('\U{1C}' <= c <= ' ') ||
    c == '\U{85}' || c == '\U{A0}' || c == '\U{1680}' ||
    ('\U{2000}' <= c <= '\U{200A}') || c == '\U{2028}' || c == '\U{2029}' ||
    c == '\U{202F}' || c == '\U{205F}' || c == '\U{3000}'
  }

  /**
   * Whitespace `float()` ignores around a numeral: the ASCII \t to \r and space,
   * and the non-ASCII whitespace above, but not the separators U+001C to U+001F.
   */
  predicate IsFloatSpace(c: char) {
    IsSpace(c) && !('\U{1C}' <= c <= '\U{1F}')
  }

  /** Whitespace of the kind `float()` ignores when `numeric`, else of the kind `str.strip()` removes. */
  predicate Blank(c: char, numeric: bool) {
    if numeric then IsFloatSpace(c) else IsSpace(c)
  }

  predicate IsDigit(c: char) {
    '0' <= c <= '9'
  }

  predicate AllDigits(s: string) {
    forall k | 0 <= k < |s| :: IsDigit(s[k])
  }

  /** Drops leading whitespace of the given kind. */
  function TrimStart(s: string, numeric: bool): string {
    if s != [] && Blank(s[0], numeric) then TrimStart(s[1..], numeric) else s
  }

  /** Drops trailing whitespace of the given kind. */
  function TrimEnd(s: string, numeric: bool): string {
    if s != [] && Blank(s[|s| - 1], numeric) then TrimEnd(s[..|s| - 1], numeric) else s
  }

  /** What TrimStart leaves is a suffix that does not start with a blank, and only blanks were dropped. */
  lemma {:induction false} TrimStartSpec(s: string, numeric: bool)
    ensures |TrimStart(s, numeric)| <= |s| && TrimStart(s, numeric) == s[|s| - |TrimStart(s, numeric)|..]
    ensures forall k | 0 <= k < |s| - |TrimStart(s, numeric)| :: Blank(s[k], numeric)
    ensures TrimStart(s, numeric) == [] || !Blank(TrimStart(s, numeric)[0], numeric)
    decreases |s|
  {
    if s != [] && Blank(s[0], numeric) {
      TrimStartSpec(s[1..], numeric);
      assert forall k | 1 <= k < |s| :: s[k] == s[1..][k - 1];
    }
  }

  /** What TrimEnd leaves is a prefix that does not end with a blank, and only blanks were dropped. */
  lemma {:induction false} TrimEndSpec(s: string, numeric: bool)
    ensures |TrimEnd(s, numeric)| <= |s| && TrimEnd(s, numeric) == s[..|TrimEnd(s, numeric)|]
    ensures forall k | |TrimEnd(s, numeric)| <= k < |s| :: Blank(s[k], numeric)
    ensures TrimEnd(s, numeric) == [] || !Blank(TrimEnd(s, numeric)[|TrimEnd(s, numeric)| - 1], numeric)
    decreases |s|
  {
    if s != [] && Blank(s[|s| - 1], numeric) {
      TrimEndSpec(s[..|s| - 1], numeric);
    }
  }

  /** `s.strip()`. */
  function Strip(s: string): string {
    TrimEnd(TrimStart(s, false), false)
  }

  /** The whitespace `float(s)` skips on either side of the numeral. */
  function FloatStrip(s: string): string {
    TrimEnd(TrimStart(s, true), true)
  }

  /**
   * The stripped line is a middle part of the line with only whitespace cut
   * off on either side: empty exactly when the line is blank, otherwise
   * bounded by non-space characters.
   */
  lemma StripSpec(s: string)
    ensures |Strip(s)| <= |s|
    ensures Strip(s) == [] <==> forall k | 0 <= k < |s| :: IsSpace(s[k])
    ensures Strip(s) == [] || (!IsSpace(Strip(s)[0]) && !IsSpace(Strip(s)[|Strip(s)| - 1]))
    ensures exists i, j | 0 <= i <= j <= |s| ::
              Strip(s) == s[i..j] &&
              (forall k | 0 <= k < i :: IsSpace(s[k])) &&
              (forall k | j <= k < |s| :: IsSpace(s[k]))
  {
    var t := TrimStart(s, false);
    TrimStartSpec(s, false);
    TrimEndSpec(t, false);
    assert Strip(s) == [] ==> t == [];
    var i := |s| - |t|;
    var j := i + |TrimEnd(t, false)|;
    assert t == s[i..];
    assert Strip(s) == s[i..j];
    assert forall k | j <= k < |s| :: s[k] == t[k - i];
  }

  /**
   * What `float()` reads is a middle part of the string with only the
   * whitespace it skips cut off on either side: empty
   * exactly when the string is all such whitespace, otherwise bounded by
   * characters that are not.
   */
  lemma FloatStripSpec(s: string)
    ensures |FloatStrip(s)| <= |s|
    ensures FloatStrip(s) == [] <==> forall k | 0 <= k < |s| :: IsFloatSpace(s[k])
    ensures FloatStrip(s) == [] ||
            (!IsFloatSpace(FloatStrip(s)[0]) && !IsFloatSpace(FloatStrip(s)[|FloatStrip(s)| - 1]))
    ensures exists i, j | 0 <= i <= j <= |s| ::
              FloatStrip(s) == s[i..j] &&
              (forall k | 0 <= k < i :: IsFloatSpace(s[k])) &&
              (forall k | j <= k < |s| :: IsFloatSpace(s[k]))
  {
    var t := TrimStart(s, true);
    TrimStartSpec(s, true);
    TrimEndSpec(t, true);
    assert FloatStrip(s) == [] ==> t == [];
    var i := |s| - |t|;
    var j := i + |TrimEnd(t, true)|;
    assert t == s[i..];
    assert FloatStrip(s) == s[i..j];
    assert forall k | j <= k < |s| :: s[k] == t[k - i];
  }

  lemma StripIdempotent(s: string)
    ensures Strip(Strip(s)) == Strip(s)
  {
    var r := Strip(s);
    StripSpec(s);
    if r != [] {
      assert TrimStart(r, false) == r;
      assert TrimEnd(r, false) == r;
    }
  }

  /** Number of occurrences of `c` in `s`. */
  function Occurrences(s: string, c: char): nat {
    if s == [] then 0 else (if s[0] == c then 1 else 0) + Occurrences(s[1..], c)
  }

  /**
   * `s.split(sep)`: the maximal runs between separators, empty runs included,
   * so there is always one more part than there are separators.
   */
  function Split(s: string, sep: char): (parts: seq<string>)
    ensures |parts| == Occurrences(s, sep) + 1
    ensures forall i | 0 <= i < |parts| :: sep !in parts[i]
    decreases |s|
  {
    if s == [] then [""]
    else if s[0] == sep then [""] + Split(s[1..], sep)
    else
      var rest := Split(s[1..], sep);
      [[s[0]] + rest[0]] + rest[1..]
  }

  /** `sep.join(parts)`, the inverse of Split. */
  function Join(parts: seq<string>, sep: char): string
    requires |parts| >= 1
  {
    if |parts| == 1 then parts[0] else parts[0] + [sep] + Join(parts[1..], sep)
  }

  lemma {:induction false} JoinSplit(s: string, sep: char)
    ensures Join(Split(s, sep), sep) == s
    decreases |s|
  {
    if s == [] {
    } else if s[0] == sep {
      JoinSplit(s[1..], sep);
      var rest := Split(s[1..], sep);
      assert Split(s, sep) == [""] + rest;
      assert ([""] + rest)[1..] == rest;
    } else {
      JoinSplit(s[1..], sep);
      var rest := Split(s[1..], sep);
      var parts := Split(s, sep);
      assert parts[1..] == rest[1..];
      if |rest| == 1 {
        assert s == [s[0]] + s[1..];
      } else {
        assert Join(rest, sep) == rest[0] + [sep] + Join(rest[1..], sep);
        assert s == [s[0]] + s[1..];
      }
    }
  }

  /** Splitting a prefix free of separators only extends the first part. */
  lemma {:induction false} SplitPrefix(p: string, rest: string, sep: char)
    requires sep !in p
    ensures Split(p + rest, sep) == [p + Split(rest, sep)[0]] + Split(rest, sep)[1..]
    decreases |p|
  {
    if p != [] {
      assert (p + rest)[1..] == p[1..] + rest;
      SplitPrefix(p[1..], rest, sep);
      assert [p[0]] + (p[1..] + Split(rest, sep)[0]) == p + Split(rest, sep)[0];
    } else {
      var parts := Split(rest, sep);
      assert p + rest == rest;
      assert p + parts[0] == parts[0];
      assert [parts[0]] + parts[1..] == parts;
    }
  }

  lemma {:induction false} SplitJoin(parts: seq<string>, sep: char)
    requires |parts| >= 1
    requires forall i | 0 <= i < |parts| :: sep !in parts[i]
    ensures Split(Join(parts, sep), sep) == parts
    decreases |parts|
  {
    if |parts| == 1 {
      SplitPrefix(parts[0], "", sep);
      assert parts[0] + "" == parts[0];
    } else {
      var tail := Join(parts[1..], sep);
      SplitJoin(parts[1..], sep);
      assert parts[0] + [sep] + tail == parts[0] + ([sep] + tail);
      SplitPrefix(parts[0], [sep] + tail, sep);
      assert ([sep] + tail)[1..] == tail;
      assert Split([sep] + tail, sep) == [""] + parts[1..];
      assert parts[0] + "" == parts[0];
    }
  }

  function Digit(c: char): nat
    requires IsDigit(c)
  {
    c as int - '0' as int
  }

  /** `mantissa` with the decimal point moved `places` digits to the left. */
  function Shifted(mantissa: nat, places: nat): real {
    if places == 0 then mantissa as real else Shifted(mantissa, places - 1) / 10.0
  }

  /**
   * Reads an unsigned numeral left to right: digits with at most one '.', and at
   * least one digit in all. `mantissa` holds the digits read so far as a whole
   * number and `places` how many of them follow the point.
   */
  function ScanUnsigned(t: string, mantissa: nat, places: nat, dot: bool, digits: bool): Option<real>
    decreases |t|
  {
    if t == [] then (if digits then Some(Shifted(mantissa, places)) else None)
    else if IsDigit(t[0]) then
      ScanUnsigned(t[1..], mantissa * 10 + Digit(t[0]), if dot then places + 1 else places, dot, true)
    else if t[0] == '.' && !dot then ScanUnsigned(t[1..], mantissa, places, true, digits)
    else None
  }

  function ParseUnsigned(t: string): Option<real> {
    ScanUnsigned(t, 0, 0, false, false)
  }

  /**
   * `float(s)` for plain decimal numerals: surrounding whitespace is ignored,
   * an optional sign, then an unsigned numeral. Anything else is a ValueError (None).
   */
  function ParseFloat(s: string): Option<real> {
    var t := FloatStrip(s);
    if t != [] && (t[0] == '-' || t[0] == '+') then
      match ParseUnsigned(t[1..])
      case None => None
      case Some(v) => Some(if t[0] == '-' then -v else v)
    else
      ParseUnsigned(t)
  }

  lemma {:induction false} ScanUnsignedSpec(t: string, mantissa: nat, places: nat, dot: bool, digits: bool)
    ensures ScanUnsigned(t, mantissa, places, dot, digits).Some? ==>
              (forall k | 0 <= k < |t| :: IsDigit(t[k]) || t[k] == '.') &&
              (digits || exists k | 0 <= k < |t| :: IsDigit(t[k])) &&
              Occurrences(t, '.') <= (if dot then 0 else 1)
    decreases |t|
  {
    if t != [] {
      var dot', digits' := dot || !IsDigit(t[0]), digits || IsDigit(t[0]);
      var mantissa' := if IsDigit(t[0]) then mantissa * 10 + Digit(t[0]) else mantissa;
      var places' := if IsDigit(t[0]) && dot then places + 1 else places;
      ScanUnsignedSpec(t[1..], mantissa', places', dot', digits');
      assert forall k | 1 <= k < |t| :: t[k] == t[1..][k - 1];
      if ScanUnsigned(t, mantissa, places, dot, digits).Some? && !digits' {
        var k :| 0 <= k < |t[1..]| && IsDigit(t[1..][k]);
        assert IsDigit(t[k + 1]);
      }
    }
  }

  /**
   * A number is read only from a string that, without the whitespace `float()`
   * skips, holds at least one digit, at most one '.', and nothing but digits,
   * the point and a leading sign.
   */
  lemma ParseFloatSpec(s: string)
    ensures FloatStrip(s) == [] ==> ParseFloat(s) == None
    ensures ParseFloat(s).Some? ==> exists k | 0 <= k < |FloatStrip(s)| :: IsDigit(FloatStrip(s)[k])
    ensures ParseFloat(s).Some? ==> forall k | 0 <= k < |FloatStrip(s)| ::
              IsDigit(FloatStrip(s)[k]) || FloatStrip(s)[k] == '.' || (k == 0 && FloatStrip(s)[k] in "+-")
    ensures ParseFloat(s).Some? ==> Occurrences(FloatStrip(s), '.') <= 1
  {
    var t := FloatStrip(s);
    if t != [] && (t[0] == '-' || t[0] == '+') {
      var u := t[1..];
      ScanUnsignedSpec(u, 0, 0, false, false);
      assert forall k | 1 <= k < |t| :: t[k] == u[k - 1];
      if ParseUnsigned(u).Some? {
        var k :| 0 <= k < |u| && IsDigit(u[k]);
        assert IsDigit(t[k + 1]);
      }
    } else {
      ScanUnsignedSpec(t, 0, 0, false, false);
    }
  }

  /** The whole number `mantissa` followed by the digits `ds`. */
  function DigitsValue(mantissa: nat, ds: string): nat
    requires AllDigits(ds)
    decreases |ds|
  {
    if ds == [] then mantissa else DigitsValue(mantissa * 10 + Digit(ds[0]), ds[1..])
  }

  lemma {:induction false} DigitsValueSnoc(mantissa: nat, ds: string, c: char)
    requires AllDigits(ds) && IsDigit(c)
    ensures AllDigits(ds + [c])
    ensures DigitsValue(mantissa, ds + [c]) == DigitsValue(mantissa, ds) * 10 + Digit(c)
    decreases |ds|
  {
    assert forall k | 0 <= k < |ds + [c]| :: (ds + [c])[k] == if k < |ds| then ds[k] else c;
    if ds != [] {
      assert (ds + [c])[1..] == ds[1..] + [c];
      DigitsValueSnoc(mantissa * 10 + Digit(ds[0]), ds[1..], c);
    }
  }

  /** Scanning a run of digits before the point only grows the mantissa. */
  lemma {:induction false} ScanDigits(ds: string, rest: string, mantissa: nat, digits: bool)
    requires AllDigits(ds)
    ensures ScanUnsigned(ds + rest, mantissa, 0, false, digits) ==
            ScanUnsigned(rest, DigitsValue(mantissa, ds), 0, false, digits || ds != [])
    decreases |ds|
  {
    if ds == [] {
      assert ds + rest == rest;
    } else {
      assert (ds + rest)[0] == ds[0];
      assert (ds + rest)[1..] == ds[1..] + rest;
      ScanDigits(ds[1..], rest, mantissa * 10 + Digit(ds[0]), true);
    }
  }

  /** Decimal numeral of a natural number, as a sensor prints a whole count of centimetres. */
  function ShowNat(n: nat): (s: string)
    ensures s != [] && AllDigits(s)
  {
    if n < 10 then [('0' as int + n) as char]
    else ShowNat(n / 10) + [('0' as int + n % 10) as char]
  }

  lemma {:induction false} DigitsValueShowNat(n: nat)
    ensures DigitsValue(0, ShowNat(n)) == n
  {
    if n >= 10 {
      DigitsValueShowNat(n / 10);
      DigitsValueSnoc(0, ShowNat(n / 10), ('0' as int + n % 10) as char);
    }
  }

  /** Every decimal numeral of a natural number is read back as that number. */
  lemma ParseFloatShowNat(n: nat)
    ensures ParseFloat(ShowNat(n)) == Some(n as real)
  {
    var s := ShowNat(n);
    assert FloatStrip(s) == s by {
      assert !IsFloatSpace(s[0]) && !IsFloatSpace(s[|s| - 1]);
      assert TrimStart(s, true) == s;
    }
    DigitsValueShowNat(n);
    ScanDigits(s, "", 0, false);
    assert s + "" == s;
  }

  /** "150" reads as 150. */
  lemma ParseFloat150()
    ensures Strip("150") == "150" && ParseFloat("150") == Some(150.0)
  {
    assert TrimStart("150", false) == "150";
    ParseFloatShowNat(150);
    assert ShowNat(150) == "150";
  }

  /** "abc" and the empty string are not numbers. */
  lemma ParseFloatRejects()
    ensures Strip("abc") == "abc" && ParseFloat("abc") == None
    ensures ParseFloat("") == None
  {
    assert TrimStart("abc", false) == "abc";
    assert TrimStart("abc", true) == "abc";
  }

  /**
   * `str.strip()` removes the separator U+001C but `float()` does not skip it,
   * so "\U{1C}5" is not a number while its stripped form "5" is.
   */
  lemma ParseFloatKeepsSeparators(s: string)
    requires s == "\U{1C}5"
    ensures Strip(s) == "5" && ParseFloat(Strip(s)) == Some(5.0)
    ensures ParseFloat(s) == None
  {
    assert TrimStart(s, false) == "5";
    assert TrimStart(s, true) == s;
    assert TrimEnd(s, true) == s;
    assert ParseUnsigned(s) == None;
    ParseFloatShowNat(5);
    assert ShowNat(5) == "5";
  }
}
