/**
 * The string operations the bot relies on, restricted to ASCII: `strip`, `lower`,
 * substring search, `rsplit(sep, 1)`, `str(n)` and `int(s)` on integers, and `"/".join`.
 */
module Text {
  import opened Wrappers

  /** Python's `str.isspace` on ASCII: tab, line feed, vertical tab, form feed,
      carriage return, the separators 0x1C-0x1F and the space. */
  predicate IsSpace(c: char) {
    c == ' ' || ('\t' <= c <= '\r') || ('\U{1C}' <= c <= '\U{1F}')
  }

  predicate IsAsciiDigit(c: char) { '0' <= c <= '9' }

  predicate IsUpper(c: char) { 'A' <= c <= 'Z' }

  predicate IsLower(c: char) { 'a' <= c <= 'z' }

  predicate AllDigits(s: string) {
    forall i :: 0 <= i < |s| ==> IsAsciiDigit(s[i])
  }

  /** The whitespace `int()` skips around a number: the space and tab through carriage
      return. Unlike `str.isspace`, the separators 0x1C-0x1F are not skipped. */
  predicate IsIntSpace(c: char) {
    c == ' ' || ('\t' <= c <= '\r')
  }

  /** The suffix of `s` left after dropping leading characters of the class `ws`. */
  function TrimLeft(s: string, ws: char -> bool): (r: string)
    ensures |r| <= |s| && r == s[|s| - |r|..]
    ensures r == [] || !ws(r[0])
    ensures forall i :: 0 <= i < |s| - |r| ==> ws(s[i])
  {
    if s != [] && ws(s[0]) then TrimLeft(s[1..], ws) else s
  }

  /** The prefix of `s` left after dropping trailing characters of the class `ws`. */
  function TrimRight(s: string, ws: char -> bool): (r: string)
    ensures |r| <= |s| && r == s[..|r|]
    ensures r == [] || !ws(r[|r| - 1])
    ensures forall i :: |r| <= i < |s| ==> ws(s[i])
  {
    if s != [] && ws(s[|s| - 1]) then TrimRight(s[..|s| - 1], ws) else s
  }

  /** The slice of `s` left after dropping characters of the class `ws` at both ends. */
  function Trim(s: string, ws: char -> bool): (r: string)
    ensures |r| <= |s|
    ensures r == [] || (!ws(r[0]) && !ws(r[|r| - 1]))
    ensures r == [] <==> forall i :: 0 <= i < |s| ==> ws(s[i])
    ensures var i := |s| - |TrimLeft(s, ws)|;
      && 0 <= i <= |s| - |r| && r == s[i..][..|r|]
      && (forall k :: 0 <= k < i ==> ws(s[k]))
      && (forall k :: i + |r| <= k < |s| ==> ws(s[k]))
  {
    var l := TrimLeft(s, ws);
    var r := TrimRight(l, ws);
    PrefixOfSuffix(s, l, r, ws);
    TrimEnds(s, l, r, ws);
    r
  }

  /** `s.strip()`: the slice of `s` left after dropping whitespace at both ends. */
  function Strip(s: string): (r: string)
    ensures |r| <= |s|
    ensures r == [] || (!IsSpace(r[0]) && !IsSpace(r[|r| - 1]))
    ensures r == [] <==> forall i :: 0 <= i < |s| ==> IsSpace(s[i])
    ensures var i := |s| - |TrimLeft(s, IsSpace)|;
      && 0 <= i <= |s| - |r| && r == s[i..][..|r|]
      && (forall k :: 0 <= k < i ==> IsSpace(s[k]))
      && (forall k :: i + |r| <= k < |s| ==> IsSpace(s[k]))
  {
    Trim(s, IsSpace)
  }

  /** The ends of `TrimRight(TrimLeft(s))` are not in the class, and it is empty exactly
      when all of `s` is. */
  lemma TrimEnds(s: string, l: string, r: string, ws: char -> bool)
    requires l == TrimLeft(s, ws) && r == TrimRight(l, ws)
    ensures r == [] || (!ws(r[0]) && !ws(r[|r| - 1]))
    ensures r == [] <==> forall i :: 0 <= i < |s| ==> ws(s[i])
  {
    if r != [] {
      assert r[0] == l[0];
    } else {
      PrefixOfSuffix(s, l, r, ws);
    }
  }

  /** A prefix `r` of the suffix `l` of `s` is the slice of `s` at offset `|s| - |l|`, and
      whatever follows `r` in `l` follows it in `s`. */
  lemma PrefixOfSuffix(s: string, l: string, r: string, ws: char -> bool)
    requires |l| <= |s| && l == s[|s| - |l|..]
    requires |r| <= |l| && r == l[..|r|]
    requires forall k :: |r| <= k < |l| ==> ws(l[k])
    ensures var i := |s| - |l|; r == s[i..][..|r|] && forall k :: i + |r| <= k < |s| ==> ws(s[k])
  {
    var i := |s| - |l|;
    forall k | i + |r| <= k < |s|
      ensures ws(s[k])
    {
      assert s[k] == l[k - i];
    }
  }

  /** Text whose ends are not in the class is left alone by trimming. */
  lemma TrimUnspaced(s: string, ws: char -> bool)
    requires s == [] || (!ws(s[0]) && !ws(s[|s| - 1]))
    ensures Trim(s, ws) == s
  {
  }

  /** Text whose ends are not whitespace is left alone by `strip`. */
  lemma StripUnspaced(s: string)
    requires s == [] || (!IsSpace(s[0]) && !IsSpace(s[|s| - 1]))
    ensures Strip(s) == s
  {
    TrimUnspaced(s, IsSpace);
  }

  /** Text ending in whitespace is shortened by `strip`. */
  lemma StripDropsTrailingSpace(s: string)
    requires s != [] && IsSpace(s[|s| - 1])
    ensures |Strip(s)| < |s|
  {
  }

  function LowerChar(c: char): char {
    if IsUpper(c) then (c as int + 32) as char else c
  }

  /** `s.lower()` on ASCII letters: no capital is left and every other character is kept. */
  function Lower(s: string): (r: string)
    ensures |r| == |s|
    ensures forall i :: 0 <= i < |r| ==> !IsUpper(r[i])
    ensures forall i :: 0 <= i < |s| && !IsUpper(s[i]) ==> r[i] == s[i]
    ensures forall i :: 0 <= i < |s| && IsUpper(s[i]) ==> IsLower(r[i]) && r[i] as int - s[i] as int == 'a' as int - 'A' as int
  {
    seq(|s|, i requires 0 <= i < |s| => LowerChar(s[i]))
  }

  /** Lower-casing twice is lower-casing once. */
  lemma LowerIdempotent(s: string)
    ensures Lower(Lower(s)) == Lower(s)
  {
    var l := Lower(s);
    assert forall i :: 0 <= i < |l| ==> Lower(l)[i] == l[i];
  }

  /** `pat` occurs in `s` starting at index `k`. */
  predicate IsAt(s: string, pat: string, k: int) {
    0 <= k && k + |pat| <= |s| && s[k..k + |pat|] == pat
  }

  /** Python's `pat in s`. */
  predicate Contains(s: string, pat: string) {
    exists k :: 0 <= k <= |s| - |pat| && IsAt(s, pat, k)
  }

  /** `s.startswith(prefix)`. */
  predicate StartsWith(s: string, prefix: string) {
    |prefix| <= |s| && s[..|prefix|] == prefix
  }

  /** The largest index `k <= i` at which `pat` occurs in `s`, if there is one. */
  function FindLast(s: string, pat: string, i: int): (r: Option<nat>)
    decreases i + 1
    ensures r.Some? ==> r.value <= i && IsAt(s, pat, r.value)
    ensures r.Some? ==> forall k :: r.value < k <= i ==> !IsAt(s, pat, k)
    ensures r.None? ==> forall k :: k <= i ==> !IsAt(s, pat, k)
  {
    if i < 0 then None
    else if IsAt(s, pat, i) then Some(i)
    else FindLast(s, pat, i - 1)
  }

  /** `s.rsplit(sep, 1)` when `sep in s`: the text before and after the LAST occurrence of `sep`. */
  function RSplitLast(s: string, sep: string): (r: Option<(string, string)>)
    ensures r.None? <==> !Contains(s, sep)
    ensures r.Some? ==> s == r.value.0 + sep + r.value.1
    ensures r.Some? ==> forall k :: |r.value.0| < k ==> !IsAt(s, sep, k)
  {
    match FindLast(s, sep, |s| - |sep|)
    case None => None
    case Some(k) =>
      assert s == s[..k] + sep + s[k + |sep|..] by {
        assert s == s[..k] + s[k..k + |sep|] + s[k + |sep|..];
      }
      Some((s[..k], s[k + |sep|..]))
  }

  function DigitChar(d: int): char
    requires 0 <= d < 10
  {
    ('0' as int + d) as char
  }

  function DigitValue(c: char): int
    requires IsAsciiDigit(c)
  {
    c as int - '0' as int
  }

  /** The decimal digits of `n`, most significant first. */
  function NatToString(n: nat): (r: string)
    ensures r != [] && AllDigits(r)
  {
    if n < 10 then [DigitChar(n)] else NatToString(n / 10) + [DigitChar(n % 10)]
  }

  /** Python's `str(n)` on an integer. */
  function IntToString(n: int): string {
    if n < 0 then "-" + NatToString(-n) else NatToString(n)
  }

  /** The number a non-empty run of decimal digits denotes. */
  function DigitsValue(s: string): nat
    requires AllDigits(s)
  {
    if s == [] then 0 else DigitsValue(s[..|s| - 1]) * 10 + DigitValue(s[|s| - 1])
  }

  /** Decimal digits in groups joined by single underscores, as `int()` accepts them
      ("1_000"): starts and ends with a digit, no two underscores in a row. */
  predicate DigitGroups(s: string) {
    && s != []
    && IsAsciiDigit(s[0])
    && IsAsciiDigit(s[|s| - 1])
    && (forall i :: 0 <= i < |s| ==> IsAsciiDigit(s[i]) || s[i] == '_')
    && !Contains(s, "__")
  }

  /** `s` with every underscore removed. */
  function DropUnderscores(s: string): (r: string)
    ensures |r| <= |s|
    ensures (forall i :: 0 <= i < |s| ==> IsAsciiDigit(s[i]) || s[i] == '_') ==> AllDigits(r)
    ensures AllDigits(s) ==> r == s
  {
    if s == [] then []
    else if s[0] == '_' then DropUnderscores(s[1..])
    else [s[0]] + DropUnderscores(s[1..])
  }

  /** An optional sign followed by digit groups, read as an integer; None otherwise. */
  function ParseSigned(t: string): (r: Option<int>)
    ensures r.Some? ==> t != [] && IsAsciiDigit(t[|t| - 1])
  {
    if t != [] && (t[0] == '+' || t[0] == '-') && DigitGroups(t[1..]) then
      var v := DigitsValue(DropUnderscores(t[1..]));
      Some(if t[0] == '-' then -(v as int) else v)
    else if DigitGroups(t) then Some(DigitsValue(DropUnderscores(t)))
    else None
  }

  /** What `int()` reads: the text without the whitespace it skips around a number. */
  function IntStrip(s: string): string {
    Trim(s, IsIntSpace)
  }

  /** Python's `int(s)` on ASCII text: the space and tab through carriage return around
      the number are skipped, then an optional sign and digit groups are read; anything
      else raises ValueError (None). Plain digits read as their value, and blank text is
      refused. */
  function ParseInt(s: string): (r: Option<int>)
    ensures s != [] && AllDigits(s) ==> r == Some(DigitsValue(s))
    ensures r.Some? ==> exists i :: 0 <= i < |s| && IsAsciiDigit(s[i])
  {
    var t := IntStrip(s);
    if s != [] && AllDigits(s) then
      DigitsAreGroups(s);
      TrimUnspaced(s, IsIntSpace);
      ParseSigned(t)
    else
      if ParseSigned(t).Some? then
        IntStripKeepsLast(s);
        ParseSigned(t)
      else
        None
  }

  /** `int()` reads the text less the whitespace it skips. */
  lemma ParseIntReadsStripped(s: string)
    ensures ParseInt(s) == ParseSigned(IntStrip(s))
  {
  }

  /** Text without skipped whitespace at its ends is parsed as it stands. */
  lemma ParseIntUnspaced(s: string)
    requires s != [] && !IsIntSpace(s[0]) && !IsIntSpace(s[|s| - 1])
    ensures ParseInt(s) == ParseSigned(s)
  {
    ParseIntReadsStripped(s);
    TrimUnspaced(s, IsIntSpace);
  }

  /** The last character `int()` reads is a character of `s`. */
  lemma IntStripKeepsLast(s: string)
    requires IntStrip(s) != []
    ensures exists i :: 0 <= i < |s| && s[i] == IntStrip(s)[|IntStrip(s)| - 1]
  {
    var t := IntStrip(s);
    var i := |s| - |TrimLeft(s, IsIntSpace)|;
    assert t[|t| - 1] == s[i..][..|t|][|t| - 1];
  }

  /** Plain digits are a single digit group and read as their value. */
  lemma DigitsAreGroups(s: string)
    requires s != [] && AllDigits(s)
    ensures DigitGroups(s) && ParseSigned(s) == Some(DigitsValue(s))
  {
    forall k | 0 <= k <= |s| - 2
      ensures !IsAt(s, "__", k)
    {
      assert s[k..k + 2][0] == s[k];
    }
  }

  lemma {:induction false} NatToStringValue(n: nat)
    ensures DigitsValue(NatToString(n)) == n
  {
    if n >= 10 {
      NatToStringValue(n / 10);
      var s := NatToString(n);
      assert s[..|s| - 1] == NatToString(n / 10);
    }
  }

  /** `int(str(n)) == n`: printing an identifier and parsing it back is lossless. */
  lemma ParseIntToString(n: int)
    ensures ParseInt(IntToString(n)) == Some(n)
  {
    var s := IntToString(n);
    IntToStringChars(n);
    assert !IsIntSpace(s[0]) && !IsIntSpace(s[|s| - 1]);
    ParseIntUnspaced(s);
    if n < 0 {
      assert s == "-" + NatToString(-n);
      ReadDigits(NatToString(-n), -n);
    } else {
      assert s == NatToString(n);
      ReadDigits(NatToString(n), n);
    }
  }

  /** The digits of `n`, with or without a minus sign, read back as `n` or `-n`. */
  lemma ReadDigits(d: string, n: nat)
    requires d == NatToString(n)
    ensures ParseSigned(d) == Some(n) && ParseSigned("-" + d) == Some(-(n as int))
  {
    NatToStringValue(n);
    DigitsAreGroups(d);
    NegativeDigits(d);
  }

  /** `str(n)` is non-empty, starts with a minus sign exactly when `n` is negative, and
      is otherwise made of digits. */
  lemma IntToStringChars(n: int)
    ensures var s := IntToString(n);
      && s != [] && IsAsciiDigit(s[|s| - 1])
      && (s[0] == '-' <==> n < 0)
      && (forall i :: 0 <= i < |s| && (i > 0 || n >= 0) ==> IsAsciiDigit(s[i]))
      && (forall i :: 0 <= i < |s| ==> s[i] == '-' || IsAsciiDigit(s[i]))
  {
  }

  /** `str` on integers is injective: equal texts come from equal numbers. */
  lemma IntToStringInjective(a: int, b: int)
    requires IntToString(a) == IntToString(b)
    ensures a == b
  {
    ParseIntToString(a);
    ParseIntToString(b);
  }

  /** A minus sign followed by digits reads as the negated digits. */
  lemma NegativeDigits(d: string)
    requires d != [] && AllDigits(d)
    ensures ParseSigned("-" + d) == Some(-(DigitsValue(d) as int))
  {
    assert ("-" + d)[1..] == d;
    DigitsAreGroups(d);
  }

  /** `int()` ignores the space, tab, line feed, vertical tab, form feed and carriage
      return around the number: `int(" 5\n") == int("5")`. */
  lemma ParseIntIgnoresSpace(s: string)
    ensures ParseInt(IntStrip(s)) == ParseInt(s)
  {
    var t := IntStrip(s);
    ParseIntReadsStripped(s);
    ParseIntReadsStripped(t);
    TrimUnspaced(t, IsIntSpace);
  }

  /** `int(" 5") == 5`: a leading blank is not an error. */
  lemma ParseIntSpaced()
    ensures ParseInt(" 5") == Some(5)
  {
    assert " 5"[1..] == "5";
    assert IntStrip(" 5") == "5";
    DigitsAreGroups("5");
    assert DigitsValue("5") == 5 by { assert "5"[..0] == ""; }
  }

  /** `int("\x1c5")` raises ValueError: the file separator is whitespace to `str.strip`
      but not to `int()`. */
  lemma ParseIntRejectsSeparator()
    ensures ParseInt("\U{1C}5") == None
    ensures Strip("\U{1C}5") == "5"
  {
    var s := "\U{1C}5";
    assert IntStrip(s) == s;
    assert !DigitGroups(s);
    assert s[1..] == "5";
  }

  /** The display truncation used throughout the bot: text longer than `limit` becomes its
      first `limit - 3` characters followed by "...", so exactly `limit` long. */
  function Truncate(s: string, limit: int): (r: string)
    requires limit >= 3
    ensures |s| <= limit ==> r == s
    ensures |s| > limit ==> |r| == limit && r[..limit - 3] == s[..limit - 3] && r[limit - 3..] == "..."
  {
    if |s| > limit then s[..limit - 3] + "..." else s
  }

  /** The longest prefix of `s` without the character `c`. */
  function TakeUntil(s: string, c: char): (r: string)
    ensures |r| <= |s| && r == s[..|r|]
    ensures forall i :: 0 <= i < |r| ==> r[i] != c
    ensures |r| < |s| ==> s[|r|] == c
  {
    if s == [] || s[0] == c then [] else [s[0]] + TakeUntil(s[1..], c)
  }

  /** `sep.join(parts)`. */
  function Join(parts: seq<string>, sep: string): string {
    if parts == [] then ""
    else if |parts| == 1 then parts[0]
    else parts[0] + sep + Join(parts[1..], sep)
  }
}
