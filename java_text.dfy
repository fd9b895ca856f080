/**
 * The pieces of Java's string library that the client manager relies on:
 * commons-lang `StringUtils.isBlank`, `String.trim`, `String.split` with a
 * one-character separator, `Integer.parseInt` and `Integer.toString`.
 * Strings are sequences of characters; a Java `null` is `None`.
 */
module JavaText {
  import opened Wrappers

  const MinInt: int := -0x8000_0000
  const MaxInt: int := 0x7FFF_FFFF

  /** A value that fits in a Java `int`. */
  predicate IsInt32(n: int) { MinInt <= n <= MaxInt }

  // ---------------------------------------------------------------------------
  // StringUtils.isBlank
  // ---------------------------------------------------------------------------

  /**
   * Java's `Character.isWhitespace` (Unicode 6.2 tables, as in Java 8): the
   * space, line and paragraph separators other than the no-break spaces
   * U+00A0, U+2007 and U+202F, plus the controls U+0009-U+000D and U+001C-U+001F.
   */
  predicate IsWhitespace(c: char): (r: bool)
    ensures c == ' ' || c == '\t' || c == '\n' || c == '\r' ==> r
    ensures r ==> !IsDigit(c) && c != ':' && c != ',' && c != '+' && c != '-'
  {
    var n := c as int;
    (0x09 <= n <= 0x0D) || (0x1C <= n <= 0x20) || n == 0x1680 || n == 0x180E ||
    (0x2000 <= n <= 0x2006) || (0x2008 <= n <= 0x200A) ||
    n == 0x2028 || n == 0x2029 || n == 0x205F || n == 0x3000
  }

  /** Every character is whitespace (vacuously true of the empty string). */
  predicate AllWhitespace(s: string) {
    forall i :: 0 <= i < |s| ==> IsWhitespace(s[i])
  }

  /** `StringUtils.isBlank`: null, empty, or whitespace only. */
  predicate IsBlank(s: Option<string>): (r: bool)
    ensures s.None? || s == Some("") ==> r
    ensures r && s.Some? ==> forall i :: 0 <= i < |s.value| ==> s.value[i] != ':' && s.value[i] != ','
  {
    s.None? || AllWhitespace(s.value)
  }

  // ---------------------------------------------------------------------------
  // String.trim
  // ---------------------------------------------------------------------------

  /** `String.trim` removes every leading and trailing character at or below U+0020. */
  predicate IsTrimmable(c: char) { c <= ' ' }

  /** Drops the leading trimmable characters: what is left is a suffix that starts with a kept character. */
  function TrimStart(s: string): (r: string)
    ensures |r| <= |s| && r == s[|s| - |r|..]
    ensures forall k :: 0 <= k < |s| - |r| ==> IsTrimmable(s[k])
    ensures |r| > 0 ==> !IsTrimmable(r[0])
  {
    if |s| > 0 && IsTrimmable(s[0]) then TrimStart(s[1..]) else s
  }

  /** Drops the trailing trimmable characters: what is left is a prefix that ends with a kept character. */
  function TrimEnd(s: string): (r: string)
    ensures |r| <= |s| && r == s[..|r|]
    ensures forall k :: |r| <= k < |s| ==> IsTrimmable(s[k])
    ensures |r| > 0 ==> !IsTrimmable(r[|r| - 1])
  {
    if |s| > 0 && IsTrimmable(s[|s| - 1]) then TrimEnd(s[..|s| - 1]) else s
  }

  /** `String.trim`. */
  function Trim(s: string): (r: string)
    ensures |r| <= |s|
    ensures |r| > 0 ==> !IsTrimmable(r[0]) && !IsTrimmable(r[|r| - 1])
  {
    TrimEnd(TrimStart(s))
  }

  /**
   * What `trim` keeps is one contiguous slice of the input, everything cut
   * off on either side is trimmable, and the slice neither starts nor ends
   * with a trimmable character.
   */
  lemma TrimIsSlice(s: string) returns (i: nat, j: nat)
    ensures i <= j <= |s| && Trim(s) == s[i..j]
    ensures forall k :: 0 <= k < i ==> IsTrimmable(s[k])
    ensures forall k :: j <= k < |s| ==> IsTrimmable(s[k])
    ensures i < j ==> !IsTrimmable(s[i]) && !IsTrimmable(s[j - 1])
  {
    var t := TrimStart(s);
    var r := TrimEnd(t);
    i := |s| - |t|;
    j := i + |r|;
    PrefixOfSuffix(s, t, r);
  }

  /** Cutting `|s| - |t|` characters from the front and then some from the back: where the kept part sits in `s`. */
  lemma PrefixOfSuffix(s: string, t: string, r: string)
    requires |t| <= |s| && t == s[|s| - |t|..]
    requires |r| <= |t| && r == t[..|r|]
    requires forall k :: |r| <= k < |t| ==> IsTrimmable(t[k])
    requires |r| > 0 ==> !IsTrimmable(r[0]) && !IsTrimmable(r[|r| - 1])
    ensures r == s[|s| - |t|..|s| - |t| + |r|]
    ensures forall k :: |s| - |t| + |r| <= k < |s| ==> IsTrimmable(s[k])
    ensures |r| > 0 ==> !IsTrimmable(s[|s| - |t|]) && !IsTrimmable(s[|s| - |t| + |r| - 1])
  {
    var i := |s| - |t|;
    forall k | i + |r| <= k < |s| ensures IsTrimmable(s[k]) {
      assert s[k] == t[k - i];
    }
  }

  /** Trimming a second time changes nothing. */
  lemma TrimIdempotent(s: string)
    ensures Trim(Trim(s)) == Trim(s)
  {
    var r := Trim(s);
    assert |r| > 0 ==> !IsTrimmable(r[0]);
    assert TrimStart(r) == r;
    assert TrimEnd(r) == r;
  }

  // ---------------------------------------------------------------------------
  // String.split with a one-character separator
  // ---------------------------------------------------------------------------

  /**
   * Every field between separators, empty ones included: the text is cut at
   * each occurrence of `sep`, so there is always one field more than there
   * are separators.
   */
  function Fields(s: string, sep: char): (r: seq<string>)
    ensures |r| >= 1
    ensures forall k :: 0 <= k < |r| ==> sep !in r[k]
  {
    if |s| == 0 then [""]
    else
      var rest := Fields(s[1..], sep);
      if s[0] == sep then [""] + rest else [[s[0]] + rest[0]] + rest[1..]
  }

  /** Glues fields back together with the separator between them. */
  function Join(fs: seq<string>, sep: char): string
    requires |fs| >= 1
  {
    if |fs| == 1 then fs[0] else fs[0] + [sep] + Join(fs[1..], sep)
  }

  /** Cutting at the separator and joining again gives back the text. */
  lemma {:induction false} JoinFields(s: string, sep: char)
    ensures Join(Fields(s, sep), sep) == s
  {
    if |s| > 0 {
      var rest := Fields(s[1..], sep);
      JoinFields(s[1..], sep);
      if s[0] == sep {
        assert ([""] + rest)[1..] == rest;
      } else {
        var fs := [[s[0]] + rest[0]] + rest[1..];
        if |rest| > 1 {
          assert fs[1..] == rest[1..];
          assert Join(rest, sep) == rest[0] + [sep] + Join(rest[1..], sep);
        }
      }
    }
  }

  /** A text without the separator is a single field. */
  lemma {:induction false} FieldsWithoutSeparator(s: string, sep: char)
    requires sep !in s
    ensures Fields(s, sep) == [s]
  {
    if |s| > 0 {
      FieldsWithoutSeparator(s[1..], sep);
      assert [s[0]] + s[1..] == s;
    }
  }

  /** The text before the first `c` (all of it when there is none). */
  function TakeUntil(s: string, c: char): string {
    if |s| == 0 || s[0] == c then "" else [s[0]] + TakeUntil(s[1..], c)
  }

  /** The text after the first `c`. */
  function After(s: string, c: char): string
    requires c in s
  {
    if s[0] == c then s[1..] else After(s[1..], c)
  }

  /**
   * The first field is the text before the first separator, and the fields
   * after it are the fields of the text after that separator.
   */
  lemma {:induction false} FieldsHead(s: string, sep: char)
    ensures Fields(s, sep)[0] == TakeUntil(s, sep)
    ensures sep in s ==> |Fields(s, sep)| >= 2 && Fields(s, sep)[1..] == Fields(After(s, sep), sep)
  {
    if |s| > 0 {
      FieldsHead(s[1..], sep);
      if s[0] != sep {
        var rest := Fields(s[1..], sep);
        assert sep in s ==> sep in s[1..];
        assert ([[s[0]] + rest[0]] + rest[1..])[1..] == rest[1..];
      } else {
        assert ([""] + Fields(s[1..], sep))[1..] == Fields(s[1..], sep);
      }
    }
  }

  /**
   * Drops the empty strings at the end of a field list: the result is a
   * prefix, everything dropped is empty, and the last kept field is not.
   */
  function DropTrailingEmpty(fs: seq<string>): (r: seq<string>)
    ensures |r| <= |fs| && r == fs[..|r|]
    ensures forall k :: |r| <= k < |fs| ==> fs[k] == ""
    ensures |r| > 0 ==> r[|r| - 1] != ""
  {
    if |fs| > 0 && fs[|fs| - 1] == "" then DropTrailingEmpty(fs[..|fs| - 1]) else fs
  }

  /**
   * Java's `String.split(regex)` for a one-character separator that is not a
   * regular-expression metacharacter (`,` and `:`): a text without the
   * separator comes back whole (so "" gives [""]), otherwise the fields come
   * back with the trailing empty ones removed (so ":" gives []).
   */
  function Split(s: string, sep: char): (r: seq<string>)
    ensures forall k :: 0 <= k < |r| ==> sep !in r[k]
    ensures r == [] ==> sep in s
    ensures sep !in s ==> r == [s]
  {
    if sep !in s then [s] else DropTrailingEmpty(Fields(s, sep))
  }

  /**
   * The pieces `split` returns are the leading fields of the text; every
   * field that is not empty is among them.
   */
  lemma SplitKeepsFields(s: string, sep: char)
    ensures |Split(s, sep)| <= |Fields(s, sep)|
    ensures forall k :: 0 <= k < |Split(s, sep)| ==> Split(s, sep)[k] == Fields(s, sep)[k]
    ensures forall k :: 0 <= k < |Fields(s, sep)| && Fields(s, sep)[k] != "" ==> k < |Split(s, sep)|
    ensures forall k :: 0 <= k < |Split(s, sep)| ==> sep !in Split(s, sep)[k]
  {
    if sep !in s {
      FieldsWithoutSeparator(s, sep);
    }
  }

  /** A trailing separator yields no empty last piece: "h:" splits into ["h"]. */
  lemma SplitDropsTrailingEmpty()
    ensures Split("h:", ':') == ["h"]
    ensures Split(":", ':') == []
    ensures Split("", ',') == [""]
  {
    assert ":"[1..] == "" && "h:"[1..] == ":";
    assert Fields(":", ':') == ["", ""];
    assert Fields("h:", ':') == [['h'] + ""] + [""];
    assert ['h'] + "" == "h";
  }

  // ---------------------------------------------------------------------------
  // Integer.parseInt and Integer.toString (radix 10)
  // ---------------------------------------------------------------------------

  predicate IsDigit(c: char) { '0' <= c <= '9' }

  predicate AllDigits(s: string) {
    forall i :: 0 <= i < |s| ==> IsDigit(s[i])
  }

  function DigitValue(c: char): nat
    requires IsDigit(c)
  {
    c as int - '0' as int
  }

  function DigitChar(d: nat): (c: char)
    requires d < 10
    ensures IsDigit(c) && DigitValue(c) == d
  {
    ['0', '1', '2', '3', '4', '5', '6', '7', '8', '9'][d]
  }

  /** The number a run of decimal digits denotes, most significant first. */
  function DigitsValue(s: string): nat
    requires AllDigits(s)
  {
    if |s| == 0 then 0 else 10 * DigitsValue(s[..|s| - 1]) + DigitValue(s[|s| - 1])
  }

  /** The shortest decimal digits of a natural number. */
  function NatToDigits(n: nat): (r: string)
    ensures |r| >= 1 && AllDigits(r)
  {
    if n < 10 then [DigitChar(n)] else NatToDigits(n / 10) + [DigitChar(n % 10)]
  }

  /** `Integer.toString`: a minus sign for negative numbers, never a plus. */
  function IntToString(n: int): (r: string)
    ensures |r| >= 1
    ensures n < 0 <==> r[0] == '-'
    ensures forall i :: 0 < i < |r| ==> IsDigit(r[i])
  {
    if n < 0 then "-" + NatToDigits(-n) else NatToDigits(n)
  }

  /**
   * `Integer.parseInt(s)`: an optional `+` or `-`, then at least one decimal
   * digit and nothing else, denoting a value inside the `int` range; any
   * other text (empty, a lone sign, a space anywhere, an overflow) throws
   * `NumberFormatException`, which is `None` here.
   */
  function ParseInt(s: string): (r: Option<int>)
    ensures r.Some? ==> IsInt32(r.value)
  {
    if |s| == 0 then None
    else
      var signed := s[0] == '-' || s[0] == '+';
      var digits := if signed then s[1..] else s;
      if |digits| == 0 || !AllDigits(digits) then None
      else
        var n: int := DigitsValue(digits);
        var v := if s[0] == '-' then -n else n;
        if IsInt32(v) then Some(v) else None
  }

  /** The digits of a natural number are digits, there is at least one, and they read back as the number. */
  lemma {:induction false} NatToDigitsRoundTrip(n: nat)
    ensures |NatToDigits(n)| >= 1 && AllDigits(NatToDigits(n))
    ensures DigitsValue(NatToDigits(n)) == n
  {
    if n >= 10 {
      NatToDigitsRoundTrip(n / 10);
      var s := NatToDigits(n / 10) + [DigitChar(n % 10)];
      assert s[..|s| - 1] == NatToDigits(n / 10);
    }
  }

  /** `Integer.parseInt(Integer.toString(n)) == n` for every `int`. */
  lemma ParseIntToString(n: int)
    requires IsInt32(n)
    ensures ParseInt(IntToString(n)) == Some(n)
  {
    if n < 0 {
      var d := NatToDigits(-n);
      NatToDigitsRoundTrip(-n);
      ParseIntOfDigits("-", d);
    } else {
      var d := NatToDigits(n);
      NatToDigitsRoundTrip(n);
      ParseIntOfDigits("", d);
      assert "" + d == d;
    }
  }

  /** The text of a number is non-empty and holds no separator character. */
  lemma IntToStringShape(n: int)
    ensures |IntToString(n)| >= 1
    ensures forall i :: 0 <= i < |IntToString(n)| ==> IntToString(n)[i] == '-' || IsDigit(IntToString(n)[i])
  {
    var s := IntToString(n);
    if n < 0 {
      var d := NatToDigits(-n);
      NatToDigitsRoundTrip(-n);
      assert s == "-" + d;
      forall i | 0 <= i < |s| ensures s[i] == '-' || IsDigit(s[i]) {
        if i > 0 { assert s[i] == d[i - 1]; }
      }
    } else {
      NatToDigitsRoundTrip(n);
    }
  }

  /**
   * What `parseInt` accepts is a leading sign at most and digits otherwise,
   * so it rejects any text holding whitespace, a trimmable character or any
   * other character.
   */
  lemma ParseIntAccepts(s: string)
    requires ParseInt(s).Some?
    ensures |s| >= 1
    ensures forall i :: 0 <= i < |s| ==> IsDigit(s[i]) || (i == 0 && (s[0] == '-' || s[0] == '+'))
    ensures forall i :: 0 <= i < |s| ==> !IsWhitespace(s[i]) && !IsTrimmable(s[i])
  {
    var digits := if s[0] == '-' || s[0] == '+' then s[1..] else s;
    assert forall i :: 0 <= i < |s| && !(i == 0 && (s[0] == '-' || s[0] == '+')) ==> (s[0] == '-' || s[0] == '+' ==> s[i] == digits[i - 1]);
  }

  /**
   * The converse: an optional sign followed by one or more digits, denoting
   * a value in the `int` range, parses to that value (so "+80" gives 80 and
   * "-0" gives 0).
   */
  lemma ParseIntOfDigits(sign: string, digits: string)
    requires sign == "" || sign == "+" || sign == "-"
    requires |digits| >= 1 && AllDigits(digits)
    requires IsInt32(if sign == "-" then -(DigitsValue(digits) as int) else DigitsValue(digits))
    ensures ParseInt(sign + digits) == Some(if sign == "-" then -(DigitsValue(digits) as int) else DigitsValue(digits))
  {
    var s := sign + digits;
    if sign == "" {
      assert s == digits;
    } else {
      assert s[0] == sign[0] && s[1..] == digits;
    }
  }
}
