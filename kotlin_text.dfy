/**
 * The pieces of the Kotlin standard library that the core relies on, stated
 * over Dafny values: `Int.toString()`, `String.toIntOrNull()` (of which
 * `toInt()` is the throwing form), `split`, `joinToString`, `isBlank`,
 * `String.length` (UTF-16 code units) and 32-bit `Float` comparisons.
 */
module KotlinText {
  import opened Wrappers

  /** Kotlin's `Int`: a 32-bit two's-complement integer. */
  type Int32 = x: int | -0x8000_0000 <= x < 0x8000_0000

  predicate IsDigit(c: char) {
    '0' <= c <= '9'
  }

  predicate AllDigits(s: string) {
    forall i :: 0 <= i < |s| ==> IsDigit(s[i])
  }

  function DigitChar(d: nat): (c: char)
    requires d < 10
    ensures IsDigit(c) && c as int - '0' as int == d
  {
    (d + '0' as int) as char
  }

  /** Decimal digits of `n`, most significant first, with no leading zero. */
  function NatToString(n: nat): (s: string)
    ensures 1 <= |s| && AllDigits(s)
    ensures (|s| == 1) == (n < 10)
    decreases n
  {
    if n < 10 then [DigitChar(n)] else NatToString(n / 10) + [DigitChar(n % 10)]
  }

  /** `n.toString()`: an optional '-' followed by the decimal digits of |n|. */
  function IntToString(n: int): (s: string)
    ensures 1 <= |s|
    ensures forall i :: 0 <= i < |s| ==> IsDigit(s[i]) || (i == 0 && s[i] == '-' && n < 0)
  {
    if n < 0 then "-" + NatToString(-n) else NatToString(n)
  }

  /** The value of a string of decimal digits, read most significant first. */
  function DigitsValue(s: string): nat
    requires AllDigits(s)
  {
    if |s| == 0 then 0 else 10 * DigitsValue(s[..|s| - 1]) + (s[|s| - 1] as int - '0' as int)
  }

  lemma {:induction false} NatToStringValue(n: nat)
    ensures DigitsValue(NatToString(n)) == n
    decreases n
  {
    if n >= 10 {
      NatToStringValue(n / 10);
      var s := NatToString(n);
      assert s[..|s| - 1] == NatToString(n / 10);
    }
  }

  /**
   * `s.toIntOrNull()` in radix 10: an optional leading '+' or '-', then at
   * least one digit, and a value that fits in an `Int`. `s.toInt()` throws a
   * NumberFormatException exactly where this is `None`.
   */
  function ParseInt(s: string): (r: Option<Int32>)
    ensures r.Some? ==> 1 <= |s|
  {
    if |s| == 0 then None
    else
      var digits := if s[0] == '-' || s[0] == '+' then s[1..] else s;
      if |digits| == 0 || !AllDigits(digits) then None
      else
        var v: int := if s[0] == '-' then -(DigitsValue(digits) as int) else DigitsValue(digits);
        if -0x8000_0000 <= v < 0x8000_0000 then Some(v) else None
  }

  /**
   * What `toIntOrNull` accepts: a text it parses is an optional sign followed
   * by at least one digit; a text of digits only is parsed to its value
   * exactly when that value fits in an `Int`.
   */
  lemma ParseIntAccepts(s: string)
    ensures ParseInt(s).Some? ==> 1 <= |s| && IsDigit(s[|s| - 1])
    ensures ParseInt(s).Some? ==>
      forall i :: 0 <= i < |s| ==> IsDigit(s[i]) || (i == 0 && (s[i] == '-' || s[i] == '+'))
    ensures 1 <= |s| && AllDigits(s) ==> ParseInt(s) == (if DigitsValue(s) < 0x8000_0000 then Some(DigitsValue(s)) else None)
  {
  }

  /** Parsing what `toString` printed gives back the same `Int`. */
  lemma ParseIntToString(x: Int32)
    ensures ParseInt(IntToString(x)) == Some(x)
  {
    if x < 0 {
      NatToStringValue(-(x as int));
      assert IntToString(x)[1..] == NatToString(-(x as int));
    } else {
      NatToStringValue(x);
    }
  }

  /** Number of occurrences of `c` in `s`. */
  function Count(s: string, c: char): nat {
    if |s| == 0 then 0 else (if s[0] == c then 1 else 0) + Count(s[1..], c)
  }

  /**
   * `s.split(sep)` with no limit: the fields between occurrences of `sep`,
   * keeping empty fields (also the leading and trailing ones), so that the
   * empty string splits into one empty field.
   */
  function Split(s: string, sep: char): (fields: seq<string>)
    ensures |fields| == Count(s, sep) + 1
    ensures forall i :: 0 <= i < |fields| ==> sep !in fields[i]
  {
    if |s| == 0 then [""]
    else
      var rest := Split(s[1..], sep);
      if s[0] == sep then [""] + rest else [[s[0]] + rest[0]] + rest[1..]
  }

  /** `fields.joinToString(sep)`: the fields with one `sep` between neighbours. */
  function Join(fields: seq<string>, sep: char): string {
    if |fields| == 0 then ""
    else if |fields| == 1 then fields[0]
    else fields[0] + [sep] + Join(fields[1..], sep)
  }

  /** A leading field free of `sep` stays glued to the first field of what follows. */
  lemma {:induction false} SplitAfterField(a: string, t: string, sep: char)
    requires sep !in a
    ensures Split(a + t, sep) == [a + Split(t, sep)[0]] + Split(t, sep)[1..]
    decreases |a|
  {
    if |a| == 0 {
      assert a + t == t;
      assert a + Split(t, sep)[0] == Split(t, sep)[0];
      assert Split(t, sep) == [Split(t, sep)[0]] + Split(t, sep)[1..];
    } else {
      assert (a + t)[0] == a[0];
      assert (a + t)[1..] == a[1..] + t;
      SplitAfterField(a[1..], t, sep);
      assert [a[0]] + (a[1..] + Split(t, sep)[0]) == a + Split(t, sep)[0];
    }
  }

  /** Splitting a join gives back the fields, when no field contains the separator. */
  lemma {:induction false} SplitJoin(fields: seq<string>, sep: char)
    requires 1 <= |fields|
    requires forall i :: 0 <= i < |fields| ==> sep !in fields[i]
    ensures Split(Join(fields, sep), sep) == fields
    decreases |fields|
  {
    if |fields| == 1 {
      SplitAfterField(fields[0], "", sep);
      assert fields[0] + "" == fields[0];
    } else {
      var rest := Join(fields[1..], sep);
      SplitJoin(fields[1..], sep);
      assert fields[0] + [sep] + rest == fields[0] + ([sep] + rest);
      assert Join(fields, sep) == fields[0] + ([sep] + rest);
      SplitAfterField(fields[0], [sep] + rest, sep);
      assert ([sep] + rest)[1..] == rest;
      assert Split([sep] + rest, sep) == [""] + fields[1..];
      assert fields[0] + "" == fields[0];
      assert fields == [fields[0]] + fields[1..];
    }
  }

  /**
   * `Char.isWhitespace()` on the JVM: `Character.isWhitespace` or
   * `Character.isSpaceChar`, i.e. the ASCII controls TAB..CR and FS..US and
   * every Unicode space, line or paragraph separator.
   */
  predicate IsWhitespace(c: char) {
    || c == ' '
    || '\t' <= c <= '\r'
    || '\U{1C}' <= c <= '\U{1F}'
    || c == '\U{A0}'
    || c == '\U{1680}'
    || '\U{2000}' <= c <= '\U{200A}'
    || c == '\U{2028}' || c == '\U{2029}'
    || c == '\U{202F}' || c == '\U{205F}'
    || c == '\U{3000}'
  }

  /** `s.isBlank()`: empty, or whitespace only. */
  predicate IsBlank(s: string) {
    forall i :: 0 <= i < |s| ==> IsWhitespace(s[i])
  }

  /** `s.length`: Kotlin strings count UTF-16 code units, two for a character above U+FFFF. */
  function Utf16Length(s: string): (n: nat)
    ensures |s| <= n <= 2 * |s|
    ensures n == |s| <==> forall i :: 0 <= i < |s| ==> s[i] as int <= 0xFFFF
  {
    if |s| == 0 then 0 else (if s[0] as int > 0xFFFF then 2 else 1) + Utf16Length(s[1..])
  }

  /** A Kotlin `Float` as far as the core looks at it: a finite value, NaN or an infinity. */
  datatype KFloat = Finite(value: real) | NaN | PositiveInfinity | NegativeInfinity {

    /** `this < bound` under IEEE 754: false whenever NaN is involved. */
    predicate LessThan(bound: real) {
      match this
      case Finite(v) => v < bound
      case NegativeInfinity => true
      case _ => false
    }

    /** `this > bound` under IEEE 754: false whenever NaN is involved. */
    predicate GreaterThan(bound: real) {
      match this
      case Finite(v) => v > bound
      case PositiveInfinity => true
      case _ => false
    }
  }
}
