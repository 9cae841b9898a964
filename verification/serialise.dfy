/**
 * The serialisation `newUUID` hashes: Go's `fmt.Sprint` applied to unsigned
 * integer operands, followed by the `[]byte(string)` conversion.
 *
 * `fmt.Sprint` renders every integer operand in its default decimal form and
 * adds a single space between two adjacent operands when neither is a string,
 * which is always the case for the pixel samples and the random draws.
 */
module Serialise {
  type byte = bv8
  type uint32 = x: int | 0 <= x < 0x1_0000_0000

  predicate IsDigit(c: char) {
    '0' <= c <= '9'
  }

  function DigitChar(d: nat): (c: char)
    requires d < 10
    ensures IsDigit(c)
  {
    ('0' as int + d) as char
  }

  function DigitValue(c: char): (d: nat)
    requires IsDigit(c)
    ensures d < 10
  {
    c as int - '0' as int
  }

  /** The default `%v` text of a non-negative integer: decimal, no sign, no leading zero. */
  function Decimal(n: nat): (s: string)
    ensures |s| >= 1
    ensures forall i :: 0 <= i < |s| ==> IsDigit(s[i])
    ensures s[0] == '0' ==> n == 0
    decreases n
  {
    if n < 10 then [DigitChar(n)] else Decimal(n / 10) + [DigitChar(n % 10)]
  }

  /** The number a string of decimal digits denotes. */
  function DigitsValue(s: string): nat
    requires forall i :: 0 <= i < |s| ==> IsDigit(s[i])
    decreases |s|
  {
    if s == [] then 0 else 10 * DigitsValue(s[..|s| - 1]) + DigitValue(s[|s| - 1])
  }

  /** Reading back the decimal text of `n` gives `n`. */
  lemma {:induction false} DecimalRoundTrip(n: nat)
    ensures DigitsValue(Decimal(n)) == n
    decreases n
  {
    if n >= 10 {
      DecimalRoundTrip(n / 10);
      var s := Decimal(n);
      assert s[..|s| - 1] == Decimal(n / 10);
    }
  }

  /** `fmt.Sprint(args...)` for integer operands. */
  function Sprint(args: seq<uint32>): (s: string)
    ensures forall i :: 0 <= i < |s| ==> IsDigit(s[i]) || s[i] == ' '
    ensures s == [] <==> args == []
    decreases |args|
  {
    if |args| == 0 then ""
    else if |args| == 1 then Decimal(args[0])
    else Decimal(args[0]) + " " + Sprint(args[1..])
  }

  /** `[]byte(s)`: the UTF-8 encoding, one byte per character for ASCII text. */
  function AsciiBytes(s: string): (bs: seq<byte>)
    requires forall i :: 0 <= i < |s| ==> s[i] as int < 128
    ensures |bs| == |s|
    ensures forall i :: 0 <= i < |s| ==> bs[i] as int == s[i] as int
  {
    seq(|s|, i requires 0 <= i < |s| => AsciiByte(s[i]))
  }

  /** The single UTF-8 byte of an ASCII character. */
  function AsciiByte(c: char): (b: byte)
    requires c as int < 128
    ensures b as int == c as int
  {
    ByteOf(c as int)
  }

  /** The byte whose value is `n`, counted up one at a time. */
  function ByteOf(n: nat): (b: byte)
    requires n < 256
    ensures b as int == n
  {
    if n == 0 then 0 else ByteOf(n - 1) + 1
  }

  /** The bytes `newUUID` hands to the hash: `[]byte(fmt.Sprint(args...))`. SerialisedInjective states its property. */
  function Serialised(args: seq<uint32>): seq<byte> {
    AsciiBytes(Sprint(args))
  }

  /** The text of a non-empty operand list: the first operand, then either the end or a space. */
  lemma SprintShape(xs: seq<uint32>)
    requires xs != []
    ensures var d, s := Decimal(xs[0]), Sprint(xs);
      && |d| <= |s| && s[..|d|] == d
      && (|xs| == 1 ==> |s| == |d|)
      && (|xs| > 1 ==> |s| > |d| && s[|d|] == ' ' && s[|d| + 1..] == Sprint(xs[1..]))
  {
  }

  /** The first operand's text ends where the other list's first operand's text ends. */
  lemma HeadLengthsAgree(xs: seq<uint32>, ys: seq<uint32>)
    requires xs != [] && ys != []
    requires Sprint(xs) == Sprint(ys)
    ensures |Decimal(xs[0])| <= |Decimal(ys[0])|
  {
    SprintShape(xs);
    SprintShape(ys);
  }

  /** Distinct operand lists render to distinct text. */
  lemma {:induction false} SprintInjective(xs: seq<uint32>, ys: seq<uint32>)
    requires Sprint(xs) == Sprint(ys)
    ensures xs == ys
    decreases |xs|
  {
    if xs != [] && ys != [] {
      HeadLengthsAgree(xs, ys);
      HeadLengthsAgree(ys, xs);
      var d, e, s := Decimal(xs[0]), Decimal(ys[0]), Sprint(xs);
      SprintShape(xs);
      SprintShape(ys);
      assert d == s[..|d|] == e;
      DecimalRoundTrip(xs[0]);
      DecimalRoundTrip(ys[0]);
      if |xs| == 1 || |ys| == 1 {
        assert |xs| == 1 && |ys| == 1;
      } else {
        assert Sprint(xs[1..]) == s[|d| + 1..] == Sprint(ys[1..]);
        SprintInjective(xs[1..], ys[1..]);
        assert xs == [xs[0]] + xs[1..];
        assert ys == [ys[0]] + ys[1..];
      }
    }
  }

  /** Distinct operand lists give the hash distinct inputs. */
  lemma SerialisedInjective(xs: seq<uint32>, ys: seq<uint32>)
    requires Serialised(xs) == Serialised(ys)
    ensures xs == ys
  {
    var s, t := Sprint(xs), Sprint(ys);
    assert |s| == |t|;
    forall i | 0 <= i < |s| ensures s[i] == t[i] {
      assert AsciiBytes(s)[i] == AsciiBytes(t)[i];
    }
    assert s == t;
    SprintInjective(xs, ys);
  }
}
