/** Integer-to-text conversions the rating engine relies on: `toString`, `padStart(2, '0')`,
    and the `hh:mm:ss` interval it stores as a judge's average response time. A decimal
    parser and a `:`-splitter are the partners that the formatting is proved against. */
module Text {
  import opened Wrappers

  predicate IsDigit(c: char) {
    '0' <= c <= '9'
  }

  predicate AllDigits(s: string) {
    forall i :: 0 <= i < |s| ==> IsDigit(s[i])
  }

  function DigitChar(d: nat): (c: char)
    requires d < 10
    ensures IsDigit(c)
    ensures c as int - '0' as int == d
  {
    (d + '0' as int) as char
  }

  /** `n.toString()` for a non-negative integer: its decimal digits, no leading zeros. */
  function NatToString(n: nat): (r: string)
    ensures |r| >= 1
    ensures AllDigits(r)
    ensures |r| == 1 <==> n < 10
    decreases n
  {
    if n < 10 then [DigitChar(n)] else NatToString(n / 10) + [DigitChar(n % 10)]
  }

  /** `x.toString()` for any integer: a minus sign before the digits of a negative value. */
  function IntToString(x: int): (r: string)
    ensures x >= 0 ==> AllDigits(r)
    ensures x < 0 ==> |r| >= 2 && r[0] == '-' && AllDigits(r[1..])
  {
    if x < 0 then "-" + NatToString(-x) else NatToString(x)
  }

  /** `String(x)` reads back as `x`: the digits are the magnitude, after a `-` for a negative
      number. */
  lemma IntToStringReadsBack(x: int)
    ensures x >= 0 ==> ParseNat(IntToString(x)) == x
    ensures x < 0 ==> ParseNat(IntToString(x)[1..]) == -x
  {
    if x < 0 {
      ParseNatToString(-x);
      assert IntToString(x)[1..] == NatToString(-x);
    } else {
      ParseNatToString(x);
    }
  }

  /** `s.padStart(2, '0')`. */
  function PadStart2(s: string): (r: string)
    ensures |r| >= 2
    ensures |s| >= 2 ==> r == s
    ensures |s| < 2 ==> |r| == 2 && r[2 - |s|..] == s && forall i :: 0 <= i < 2 - |s| ==> r[i] == '0'
  {
    if |s| == 0 then "00" else if |s| == 1 then "0" + s else s
  }

  /** The value of a string of decimal digits; leading zeros are allowed. */
  function ParseNat(s: string): nat
    requires AllDigits(s)
    decreases |s|
  {
    if s == [] then 0 else ParseNat(s[..|s| - 1]) * 10 + (s[|s| - 1] as int - '0' as int)
  }

  /** Printing and reading back a non-negative integer gives it back. */
  lemma {:induction false} ParseNatToString(n: nat)
    ensures ParseNat(NatToString(n)) == n
    decreases n
  {
    if n >= 10 {
      ParseNatToString(n / 10);
      var s := NatToString(n);
      assert s[..|s| - 1] == NatToString(n / 10);
    }
  }

  /** A leading zero does not change the value read. */
  lemma {:induction false} ParseNatLeadingZero(s: string)
    requires AllDigits(s)
    ensures AllDigits("0" + s)
    ensures ParseNat("0" + s) == ParseNat(s)
    decreases |s|
  {
    var z := "0" + s;
    if s != [] {
      ParseNatLeadingZero(s[..|s| - 1]);
      assert z[..|z| - 1] == "0" + s[..|s| - 1];
    } else {
      assert z[..|z| - 1] == [];
    }
  }

  /** Padding with zeros keeps a digit string's value and its digits. */
  lemma PadStart2Value(s: string)
    requires AllDigits(s)
    ensures AllDigits(PadStart2(s))
    ensures ParseNat(PadStart2(s)) == ParseNat(s)
  {
    if |s| == 0 {
      assert ParseNat("00") == ParseNat("0" + "0");
      ParseNatLeadingZero("0");
      assert "0"[..0] == [];
    } else if |s| == 1 {
      ParseNatLeadingZero(s);
    }
  }

  /** JavaScript's `a % b` for a positive `b`: the remainder takes the sign of `a`
      (Dafny's own `%` never returns a negative value). */
  function JsRem(a: int, b: int): (r: int)
    requires b > 0
    ensures a >= 0 ==> 0 <= r < b
    ensures a < 0 ==> -b < r <= 0
    ensures exists q :: a == q * b + r
  {
    if a >= 0 then
      assert a == (a / b) * b + a % b;
      a % b
    else
      assert -a == ((-a) / b) * b + (-a) % b;
      assert a == (-((-a) / b)) * b + -((-a) % b);
      -((-a) % b)
  }

  /** The `hh:mm:ss` text built from whole seconds, field by field as the source computes it:
      hours with `Math.floor`, minutes from the truncating `%` then `Math.floor`, seconds from
      the truncating `%`, each printed and padded to two characters. Division by a positive
      divisor in Dafny is `Math.floor` of the exact quotient. */
  function FormatInterval(secs: int): string {
    RenderClock(secs / 3600, JsRem(secs, 3600) / 60, JsRem(secs, 60))
  }

  /** Three numbers printed, padded and joined with `:`. */
  function RenderClock(hours: int, minutes: int, seconds: int): string {
    PadStart2(IntToString(hours)) + ":" + PadStart2(IntToString(minutes)) + ":" + PadStart2(IntToString(seconds))
  }

  /** Non-negative clock fields split back out of their rendering, each readable as itself. */
  lemma RenderClockFields(h: nat, m: nat, sec: nat)
    ensures Fields(RenderClock(h, m, sec))
            == [PadStart2(IntToString(h)), PadStart2(IntToString(m)), PadStart2(IntToString(sec))]
    ensures ParseInterval(RenderClock(h, m, sec)) == Some(h * 3600 + m * 60 + sec)
  {
    var hs, ms, ss := PadStart2(IntToString(h)), PadStart2(IntToString(m)), PadStart2(IntToString(sec));
    PaddedNumber(h);
    PaddedNumber(m);
    PaddedNumber(sec);
    FieldsOfThree(hs, ms, ss);
  }

  /** Three colon-free strings joined with `:` split back into themselves. */
  lemma FieldsOfThree(a: string, b: string, c: string)
    requires ':' !in a && ':' !in b && ':' !in c
    ensures Fields(a + ":" + b + ":" + c) == [a, b, c]
  {
    FieldsSingle(c);
    FieldsCons(b, c);
    assert a + ":" + b + ":" + c == a + ":" + (b + ":" + c);
    FieldsCons(a, b + ":" + c);
  }

  /** `s.split(':')`. */
  function Fields(s: string): (r: seq<string>)
    ensures |r| >= 1
    decreases |s|
  {
    if s == [] then [""]
    else if s[0] == ':' then [""] + Fields(s[1..])
    else
      var rest := Fields(s[1..]);
      [[s[0]] + rest[0]] + rest[1..]
  }

  /** A field without `:` followed by a colon splits off as the first field. */
  lemma {:induction false} FieldsCons(a: string, b: string)
    requires ':' !in a
    ensures Fields(a + ":" + b) == [a] + Fields(b)
    decreases |a|
  {
    if a == [] {
      assert a + ":" + b == [':'] + b;
      assert (a + ":" + b)[1..] == b;
    } else {
      FieldsCons(a[1..], b);
      assert (a + ":" + b)[1..] == a[1..] + ":" + b;
      assert [a[0]] + a[1..] == a;
    }
  }

  /** A string without `:` is a single field. */
  lemma {:induction false} FieldsSingle(a: string)
    requires ':' !in a
    ensures Fields(a) == [a]
    decreases |a|
  {
    if a != [] {
      FieldsSingle(a[1..]);
      assert [a[0]] + a[1..] == a;
    }
  }

  /** Reads back an `hh:mm:ss` interval of non-negative fields: the partner of `FormatInterval`. */
  function ParseInterval(s: string): Option<nat> {
    var f := Fields(s);
    if |f| == 3 && AllDigits(f[0]) && AllDigits(f[1]) && AllDigits(f[2])
    then Some(ParseNat(f[0]) * 3600 + ParseNat(f[1]) * 60 + ParseNat(f[2]))
    else None
  }

  /** A padded non-negative number has no colon and reads back as itself. */
  lemma PaddedNumber(n: nat)
    ensures ':' !in PadStart2(IntToString(n))
    ensures AllDigits(PadStart2(IntToString(n)))
    ensures |PadStart2(IntToString(n))| >= 2
    ensures ParseNat(PadStart2(IntToString(n))) == n
  {
    PadStart2Value(NatToString(n));
    ParseNatToString(n);
    var p := PadStart2(IntToString(n));
    assert forall i :: 0 <= i < |p| ==> p[i] != ':';
  }

  /** Whole hours, the minutes of the remainder and the seconds add back up. */
  lemma SplitSeconds(secs: nat)
    ensures (secs % 3600) / 60 < 60 && secs % 60 < 60
    ensures (secs / 3600) * 3600 + ((secs % 3600) / 60) * 60 + secs % 60 == secs
  {
    var h, r := secs / 3600, secs % 3600;
    var m, t := r / 60, r % 60;
    DivSixty(secs, h * 60 + m, t);
  }

  /** Division by 60 is determined by quotient and remainder. */
  lemma DivSixty(a: int, q: int, t: int)
    requires 0 <= t < 60 && a == q * 60 + t
    ensures a / 60 == q && a % 60 == t
  {
  }

  /** For a non-negative number of seconds the interval has three fields, each at least two
      digits, minutes and seconds below 60, and hours·3600 + minutes·60 + seconds equal to the
      input. */
  lemma FormatIntervalFields(secs: nat)
    ensures |Fields(FormatInterval(secs))| == 3
    ensures forall i :: 0 <= i < 3 ==> |Fields(FormatInterval(secs))[i]| >= 2
    ensures forall i :: 0 <= i < 3 ==> AllDigits(Fields(FormatInterval(secs))[i])
    ensures ParseNat(Fields(FormatInterval(secs))[1]) < 60
    ensures ParseNat(Fields(FormatInterval(secs))[2]) < 60
    ensures ParseNat(Fields(FormatInterval(secs))[0]) * 3600
            + ParseNat(Fields(FormatInterval(secs))[1]) * 60
            + ParseNat(Fields(FormatInterval(secs))[2]) == secs
    ensures ParseInterval(FormatInterval(secs)) == Some(secs)
  {
    var h, m, sec := secs / 3600, (secs % 3600) / 60, secs % 60;
    SplitSeconds(secs);
    assert FormatInterval(secs) == RenderClock(h, m, sec);
    RenderClockFields(h, m, sec);
    PaddedNumber(h);
    PaddedNumber(m);
    PaddedNumber(sec);
  }
}
