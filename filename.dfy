/** The name under which the export is downloaded:
    `sketch-padavinodam-<Date.now()>.png`, where the timestamp is the number of
    milliseconds since the Unix epoch written as JavaScript writes an integer
    of magnitude below 10^21: a minus sign before the instant 0 (a clock set
    before 1970), then decimal digits without a leading zero. */
module DownloadName {
  import opened Options

  const Prefix: string := "sketch-padavinodam-"
  const Suffix: string := ".png"

  predicate IsDigit(c: char) { '0' <= c <= '9' }

  predicate AllDigits(s: string) {
    forall i :: 0 <= i < |s| ==> IsDigit(s[i])
  }

  function DigitChar(d: nat): (c: char)
    requires d < 10
    ensures IsDigit(c) && (c as int) - ('0' as int) == d
  {
    (('0' as int) + d) as char
  }

  function DigitValue(c: char): (d: nat)
    requires IsDigit(c)
    ensures d < 10 && DigitChar(d) == c
  {
    (c as int) - ('0' as int)
  }

  /** The decimal rendering of n: only digits, never empty, no leading zero. */
  function Decimal(n: nat): (s: string)
    ensures |s| >= 1
    ensures AllDigits(s)
    ensures s[0] == '0' ==> n == 0 && s == "0"
    decreases n
  {
    if n < 10 then [DigitChar(n)] else Decimal(n / 10) + [DigitChar(n % 10)]
  }

  /** The value of a string of decimal digits. */
  function DecimalValue(s: string): (n: nat)
    requires AllDigits(s)
    decreases |s|
  {
    if s == [] then 0 else 10 * DecimalValue(s[..|s| - 1]) + DigitValue(s[|s| - 1])
  }

  /** Reading back the decimal rendering gives the number that was rendered. */
  lemma {:induction false} DecimalRoundTrip(n: nat)
    ensures DecimalValue(Decimal(n)) == n
    decreases n
  {
    var s := Decimal(n);
    if n >= 10 {
      DecimalRoundTrip(n / 10);
      assert s[..|s| - 1] == Decimal(n / 10);
    }
  }

  /** The rendering of a signed timestamp: a minus sign for negative ones. */
  function Signed(t: int): (s: string)
    ensures |s| >= 1
    ensures s[0] == '-' <==> t < 0
    ensures AllDigits(if t < 0 then s[1..] else s)
  {
    if t < 0 then "-" + Decimal(-t) else Decimal(t)
  }

  /** Reads a signed timestamp back, or None for text that is not the
      rendering of an integer. */
  function ParseSigned(s: string): (t: Option<int>)
    ensures t.Some? ==> Signed(t.value) == s
  {
    if |s| >= 2 && s[0] == '-' && AllDigits(s[1..]) && s[1] != '0' then
      DecimalCanonical(s[1..]);
      assert s == "-" + s[1..];
      Some(-(DecimalValue(s[1..]) as int))
    else if |s| >= 1 && AllDigits(s) && (s[0] == '0' ==> s == "0") then
      DecimalCanonical(s);
      Some(DecimalValue(s))
    else None
  }

  /** Reading back the rendering of a timestamp gives the timestamp. */
  lemma SignedRoundTrip(t: int)
    ensures ParseSigned(Signed(t)) == Some(t)
  {
    var s := Signed(t);
    if t < 0 {
      var digits := Decimal(-t);
      assert s == "-" + digits && s[1..] == digits;
      assert AllDigits(s[1..]) && s[1] == digits[0] != '0';
      DecimalRoundTrip(-t);
      assert ParseSigned(s) == Some(-(DecimalValue(digits) as int));
    } else {
      assert s == Decimal(t) && IsDigit(s[0]);
      DecimalRoundTrip(t);
      assert ParseSigned(s) == Some(DecimalValue(s));
    }
  }

  /** The download name for an export started at `timestamp` (milliseconds). */
  function FileName(timestamp: int): (name: string)
    ensures |name| > |Prefix| + |Suffix|
    ensures name[..|Prefix|] == Prefix && name[|name| - |Suffix|..] == Suffix
  {
    Prefix + Signed(timestamp) + Suffix
  }

  /** Recovers the timestamp from a download name, or None for a name that
      does not follow the pattern. */
  function ParseFileName(name: string): (t: Option<int>)
    ensures t.Some? ==> FileName(t.value) == name
  {
    if |name| > |Prefix| + |Suffix|
       && name[..|Prefix|] == Prefix
       && name[|name| - |Suffix|..] == Suffix
    then
      var stamp := name[|Prefix|..|name| - |Suffix|];
      assert name == Prefix + stamp + Suffix;
      ParseSigned(stamp)
    else None
  }

  /** A string of digits without a leading zero is the rendering of its value. */
  lemma {:induction false} DecimalCanonical(s: string)
    requires |s| >= 1 && AllDigits(s)
    requires s[0] == '0' ==> s == "0"
    ensures Decimal(DecimalValue(s)) == s
    decreases |s|
  {
    if |s| > 1 {
      var init := s[..|s| - 1];
      var last := DigitValue(s[|s| - 1]);
      DecimalCanonical(init);
      var v := DecimalValue(init);
      assert v >= 1;
      var n := DecimalValue(s);
      assert n == 10 * v + last;
      assert n / 10 == v && n % 10 == last;
    }
  }

  /** Every download name parses back to its timestamp. */
  lemma FileNameRoundTrip(timestamp: int)
    ensures ParseFileName(FileName(timestamp)) == Some(timestamp)
  {
    var name := FileName(timestamp);
    assert name[|Prefix|..|name| - |Suffix|] == Signed(timestamp);
    SignedRoundTrip(timestamp);
  }

  /** Exports started at different milliseconds get different download names. */
  lemma FileNameInjective(t1: int, t2: int)
    requires t1 != t2
    ensures FileName(t1) != FileName(t2)
  {
    FileNameRoundTrip(t1);
    FileNameRoundTrip(t2);
  }
}
