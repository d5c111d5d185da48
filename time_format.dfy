/**
 * `formatTime` of the client: a duration in whole seconds shown as `m:ss`
 * (minutes unpadded, seconds always two digits), with `0:00` for an absent or
 * zero duration. `ParseClock` reads such a label back, so that the round trip
 * `ParseClock(FormatTime(s)) == s` pins down what the label says.
 */
module TimeFormat {
  import opened Wrappers

  predicate IsDigit(c: char) {
    '0' <= c <= '9'
  }

  predicate AllDigits(s: string) {
    forall i :: 0 <= i < |s| ==> IsDigit(s[i])
  }

  function DigitChar(d: nat): (c: char)
    requires d < 10
    ensures IsDigit(c) && c as int - '0' as int == d
  {
    ('0' as int + d) as char
  }

  /** `n.toString()` for a natural number: its decimal digits, most significant first. */
  function Decimal(n: nat): (r: string)
    ensures |r| >= 1 && AllDigits(r)
    ensures n < 10 <==> |r| == 1
    ensures n < 100 ==> |r| <= 2
    ensures r[0] == '0' ==> n == 0
  {
    if n < 10 then [DigitChar(n)] else Decimal(n / 10) + [DigitChar(n % 10)]
  }

  /** The number a string of decimal digits denotes. */
  function DecimalValue(s: string): nat
    requires AllDigits(s)
  {
    if s == [] then 0 else 10 * DecimalValue(s[..|s| - 1]) + (s[|s| - 1] as int - '0' as int)
  }

  /** Printing a number in decimal and reading it back gives the number. */
  lemma {:induction false} DecimalRoundTrip(n: nat)
    ensures DecimalValue(Decimal(n)) == n
  {
    if n >= 10 {
      var r := Decimal(n);
      DecimalRoundTrip(n / 10);
      assert r[..|r| - 1] == Decimal(n / 10);
    }
  }

  /** `str.padStart(2, '0')`: a string shorter than two characters gets leading zeros. */
  function PadStart2(s: string): (r: string)
    ensures |s| < 2 ==> |r| == 2 && r == seq(2 - |s|, _ => '0') + s
    ensures |s| >= 2 ==> r == s
  {
    if |s| == 0 then "00" else if |s| == 1 then "0" + s else s
  }

  /** The minutes part of a label: `Math.floor(seconds / 60)`. */
  function Minutes(seconds: nat): nat {
    seconds / 60
  }

  /** The seconds part of a label: `Math.floor(seconds % 60)`, always below 60. */
  function SecondsPart(seconds: nat): (s: nat)
    ensures s < 60
  {
    seconds % 60
  }

  /** The padded seconds part is two digits, the first of them 0 to 5. */
  lemma TensDigit(ss: nat)
    requires ss < 60
    ensures var t := PadStart2(Decimal(ss));
            |t| == 2 && AllDigits(t) && '0' <= t[0] <= '5'
  {
    if ss >= 10 {
      assert Decimal(ss) == Decimal(ss / 10) + [DigitChar(ss % 10)];
      assert Decimal(ss / 10) == [DigitChar(ss / 10)];
    }
  }

  /**
   * `formatTime(seconds)`. `None` stands for every value JavaScript's
   * `!seconds || isNaN(seconds)` test rejects besides 0: `undefined`, `null`, `NaN`.
   */
  function FormatTime(seconds: Option<nat>): (r: string)
    ensures seconds == None || seconds == Some(0) ==> r == "0:00"
    ensures |r| >= 4 && r[|r| - 3] == ':'
    ensures AllDigits(r[..|r| - 3]) && AllDigits(r[|r| - 2..])
    ensures '0' <= r[|r| - 2] <= '5'
  {
    match seconds
    case None => "0:00"
    case Some(s) =>
      if s == 0 then "0:00"
      else
        var ss := SecondsPart(s);
        var tail := PadStart2(Decimal(ss));
        TensDigit(ss);
        Decimal(Minutes(s)) + ":" + tail
  }

  /** Reads an `m:ss` label back into seconds; `None` when the text is not such a label. */
  function ParseClock(text: string): Option<nat> {
    if |text| < 4 || text[|text| - 3] != ':' then None
    else
      var m := text[..|text| - 3];
      var ss := text[|text| - 2..];
      if !AllDigits(m) || !AllDigits(ss) || DecimalValue(ss) >= 60 then None
      else Some(60 * DecimalValue(m) + DecimalValue(ss))
  }

  lemma TwoDigitValue(ss: nat)
    requires ss < 60
    ensures AllDigits(PadStart2(Decimal(ss))) && DecimalValue(PadStart2(Decimal(ss))) == ss
  {
    DecimalRoundTrip(ss);
    var d := Decimal(ss);
    if |d| == 1 {
      var p := PadStart2(d);
      assert p[..1] == "0";
      assert p[..|p| - 1][..0] == [];
    }
  }

  /** The label of a duration reads back as that duration: minutes times 60 plus the seconds part. */
  lemma FormatTimeRoundTrip(seconds: nat)
    ensures ParseClock(FormatTime(Some(seconds))) == Some(seconds)
  {
    if seconds == 0 {
      assert "0:00"[..1] == "0" && "0:00"[2..] == "00";
      assert DecimalValue("00") == 10 * DecimalValue("0") + 0;
    } else {
      var r := FormatTime(Some(seconds));
      var m := Decimal(Minutes(seconds));
      var tail := PadStart2(Decimal(SecondsPart(seconds)));
      assert r == m + ":" + tail;
      assert r[..|r| - 3] == m && r[|r| - 2..] == tail;
      DecimalRoundTrip(Minutes(seconds));
      TwoDigitValue(SecondsPart(seconds));
    }
  }
}
