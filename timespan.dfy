/** src/Converters/TimespanStringConverter.cs: shows the elapsed seconds of a game as "MM:SS".
    TimeSpan.FromSeconds is read through integer division: for a non-negative count of seconds
    its Minutes are (value / 60) % 60 and its Seconds value % 60. */
module Timespan {
  import Wrappers
  import opened Decimal
  import opened Grid

  /** The "D2" format of a non-negative integer: its decimal numeral, padded on the left with
      zeros to at least two digits. */
  function D2(n: nat): (s: string)
    ensures AllDigits(s) && 2 <= |s|
    ensures n < 100 ==> |s| == 2
    ensures Value(s) == n
  {
    var d := Digits(n);
    ValueOfDigits(n);
    if |d| < 2 then ZeroPadded(d); "0" + d
    else if n < 100 then DigitsBelowHundred(n); d
    else d
  }

  /** A leading zero does not change the number a string of digits denotes. */
  lemma {:induction false} ZeroPadded(t: string)
    requires AllDigits(t)
    ensures AllDigits("0" + t) && Value("0" + t) == Value(t)
    decreases |t|
  {
    var s := "0" + t;
    if t == [] {
      assert s[..|s| - 1] == [];
    } else {
      ZeroPadded(t[..|t| - 1]);
      assert s[..|s| - 1] == "0" + t[..|t| - 1];
    }
  }

  /** Convert: minutes and seconds, each in two digits, separated by a colon. Hours are dropped. */
  function Convert(value: int): (s: string)
    requires 0 <= value
    ensures |s| == 5 && s[2] == ':'
    ensures AllDigits(s[..2]) && AllDigits(s[3..])
    ensures Value(s[..2]) == (value / 60) % 60 && Value(s[3..]) == value % 60
  {
    var minutes, seconds := D2((value / 60) % 60), D2(value % 60);
    assert (minutes + ":" + seconds)[..2] == minutes;
    assert (minutes + ":" + seconds)[3..] == seconds;
    minutes + ":" + seconds
  }

  /** A whole number of hours more shows the same text. */
  lemma HoursDropped(value: nat, hours: nat)
    ensures Convert(value + 3600 * hours) == Convert(value)
  {
    var v := value + 3600 * hours;
    var m, s := value / 60, value % 60;
    DivModUnique(v, 60, m + 60 * hours, s);
    DivModUnique(m + 60 * hours, 60, m / 60 + hours, m % 60);
  }

  /** A whole number of hours shows as "00:00". */
  lemma WholeHours(hours: nat)
    ensures Convert(3600 * hours) == "00:00"
  {
    HoursDropped(0, hours);
    assert Digits(0) == "0";
  }

  /** Two counts of seconds show the same text exactly when they agree in minutes and seconds. */
  lemma ConvertInjective(a: nat, b: nat)
    requires Convert(a) == Convert(b)
    ensures (a / 60) % 60 == (b / 60) % 60 && a % 60 == b % 60
  {
  }

  datatype ConversionError = NotImplemented

  /** ConvertBack: converting a text back to seconds is not supported and always fails. */
  function ConvertBack(text: string): (r: Wrappers.Result<int, ConversionError>)
    ensures r.Failure?
  {
    Wrappers.Failure(NotImplemented)
  }
}
