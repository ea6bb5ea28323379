/** `formatTime` of the player: a number of seconds as `m:ss`. */
module TimeFormat {
  import opened Wrappers
  import opened Text

  /** JavaScript's `a % d`: the remainder takes the sign of `a` (Dafny's `%` never is
      negative). */
  function JsRem(a: int, d: nat): (r: int)
    requires d > 0
    ensures a >= 0 ==> r == a % d
    ensures a < 0 ==> -(d as int) < r <= 0
  {
    if a >= 0 then a % d else -((-a) % d)
  }

  /** `formatTime(seconds)` for a whole number of seconds: `0:00` for zero (a falsy
      number), otherwise the minutes `Math.floor(seconds / 60)`, a colon, and the seconds
      `seconds % 60` padded with zeros to two characters. For a positive divisor Dafny's
      `/` rounds down, as `Math.floor` does. */
  function FormatTime(seconds: int): string
  {
    if seconds == 0 then "0:00"
    else IntToString(seconds / 60) + ":" + PadStart(IntToString(JsRem(seconds, 60)), 2, '0')
  }

  /** Reads `m:ss` back: decimal minutes, a colon, and exactly two digits below 60. */
  function ParseTime(s: string): Option<nat> {
    var m := BeforeFirst(s, ':');
    if |m| == |s| || m == "" || !AllDigits(m) then None
    else
      var ss := s[|m| + 1..];
      if |ss| != 2 || !AllDigits(ss) || DigitsValue(ss) >= 60 then None
      else Some(DigitsValue(m) * 60 + DigitsValue(ss))
  }

  /** The text before a colon that follows a digit string is that digit string. */
  lemma {:induction false} BeforeColon(a: string, b: string)
    requires AllDigits(a)
    ensures BeforeFirst(a + ":" + b, ':') == a
  {
    if a != [] {
      assert (a + ":" + b)[1..] == a[1..] + ":" + b;
      BeforeColon(a[1..], b);
    } else {
      assert a + ":" + b == [':'] + b;
    }
  }

  /** Two digits with a leading zero read as the second one. */
  lemma {:induction false} LeadingZero(d: char)
    requires IsDigit(d)
    ensures DigitsValue(['0', d]) == d as int - '0' as int
  {
    assert ['0', d][..1] == ['0'];
    assert ['0'][..0] == [];
  }

  /** For a duration, the minutes, a colon and the two-digit seconds. */
  lemma {:induction false} FormatDuration(seconds: nat)
    ensures FormatTime(seconds) == NatToString(seconds / 60) + ":" + PadStart(NatToString(seconds % 60), 2, '0')
  {
    if seconds == 0 {
      assert NatToString(0) == "0";
      assert PadStart("0", 2, '0') == "00";
    }
  }

  lemma {:induction false} FormatTimeExamples()
    ensures FormatTime(0) == "0:00"
    ensures FormatTime(65) == "1:05"
    ensures FormatTime(600) == "10:00"
  {
    FormatDuration(65);
    FormatDuration(600);
    assert NatToString(1) == "1" && NatToString(5) == "5" && NatToString(0) == "0";
    assert NatToString(10) == "10";
    assert PadStart("5", 2, '0') == "05";
    assert PadStart("0", 2, '0') == "00";
  }

  /** The seconds field: two digits that read back as the seconds. */
  lemma {:induction false} SecondsField(sec: nat)
    requires sec < 60
    ensures var ss := PadStart(NatToString(sec), 2, '0');
            |ss| == 2 && AllDigits(ss) && DigitsValue(ss) == sec
  {
    var d := NatToString(sec);
    NatToStringRoundTrip(sec);
    if sec < 10 {
      assert PadStart(d, 2, '0') == PadStart(['0'] + d, 2, '0') == ['0', d[0]];
      LeadingZero(d[0]);
      assert d[..0] == [];
    } else {
      assert NatToString(sec / 10) == [DigitChar(sec / 10)];
    }
  }

  /** Formatting a duration and reading it back gives the duration. */
  lemma {:induction false} FormatTimeRoundTrip(seconds: nat)
    ensures ParseTime(FormatTime(seconds)) == Some(seconds)
  {
    var m, sec := seconds / 60, seconds % 60;
    var ms, ss := NatToString(m), PadStart(NatToString(sec), 2, '0');
    var r := ms + ":" + ss;
    FormatDuration(seconds);
    BeforeColon(ms, ss);
    assert r[|ms| + 1..] == ss;
    NatToStringRoundTrip(m);
    SecondsField(sec);
  }
}
