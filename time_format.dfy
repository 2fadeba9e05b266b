/** `formatTime` of src/screens/PlayerScreen.tsx: milliseconds rendered as
    `m:ss`, and the reading of such a label back into minutes and seconds. */
module TimeFormat {
  import opened Wrappers

  predicate IsDigit(c: char) {
    '0' <= c <= '9'
  }

  predicate AllDigits(s: string) {
    forall i :: 0 <= i < |s| ==> IsDigit(s[i])
  }

  function DigitChar(d: nat): (c: char)
    requires d < 10
    ensures IsDigit(c)
  {
    ('0' as int + d) as char
  }

  function DigitValue(c: char): (d: nat)
    requires IsDigit(c)
    ensures d < 10
    ensures DigitChar(d) == c
  {
    c as int - '0' as int
  }

  /** Decimal rendering of a natural number, as a template literal prints it. */
  function NatToString(n: nat): (s: string)
    ensures |s| >= 1 && AllDigits(s)
    ensures s[0] == '0' <==> n == 0
    ensures n < 10 <==> |s| == 1
    ensures 10 <= n < 100 ==> |s| == 2
    decreases n
  {
    if n < 10 then [DigitChar(n)] else NatToString(n / 10) + [DigitChar(n % 10)]
  }

  /** The number a string of decimal digits denotes. */
  function ParseNat(s: string): nat
    requires AllDigits(s)
    decreases |s|
  {
    if s == [] then 0 else 10 * ParseNat(s[..|s| - 1]) + DigitValue(s[|s| - 1])
  }

  lemma {:induction false} ParseNatToString(n: nat)
    ensures ParseNat(NatToString(n)) == n
    decreases n
  {
    var s := NatToString(n);
    if n < 10 {
      assert s[..0] == [];
    } else {
      var prefix := NatToString(n / 10);
      assert s[..|s| - 1] == prefix;
      ParseNatToString(n / 10);
    }
  }

  /** `${seconds < 10 ? '0' : ''}${seconds}`: the seconds field, padded to two digits. */
  function PadSeconds(seconds: nat): (s: string)
    requires seconds < 60
    ensures |s| == 2 && AllDigits(s)
  {
    (if seconds < 10 then "0" else "") + NatToString(seconds)
  }

  lemma ParsePadSeconds(seconds: nat)
    requires seconds < 60
    ensures ParseNat(PadSeconds(seconds)) == seconds
  {
    var s := PadSeconds(seconds);
    ParseNatToString(seconds);
    if seconds < 10 {
      assert s[..1] == "0";
      assert s[..1][..0] == [];
    }
  }

  /** `formatTime(millis)`: whole minutes, a colon, then the seconds within the
      minute on exactly two digits.  Minutes are not wrapped into hours. */
  function FormatTime(millis: nat): (s: string)
    ensures |s| >= 4 && s[|s| - 3] == ':'
    ensures AllDigits(s[..|s| - 3]) && AllDigits(s[|s| - 2..])
  {
    var totalSeconds := millis / 1000;
    var minutes := totalSeconds / 60;
    var seconds := totalSeconds % 60;
    NatToString(minutes) + ":" + PadSeconds(seconds)
  }

  /** Reads an `m:ss` label back into (minutes, seconds); None for anything else. */
  function ParseTime(s: string): Option<(nat, nat)> {
    if |s| >= 4 && s[|s| - 3] == ':' && AllDigits(s[..|s| - 3]) && AllDigits(s[|s| - 2..])
    then Some((ParseNat(s[..|s| - 3]), ParseNat(s[|s| - 2..])))
    else None
  }

  /** The label shows `millis div 60000` minutes and `(millis div 1000) mod 60`
      seconds, and nothing else: formatting is undone by parsing. */
  lemma FormatTimeRoundTrip(millis: nat)
    ensures ParseTime(FormatTime(millis)) == Some((millis / 60000, (millis / 1000) % 60))
    ensures (millis / 1000) % 60 < 60
  {
    var minutes := millis / 1000 / 60;
    var seconds := millis / 1000 % 60;
    var m := NatToString(minutes);
    var p := PadSeconds(seconds);
    var s := FormatTime(millis);
    assert s == m + ":" + p;
    assert s[..|s| - 3] == m;
    assert s[|s| - 2..] == p;
    ParseNatToString(minutes);
    ParsePadSeconds(seconds);
    assert minutes == millis / 60000;
  }

  /** Two times get the same label exactly when they agree on whole minutes and
      on the seconds within the minute. */
  lemma FormatTimeSameLabel(a: nat, b: nat)
    ensures FormatTime(a) == FormatTime(b)
        <==> (a / 60000 == b / 60000 && (a / 1000) % 60 == (b / 1000) % 60)
  {
    FormatTimeRoundTrip(a);
    FormatTimeRoundTrip(b);
    if a / 60000 == b / 60000 && (a / 1000) % 60 == (b / 1000) % 60 {
      assert a / 1000 / 60 == a / 60000;
      assert b / 1000 / 60 == b / 60000;
    }
  }

  lemma FormatTimeZero()
    ensures FormatTime(0) == "0:00"
  {
  }
}
