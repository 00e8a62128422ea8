/** Call durations as the table and the notes dialog show them: a number of
    seconds split into minutes and seconds and rendered as
    "<minutes> minute(s) <seconds> second(s)". */
module Duration {
  import opened Common
  import opened Text

  datatype MinSec = MinSec(minutes: nat, seconds: nat)

  /** `toMinutesSeconds`: negative inputs count as zero. */
  function ToMinutesSeconds(totalSeconds: int): (r: MinSec)
    ensures r.minutes * 60 + r.seconds == if totalSeconds < 0 then 0 else totalSeconds
    ensures r.seconds < 60
  {
    var s := if totalSeconds < 0 then 0 else totalSeconds;
    MinSec(s / 60, s % 60)
  }

  /** The unit word, singular only for exactly one. */
  function Unit(n: nat, singular: string): (w: string)
    ensures n == 1 ==> w == singular
    ensures n != 1 ==> w == singular + "s"
  {
    if n == 1 then singular else singular + "s"
  }

  /** `formatMinutesSeconds`. */
  function FormatMinutesSeconds(totalSeconds: int): string {
    var ms := ToMinutesSeconds(totalSeconds);
    NatToString(ms.minutes) + " " + Unit(ms.minutes, "minute") + " " +
    NatToString(ms.seconds) + " " + Unit(ms.seconds, "second")
  }

  /** Position of the first space, or -1. */
  function IndexOfSpace(s: string): (i: int)
    ensures -1 <= i < |s|
    ensures i == -1 <==> ' ' !in s
    ensures 0 <= i ==> s[i] == ' ' && ' ' !in s[..i]
    decreases |s|
  {
    if s == [] then -1
    else if s[0] == ' ' then 0
    else
      var k := IndexOfSpace(s[1..]);
      assert s == [s[0]] + s[1..];
      if k == -1 then -1
      else
        assert s[..k + 1] == [s[0]] + s[1..][..k];
        k + 1
  }

  /** The words of `s`, split at single spaces. */
  function Words(s: string): seq<string>
    decreases |s|
  {
    var i := IndexOfSpace(s);
    if i < 0 then [s] else [s[..i]] + Words(s[i + 1..])
  }

  lemma WordsCons(a: string, rest: string, s: string)
    requires ' ' !in a && s == a + " " + rest
    ensures Words(s) == [a] + Words(rest)
  {
    assert s[..|a|] == a;
    assert s[|a|] == ' ';
    assert s[|a| + 1..] == rest;
  }

  predicate AllDigits(s: string) {
    forall i :: 0 <= i < |s| ==> IsDigit(s[i])
  }

  /** Reads a rendered duration back: the inverse of FormatMinutesSeconds on
      what it produces. */
  function ParseMinutesSeconds(s: string): Option<nat> {
    var w := Words(s);
    if |w| == 4 && w[0] != [] && AllDigits(w[0]) && w[2] != [] && AllDigits(w[2]) then
      var m := ParseNat(w[0]);
      var sec := ParseNat(w[2]);
      if w[1] == Unit(m, "minute") && w[3] == Unit(sec, "second") && sec < 60
      then Some(m * 60 + sec)
      else None
    else None
  }

  lemma DigitsHaveNoSpace(s: string)
    requires AllDigits(s)
    ensures ' ' !in s
  {
  }

  lemma OneWord(d: string)
    requires ' ' !in d
    ensures Words(d) == [d]
  {
  }

  lemma JoinRight(a: string, b: string, c: string, d: string)
    ensures a + " " + b + " " + c + " " + d == a + " " + (b + " " + (c + " " + d))
  {
  }

  lemma ThreeWords(b: string, c: string, d: string, bcd: string)
    requires ' ' !in b && ' ' !in c && ' ' !in d && bcd == b + " " + (c + " " + d)
    ensures Words(bcd) == [b, c, d]
  {
    var cd := c + " " + d;
    OneWord(d);
    WordsCons(c, d, cd);
    WordsCons(b, cd, bcd);
  }

  lemma FourWords(a: string, b: string, c: string, d: string)
    requires ' ' !in a && ' ' !in b && ' ' !in c && ' ' !in d
    ensures Words(a + " " + b + " " + c + " " + d) == [a, b, c, d]
  {
    var bcd := b + " " + (c + " " + d);
    var s := a + " " + bcd;
    JoinRight(a, b, c, d);
    ThreeWords(b, c, d, bcd);
    WordsCons(a, bcd, s);
  }

  lemma UnitHasNoSpace(n: nat, singular: string)
    requires ' ' !in singular
    ensures ' ' !in Unit(n, singular)
  {
  }

  /** Four words in the rendered shape read back as the duration they
      carry. */
  lemma ParseRendered(s: string, m: nat, sec: nat)
    requires sec < 60
    requires Words(s) == [NatToString(m), Unit(m, "minute"), NatToString(sec), Unit(sec, "second")]
    ensures ParseMinutesSeconds(s) == Some(m * 60 + sec)
  {
    ParseNatToString(m);
    ParseNatToString(sec);
  }

  /** The rendered text is four words: count, unit, count, unit. */
  lemma FormatWords(totalSeconds: int)
    ensures var ms := ToMinutesSeconds(totalSeconds);
            Words(FormatMinutesSeconds(totalSeconds)) ==
            [NatToString(ms.minutes), Unit(ms.minutes, "minute"), NatToString(ms.seconds), Unit(ms.seconds, "second")]
  {
    var ms := ToMinutesSeconds(totalSeconds);
    var a, b := NatToString(ms.minutes), Unit(ms.minutes, "minute");
    var c, d := NatToString(ms.seconds), Unit(ms.seconds, "second");
    DigitsHaveNoSpace(a);
    DigitsHaveNoSpace(c);
    UnitHasNoSpace(ms.minutes, "minute");
    UnitHasNoSpace(ms.seconds, "second");
    FourWords(a, b, c, d);
  }

  /** The rendered text carries the clamped duration exactly, with each unit
      word in the number the count calls for. */
  lemma FormatRoundTrip(totalSeconds: int)
    ensures ParseMinutesSeconds(FormatMinutesSeconds(totalSeconds)) ==
            Some(if totalSeconds < 0 then 0 else totalSeconds)
  {
    var ms := ToMinutesSeconds(totalSeconds);
    FormatWords(totalSeconds);
    ParseRendered(FormatMinutesSeconds(totalSeconds), ms.minutes, ms.seconds);
  }

  /** A minute renders with a singular unit and a plural zero. */
  lemma FormatOneMinute()
    ensures FormatMinutesSeconds(60) == "1 minute 0 seconds"
  {
    assert ToMinutesSeconds(60) == MinSec(1, 0);
    assert NatToString(1) == "1";
    assert NatToString(0) == "0";
    assert Unit(1, "minute") == "minute";
    assert Unit(0, "second") == "seconds";
  }

  /** Negative durations render as zero. */
  lemma FormatNegative(totalSeconds: int)
    requires totalSeconds < 0
    ensures FormatMinutesSeconds(totalSeconds) == "0 minutes 0 seconds"
  {
    assert ToMinutesSeconds(totalSeconds) == MinSec(0, 0);
    assert NatToString(0) == "0";
    assert Unit(0, "minute") == "minutes";
    assert Unit(0, "second") == "seconds";
  }
}
