/**
 * How the stopwatch turns an elapsed time into display text. Times are whole
 * milliseconds; the source's `divmod(t, 60)` followed by `divmod(seconds, 1)`
 * and `int(fraction * 1000)` becomes a split of the millisecond count.
 */
module TimeFormat {
  import opened Decimal

  datatype Option<T> = None | Some(value: T)

  const MillisPerSecond: nat := 1000
  const SecondsPerMinute: nat := 60
  const MillisPerMinute: nat := SecondsPerMinute * MillisPerSecond

  /** An elapsed time as whole minutes, whole seconds and milliseconds. */
  datatype Parts = Parts(minutes: int, seconds: nat, millis: nat)

  /** The "hours" and "minutes" of the 12-hour display: a wrap of the minute count by 12. */
  datatype Wrapped = Wrapped(hours: int, minutes: nat)

  /** `divmod(total, 60)` and then `divmod(seconds, 1)`, on milliseconds. */
  function Decompose(total: int): (p: Parts)
    ensures p.minutes * MillisPerMinute + p.seconds * MillisPerSecond + p.millis == total
    ensures p.seconds < SecondsPerMinute && p.millis < MillisPerSecond
    ensures p.minutes >= 0 <==> total >= 0
  {
    var minutes, rest := total / MillisPerMinute, total % MillisPerMinute;
    Parts(minutes, rest / MillisPerSecond, rest % MillisPerSecond)
  }

  /** The bounds of Decompose pin its result down: nothing else satisfies them. */
  lemma DecomposeUnique(total: int, p: Parts)
    requires p.minutes * MillisPerMinute + p.seconds * MillisPerSecond + p.millis == total
    requires p.seconds < SecondsPerMinute && p.millis < MillisPerSecond
    ensures p == Decompose(total)
  {
  }

  /** `divmod(minutes, 12)` as the 12-hour branch does it. */
  function Wrap12(minutes: int): (w: Wrapped)
    ensures w.hours * 12 + w.minutes == minutes && w.minutes < 12
    ensures w.hours >= 0 <==> minutes >= 0
  {
    Wrapped(minutes / 12, minutes % 12)
  }

  lemma Wrap12Unique(minutes: int, w: Wrapped)
    requires w.hours * 12 + w.minutes == minutes && w.minutes < 12
    ensures w == Wrap12(minutes)
  {
  }

  /** `SS:mmm`, the tail both displays share. */
  function RenderTail(p: Parts): string {
    FormatInt(p.seconds, 2) + ":" + FormatInt(p.millis, 3)
  }

  function Render24(p: Parts): string {
    FormatInt(p.minutes, 2) + ":" + RenderTail(p)
  }

  function Render12(w: Wrapped, p: Parts): string {
    FormatInt(w.hours, 2) + ":" + FormatInt(w.minutes, 2) + ":" + RenderTail(p)
  }

  /** `MM:SS:mmm`, the 24-hour display and the text of every lap. */
  function Format24(total: int): (s: string)
    ensures |s| >= 9
    ensures Parse24(s) == Some(total)
  {
    var p := Decompose(total);
    Render24RoundTrip(p);
    Render24(p)
  }

  /** `HH:MM:SS:mmm`, the other display, whose hours are the minute count wrapped by 12. */
  function Format12(total: int): (s: string)
    ensures |s| >= 12
    ensures Parse12(s) == Some(total)
  {
    var p := Decompose(total);
    var w := Wrap12(p.minutes);
    Render12RoundTrip(w, p);
    Render12(w, p)
  }

  /** The text the display shows for total in the chosen mode. */
  function Display(total: int, format24: bool): (s: string)
    ensures format24 ==> Parse24(s) == Some(total)
    ensures !format24 ==> Parse12(s) == Some(total)
  {
    if format24 then Format24(total) else Format12(total)
  }

  /** Reads an `SS:mmm` text back into milliseconds. */
  function ParseTail(s: string): Option<nat> {
    if |s| != 6 || s[2] != ':' || !AllDigits(s[..2]) || !AllDigits(s[3..]) then None
    else Some(ParseNat(s[..2]) * MillisPerSecond + ParseNat(s[3..]))
  }

  /** Reads an `MM:SS:mmm` text back into milliseconds. */
  function Parse24(s: string): Option<int> {
    var n := |s|;
    if n < 7 || s[n - 7] != ':' || !IsNumeral(s[..n - 7]) then None
    else
      match ParseTail(s[n - 6..])
      case None => None
      case Some(rest) => Some(ParseInt(s[..n - 7]) * MillisPerMinute + rest)
  }

  /** Reads an `MM:SS:mmm` text whose minutes are exactly two digits. */
  function ParseMinuteTail(s: string): Option<nat> {
    if |s| != 9 || s[2] != ':' || !AllDigits(s[..2]) then None
    else
      match ParseTail(s[3..])
      case None => None
      case Some(rest) => Some(ParseNat(s[..2]) * MillisPerMinute + rest)
  }

  /** Reads an `HH:MM:SS:mmm` text back into milliseconds, undoing the wrap by 12. */
  function Parse12(s: string): Option<int> {
    var n := |s|;
    if n < 10 || s[n - 10] != ':' || !IsNumeral(s[..n - 10]) then None
    else
      match ParseMinuteTail(s[n - 9..])
      case None => None
      case Some(rest) => Some(ParseInt(s[..n - 10]) * 12 * MillisPerMinute + rest)
  }

  /** Seconds and milliseconds always take exactly two and three characters. */
  lemma TailWidths(p: Parts)
    requires p.seconds < SecondsPerMinute && p.millis < MillisPerSecond
    ensures |FormatInt(p.seconds, 2)| == 2 && |FormatInt(p.millis, 3)| == 3
    ensures |RenderTail(p)| == 6
  {
    FormatIntWidth(p.seconds, 2);
    FormatIntWidth(p.millis, 3);
  }

  /** The `SS:mmm` part shared by both displays reads back as seconds and milliseconds. */
  lemma TailRoundTrip(p: Parts)
    requires p.seconds < SecondsPerMinute && p.millis < MillisPerSecond
    ensures ParseTail(RenderTail(p)) == Some(p.seconds * MillisPerSecond + p.millis)
  {
    var b, c := FormatInt(p.seconds, 2), FormatInt(p.millis, 3);
    TailWidths(p);
    var t := b + ":" + c;
    assert t[..2] == b && t[3..] == c;
    FormatIntRoundTrip(p.seconds, 2);
    FormatIntRoundTrip(p.millis, 3);
  }

  lemma Parse24Split(a: string, tail: string)
    requires IsNumeral(a) && |tail| == 6 && ParseTail(tail).Some?
    ensures Parse24(a + ":" + tail) == Some(ParseInt(a) * MillisPerMinute + ParseTail(tail).value)
  {
    var s := a + ":" + tail;
    assert s[..|s| - 7] == a && s[|s| - 6..] == tail;
  }

  lemma MinuteTailSplit(m: string, tail: string)
    requires |m| == 2 && AllDigits(m) && |tail| == 6 && ParseTail(tail).Some?
    ensures ParseMinuteTail(m + ":" + tail) == Some(ParseNat(m) * MillisPerMinute + ParseTail(tail).value)
  {
    var s := m + ":" + tail;
    assert s[..2] == m && s[3..] == tail;
  }

  lemma Parse12Split(h: string, rest: string)
    requires IsNumeral(h) && |rest| == 9 && ParseMinuteTail(rest).Some?
    ensures Parse12(h + ":" + rest) == Some(ParseInt(h) * 12 * MillisPerMinute + ParseMinuteTail(rest).value)
  {
    var s := h + ":" + rest;
    assert s[..|s| - 10] == h && s[|s| - 9..] == rest;
  }

  /** A rendered `MM:SS:mmm` reads back as the time its parts add up to. */
  lemma Render24RoundTrip(p: Parts)
    requires p.seconds < SecondsPerMinute && p.millis < MillisPerSecond
    ensures Parse24(Render24(p)) == Some(p.minutes * MillisPerMinute + p.seconds * MillisPerSecond + p.millis)
  {
    TailWidths(p);
    TailRoundTrip(p);
    FormatIntRoundTrip(p.minutes, 2);
    Parse24Split(FormatInt(p.minutes, 2), RenderTail(p));
  }

  /** Parse12 on a text built from an hour numeral, two minute digits and an `SS:mmm` tail. */
  lemma Parse12Value(h: string, m: string, tail: string, hours: int, minutes: nat, secs: nat)
    requires IsNumeral(h) && ParseInt(h) == hours
    requires |m| == 2 && AllDigits(m) && ParseNat(m) == minutes
    requires |tail| == 6 && ParseTail(tail) == Some(secs)
    ensures Parse12(h + ":" + m + ":" + tail) == Some((hours * 12 + minutes) * MillisPerMinute + secs)
  {
    MinuteTailSplit(m, tail);
    Parse12Split(h, m + ":" + tail);
    assert h + ":" + m + ":" + tail == h + ":" + (m + ":" + tail);
    ScaleWrapped(hours, minutes, secs);
  }

  /** A rendered `HH:MM:SS:mmm` reads back as the time its parts add up to. */
  lemma Render12RoundTrip(w: Wrapped, p: Parts)
    requires w.minutes < 12 && p.seconds < SecondsPerMinute && p.millis < MillisPerSecond
    ensures Parse12(Render12(w, p))
            == Some((w.hours * 12 + w.minutes) * MillisPerMinute + p.seconds * MillisPerSecond + p.millis)
  {
    var h, m, tail := FormatInt(w.hours, 2), FormatInt(w.minutes, 2), RenderTail(p);
    var secs := p.seconds * MillisPerSecond + p.millis;
    assert |tail| == 6 && ParseTail(tail) == Some(secs) by {
      TailWidths(p);
      TailRoundTrip(p);
    }
    assert |m| == 2 && AllDigits(m) && ParseNat(m) == w.minutes by {
      FormatIntWidth(w.minutes, 2);
      FormatIntRoundTrip(w.minutes, 2);
    }
    assert IsNumeral(h) && ParseInt(h) == w.hours by {
      FormatIntRoundTrip(w.hours, 2);
    }
    Parse12Value(h, m, tail, w.hours, w.minutes, secs);
    assert Render12(w, p) == h + ":" + m + ":" + tail;
  }

  lemma ScaleWrapped(hours: int, minutes: int, rest: int)
    ensures hours * 12 * MillisPerMinute + (minutes * MillisPerMinute + rest)
            == (hours * 12 + minutes) * MillisPerMinute + rest
  {
  }

  /** The 24-hour text of any elapsed time, negative ones included, reads back as that time. */
  lemma Format24RoundTrip(total: int)
    ensures Parse24(Format24(total)) == Some(total)
  {
    Render24RoundTrip(Decompose(total));
  }

  /** The 12-hour text of any elapsed time reads back as that time. */
  lemma Format12RoundTrip(total: int)
    ensures Parse12(Format12(total)) == Some(total)
  {
    var p := Decompose(total);
    var w := Wrap12(p.minutes);
    Render12RoundTrip(w, p);
  }

  /** Distinct elapsed times never show the same 24-hour text. */
  lemma Format24Injective(a: int, b: int)
    requires Format24(a) == Format24(b)
    ensures a == b
  {
    Format24RoundTrip(a);
    Format24RoundTrip(b);
  }

  lemma Format12Injective(a: int, b: int)
    requires Format12(a) == Format12(b)
    ensures a == b
  {
    Format12RoundTrip(a);
    Format12RoundTrip(b);
  }

  lemma Render24Width(p: Parts)
    requires 0 <= p.minutes < 100 && p.seconds < SecondsPerMinute && p.millis < MillisPerSecond
    ensures |Render24(p)| == 9 && Render24(p)[2] == ':' && Render24(p)[5] == ':'
  {
    TailWidths(p);
    FormatIntWidth(p.minutes, 2);
  }

  lemma Render12Width(w: Wrapped, p: Parts)
    requires 0 <= w.hours < 100 && w.minutes < 12
    requires p.seconds < SecondsPerMinute && p.millis < MillisPerSecond
    ensures |Render12(w, p)| == 12
    ensures Render12(w, p)[2] == ':' && Render12(w, p)[5] == ':' && Render12(w, p)[8] == ':'
  {
    TailWidths(p);
    FormatIntWidth(w.minutes, 2);
    FormatIntWidth(w.hours, 2);
  }

  /** From 0 up to 100 minutes every field of the 24-hour text is zero-padded to its full width. */
  lemma Format24Width(total: int)
    requires 0 <= total < 100 * MillisPerMinute
    ensures |Format24(total)| == 9
    ensures Format24(total)[2] == ':' && Format24(total)[5] == ':'
  {
    var p := Decompose(total);
    Render24Width(p);
    assert Format24(total) == Render24(p);
  }

  /** From 0 up to 1200 minutes every field of the 12-hour text is zero-padded to its full width. */
  lemma Format12Width(total: int)
    requires 0 <= total < 1200 * MillisPerMinute
    ensures |Format12(total)| == 12
    ensures Format12(total)[2] == ':' && Format12(total)[5] == ':' && Format12(total)[8] == ':'
  {
    var p := Decompose(total);
    var w := Wrap12(p.minutes);
    Render12Width(w, p);
    assert Format12(total) == Render12(w, p);
  }

  lemma Render24Example125500()
    ensures Render24(Parts(2, 5, 500)) == "02:05:500"
  {
    assert FormatInt(2, 2) == "02" && FormatInt(5, 2) == "05";
    assert Digits(500) == Digits(50) + ['0'];
    assert FormatInt(500, 3) == "500";
  }

  lemma Render24ExampleZero()
    ensures Render24(Parts(0, 0, 0)) == "00:00:000"
  {
    assert FormatInt(0, 2) == "00" && FormatInt(0, 3) == "000";
  }

  lemma Render24Example1234()
    ensures Render24(Parts(0, 1, 234)) == "00:01:234"
  {
    assert FormatInt(0, 2) == "00" && FormatInt(1, 2) == "01";
    assert Digits(234) == Digits(23) + ['4'];
    assert FormatInt(234, 3) == "234";
  }

  lemma FormatMinusOne()
    ensures FormatInt(-1, 2) == "-1"
  {
  }

  lemma Format59()
    ensures FormatInt(59, 2) == "59"
  {
    assert Digits(59) == Digits(5) + ['9'];
  }

  lemma Format500()
    ensures FormatInt(500, 3) == "500"
  {
    assert Digits(500) == Digits(50) + ['0'];
  }

  lemma Render24ExampleNegative()
    ensures Render24(Parts(-1, 59, 500)) == "-1:59:500"
  {
    FormatMinusOne();
    Format59();
    Format500();
  }

  /** Two minutes five and a half seconds; and zero. */
  lemma Format24Examples()
    ensures Format24(125500) == "02:05:500"
    ensures Format24(0) == "00:00:000"
  {
    assert Decompose(125500) == Parts(2, 5, 500);
    assert Decompose(0) == Parts(0, 0, 0);
    Render24Example125500();
    Render24ExampleZero();
  }

  /** 1.234 s shows `00:01:234`. */
  lemma Format24OfLap()
    ensures Format24(1234) == "00:01:234"
  {
    assert Decompose(1234) == Parts(0, 1, 234);
    Render24Example1234();
  }

  lemma Render12Example()
    ensures Render12(Wrapped(1, 1), Parts(13, 5, 0)) == "01:01:05:000"
  {
    assert FormatInt(1, 2) == "01" && FormatInt(5, 2) == "05" && FormatInt(0, 3) == "000";
  }

  /** Thirteen minutes five seconds show one "hour" and one minute in the 12-hour mode. */
  lemma Format12Example()
    ensures Format12(785000) == "01:01:05:000"
  {
    assert Decompose(785000) == Parts(13, 5, 0);
    assert Wrap12(13) == Wrapped(1, 1);
    Render12Example();
  }

  /** Half a second before zero (a wall clock that went back) shows minute -1. */
  lemma NegativeExample()
    ensures Format24(-500) == "-1:59:500"
  {
    assert Decompose(-500) == Parts(-1, 59, 500);
    Render24ExampleNegative();
  }
}
