/**
 * The logger of `workSpace/log.py`: a level filter and a one-line template.
 * Printing is left out; `Log` returns the line it would print, or `None`.
 */
module Log {
  import opened Wrappers
  import Decimal
  import Rtc

  const TRACE := 0
  const DEBUG := 1
  const INFO := 2
  const WARN := 3
  const ERROR := 4

  /** `LOG_LEVEL_TABLE`, with `USER-<n>` for a level outside it. */
  function LevelName(level: int): string {
    if level == TRACE then "trace"
    else if level == DEBUG then "debug"
    else if level == INFO then "info"
    else if level == WARN then "warn"
    else if level == ERROR then "error"
    else "USER-" + Decimal.OfInt(level)
  }

  /**
   * `exception_info(e)`: nothing when no exception is given, otherwise the
   * exception's `repr` (passed in as text) after ` exception=`.
   */
  function ExceptionInfo(e: Option<string>): (s: string)
    ensures e.None? <==> s == ""
    ensures e.Some? ==> s == " exception=" + e.value
  {
    match e
    case None => ""
    case Some(r) => " exception=" + r
  }

  /** A `Log` object: its tag and its threshold level (both fixed at construction). */
  datatype Logger = Logger(tag: string, level: int) {

    /**
     * `Log.log`: `None` below the threshold, otherwise the line
     * `==[<time>-<level>][<tag>]:<msg> <exception info>`, where the time is the
     * RTC's current time as text.
     */
    function Log(rtc: Rtc.RtcHelper, lvl: int, msg: string, e: Option<string>): (line: Option<string>)
      reads rtc
      ensures line.None? <==> lvl < level
      ensures line.Some? ==>
                line.value == "==[" + rtc.CurrentTimeAsString() + "-" + LevelName(lvl) + "][" + tag + "]:"
                              + msg + " " + ExceptionInfo(e)
    {
      if lvl < level then None
      else Some("==[" + rtc.CurrentTimeAsString() + "-" + LevelName(lvl) + "][" + tag + "]:" + msg + " " + ExceptionInfo(e))
    }

    function Trace(rtc: Rtc.RtcHelper, msg: string, e: Option<string>): Option<string>
      reads rtc
    {
      Log(rtc, TRACE, msg, e)
    }

    function Debug(rtc: Rtc.RtcHelper, msg: string, e: Option<string>): Option<string>
      reads rtc
    {
      Log(rtc, DEBUG, msg, e)
    }

    function Info(rtc: Rtc.RtcHelper, msg: string, e: Option<string>): Option<string>
      reads rtc
    {
      Log(rtc, INFO, msg, e)
    }

    function Warn(rtc: Rtc.RtcHelper, msg: string, e: Option<string>): Option<string>
      reads rtc
    {
      Log(rtc, WARN, msg, e)
    }

    function Error(rtc: Rtc.RtcHelper, msg: string, e: Option<string>): Option<string>
      reads rtc
    {
      Log(rtc, ERROR, msg, e)
    }
  }

  /** `Log(tag='Default', level=DEBUG)`. */
  function NewLogger(tag: string := "Default", level: int := DEBUG): (l: Logger)
    ensures l.tag == tag && l.level == level
  {
    Logger(tag, level)
  }

  /** With the default threshold, `trace` prints nothing and every other standard level prints. */
  lemma DefaultLevelSuppressesOnlyTrace(tag: string, rtc: Rtc.RtcHelper, lvl: int, msg: string, e: Option<string>)
    requires TRACE <= lvl <= ERROR
    ensures NewLogger(tag).Log(rtc, lvl, msg, e).None? <==> lvl == TRACE
  {
  }

  /** Distinct levels get distinct names, so the level field of a line identifies the level. */
  lemma LevelNameInjective(a: int, b: int)
    requires LevelName(a) == LevelName(b)
    ensures a == b
  {
    if !(TRACE <= a <= ERROR) && !(TRACE <= b <= ERROR) {
      var sa, sb := Decimal.OfInt(a), Decimal.OfInt(b);
      assert "USER-" + sa == "USER-" + sb;
      assert sa == ("USER-" + sa)[5..];
      OfIntInjective(a, b);
    }
  }

  lemma OfNatInjective(m: nat, n: nat)
    requires Decimal.OfNat(m) == Decimal.OfNat(n)
    ensures m == n
  {
    Decimal.ValueOfNat(m);
    Decimal.ValueOfNat(n);
  }

  lemma OfIntInjective(a: int, b: int)
    requires Decimal.OfInt(a) == Decimal.OfInt(b)
    ensures a == b
  {
    if a < 0 && b < 0 {
      assert Decimal.OfNat(-a) == Decimal.OfInt(a)[1..];
      assert Decimal.OfNat(-b) == Decimal.OfInt(b)[1..];
      OfNatInjective(-a, -b);
    } else if a >= 0 && b >= 0 {
      OfNatInjective(a, b);
    } else {
      assert false;
    }
  }
}
