/**
 * The tasks of `workSpace/bootstrap.py` and the `Entry` that wires them to
 * the two kernels: the LED display task, the sensor task, the clock task,
 * the beep sequencer, the wake-up watcher and the button handler.
 *
 * Each task's `loop` is stated twice: as a step function from the task's
 * own fields and the context to the new fields and context, about which the
 * lemmas speak, and as a method of the task's class that is proved to
 * perform that step.
 */
module Bootstrap {
  import opened Wrappers
  import opened BeeOS
  import LedDisplay
  import BoardDriver
  import Rtc
  import Decimal

  const MODE := "mode"
  const MODE_TIME := 0
  const MODE_TH := 1
  /** `len(MODE_LIST)`: the number of display modes. */
  const MODE_COUNT := 2

  /** The context keys of `LEDCTLTask`. */
  const LED_NAME := "LED_task"
  const STR_1 := "display_str_1"
  const STR_2 := "display_str_2"
  const SEG_VISIBLE := "display_seg_visible"
  const FLUSH := "display_flush"
  const COLOR_RULE := "display_color_rule"
  const FORCE_FLUSH := "display_force_flush"

  const TH_NAME := "th_task"
  /** Milliseconds between two measurements of the sensor. */
  const TH_INTERVAL := 10000

  /** The context keys of `BeepTask`. */
  const BEEP_NAME := "beep_task"
  const BEEP_SEQ := "beep_seq"
  const BEEP_FLUSH := "beep_flush"

  /** `(frequency, duration in ms)` tones: rising for a press, falling for a release. */
  const BEEP_SEQ_A: seq<(int, int)> := [(2500, 100), (2900, 100), (3000, 100)]
  const BEEP_SEQ_B: seq<(int, int)> := [(3000, 100), (2900, 100), (2500, 100)]

  /**
   * The key types the tasks agree on: numbers for the clock and the mode,
   * text (or `None`) for the two display strings, a boolean for the
   * indicator, a colour rule and a tone sequence.
   */
  predicate Typed(vars: map<string, Value>) {
    (TICKS_MS in vars ==> vars[TICKS_MS].Int?) &&
    (MODE in vars ==> vars[MODE].Int?) &&
    (STR_1 in vars ==> vars[STR_1].Str? || vars[STR_1].Nil?) &&
    (STR_2 in vars ==> vars[STR_2].Str? || vars[STR_2].Nil?) &&
    (SEG_VISIBLE in vars ==> vars[SEG_VISIBLE].Bool?) &&
    (COLOR_RULE in vars ==> vars[COLOR_RULE].Rule?) &&
    (BEEP_SEQ in vars ==> vars[BEEP_SEQ].Tones?)
  }

  /** `ctx.get_var(OSKernel.TICKS_MS, 0)`. */
  function Ticks(vars: map<string, Value>): int
    requires Typed(vars)
  {
    Lookup(vars, TICKS_MS, Int(0)).i
  }

  /** A truthy value under `k`, absent read as `False`. */
  predicate Flag(vars: map<string, Value>, k: string) {
    Truthy(Lookup(vars, k, Bool(false)))
  }

  /** `str(n)` as a context value. */
  function DecimalText(n: int): Value {
    Value.Str(Decimal.OfInt(n))
  }

  // ---------------------------------------------------------------- LEDCTLTask

  /** What `LEDCTLTask` remembers of the last values it displayed. */
  datatype LedCache = LedCache(str1: Value, str2: Value, segVisible: Value, colorRule: LedDisplay.ColorRule)

  /** The pixels and the writes of the two digit strips and of the indicator's strip. */
  datatype StripState = StripState(px1: seq<LedDisplay.Rgb>, sent1: seq<seq<LedDisplay.Rgb>>,
                                   px2: seq<LedDisplay.Rgb>, sent2: seq<seq<LedDisplay.Rgb>>,
                                   pxSeg: seq<LedDisplay.Rgb>, sentSeg: seq<seq<LedDisplay.Rgb>>)

  /** One `LEDCTLTask.loop`: the context and cache after it, and which targets it showed. */
  datatype LedTick = LedTick(vars: map<string, Value>, cache: LedCache, flushed: bool,
                             show1: bool, show2: bool, showSeg: bool)

  /**
   * `LEDCTLTask.loop` with the default rule `def`: nothing without a truthy
   * `FLUSH`; otherwise `FLUSH` is reset, the context's rule is pushed to every
   * target, and each target is shown again when its value changed or
   * `FORCE_FLUSH` is set.
   */
  function LedStep(c: LedCache, vars: map<string, Value>, def: LedDisplay.ColorRule): LedTick
    requires Typed(vars)
  {
    if !Flag(vars, FLUSH) then LedTick(vars, c, false, false, false, false)
    else
      var s1 := Lookup(vars, STR_1, Nil);
      var s2 := Lookup(vars, STR_2, Nil);
      var sv := Lookup(vars, SEG_VISIBLE, Nil);
      var rule := Lookup(vars, COLOR_RULE, Rule(def)).rule;
      var force := Flag(vars, FORCE_FLUSH);
      var show1 := s1 != c.str1 || force;
      var show2 := s2 != c.str2 || force;
      var showSeg := sv != c.segVisible || force;
      LedTick(vars[FLUSH := Bool(false)],
              LedCache(if show1 then s1 else c.str1, if show2 then s2 else c.str2,
                       if showSeg then sv else c.segVisible, rule),
              true, show1, show2, showSeg)
  }

  /**
   * Without a truthy `FLUSH` the task changes nothing. With one, `FLUSH`
   * becomes `False`, `FORCE_FLUSH` is left as it was, the cache holds the
   * context's current values, and a target is shown exactly when its value
   * differs from the cached one or `FORCE_FLUSH` is set.
   */
  lemma LedStepEffect(c: LedCache, vars: map<string, Value>, def: LedDisplay.ColorRule)
    requires Typed(vars)
    ensures var t := LedStep(c, vars, def);
      Typed(t.vars) && (t.flushed <==> Flag(vars, FLUSH)) &&
      (!t.flushed ==> t.vars == vars && t.cache == c && !t.show1 && !t.show2 && !t.showSeg) &&
      (t.flushed ==>
        t.vars == vars[FLUSH := Bool(false)] &&
        Lookup(t.vars, FORCE_FLUSH, Nil) == Lookup(vars, FORCE_FLUSH, Nil) &&
        t.cache == LedCache(Lookup(vars, STR_1, Nil), Lookup(vars, STR_2, Nil), Lookup(vars, SEG_VISIBLE, Nil),
                            Lookup(vars, COLOR_RULE, Rule(def)).rule) &&
        (t.show1 <==> Lookup(vars, STR_1, Nil) != c.str1 || Flag(vars, FORCE_FLUSH)) &&
        (t.show2 <==> Lookup(vars, STR_2, Nil) != c.str2 || Flag(vars, FORCE_FLUSH)) &&
        (t.showSeg <==> Lookup(vars, SEG_VISIBLE, Nil) != c.segVisible || Flag(vars, FORCE_FLUSH)))
  {
  }

  /**
   * Change detection: flushing again with nothing changed shows nothing,
   * unless `FORCE_FLUSH` is set, which the task never clears, so that every
   * later flush shows all three targets.
   */
  lemma LedReflush(c: LedCache, vars: map<string, Value>, def: LedDisplay.ColorRule)
    requires Typed(vars) && Flag(vars, FLUSH)
    ensures var t := LedStep(c, vars, def);
      var again := t.vars[FLUSH := Bool(true)];
      Typed(again) &&
      var t2 := LedStep(t.cache, again, def);
      t2.flushed &&
      (!Flag(vars, FORCE_FLUSH) ==> !t2.show1 && !t2.show2 && !t2.showSeg) &&
      (Flag(vars, FORCE_FLUSH) ==> t2.show1 && t2.show2 && t2.showSeg)
  {
    var t := LedStep(c, vars, def);
    var again := t.vars[FLUSH := Bool(true)];
    LedStepEffect(c, vars, def);
    assert Lookup(again, STR_1, Nil) == Lookup(vars, STR_1, Nil);
    assert Lookup(again, STR_2, Nil) == Lookup(vars, STR_2, Nil);
    assert Lookup(again, SEG_VISIBLE, Nil) == Lookup(vars, SEG_VISIBLE, Nil);
    assert Lookup(again, FORCE_FLUSH, Bool(false)) == Lookup(vars, FORCE_FLUSH, Bool(false));
    assert Flag(again, FLUSH);
  }

  // ------------------------------------------------------------ THSensorTask

  /** One `THSensorTask.loop`: the context and `last_mes` after it, and whether the sensor was read. */
  datatype THTick = THTick(vars: map<string, Value>, lastMes: int, measured: bool, r: Result<()>)

  /**
   * `THSensorTask.loop`, where `reading` is what `dht.measure()` yields:
   * the temperature and humidity, or the error it raises. In `MODE_TH`, once
   * 10 s have passed since the last measurement, `last_mes` moves to now and
   * the sensor is read; a good reading is published as the two display
   * strings, with the indicator off and a display flush requested.
   */
  function THStep(lastMes: int, vars: map<string, Value>, reading: Result<(int, int)>): THTick
    requires Typed(vars)
  {
    if Lookup(vars, MODE, Nil) != Int(MODE_TH) then THTick(vars, lastMes, false, Ok(()))
    else
      var now := Ticks(vars);
      if now - lastMes < TH_INTERVAL then THTick(vars, lastMes, false, Ok(()))
      else if reading.Err? then THTick(vars, now, true, Err(reading.reason))
      else
        var (temp, hum) := reading.value;
        THTick(vars[STR_1 := DecimalText(temp)][STR_2 := DecimalText(hum)][SEG_VISIBLE := Bool(false)][FLUSH := Bool(true)],
               now, true, Ok(()))
  }

  /**
   * The sensor is read exactly in `MODE_TH` once `now - last_mes >= 10000`;
   * then `last_mes` is now, and a good reading sets `STR_1`, `STR_2`,
   * `SEG_VISIBLE = False` and `FLUSH = True`. Otherwise the context is unchanged.
   */
  lemma THStepEffect(lastMes: int, vars: map<string, Value>, reading: Result<(int, int)>)
    requires Typed(vars)
    ensures var t := THStep(lastMes, vars, reading);
      Typed(t.vars) &&
      (t.measured <==> Lookup(vars, MODE, Nil) == Int(MODE_TH) && Ticks(vars) - lastMes >= TH_INTERVAL) &&
      (!t.measured ==> t.vars == vars && t.lastMes == lastMes && t.r == Ok(())) &&
      (t.measured ==> t.lastMes == Ticks(vars)) &&
      (t.measured && reading.Err? ==> t.vars == vars && t.r.Err?) &&
      (t.measured && reading.Ok? ==>
        t.r == Ok(()) &&
        t.vars[STR_1] == DecimalText(reading.value.0) && t.vars[STR_2] == DecimalText(reading.value.1) &&
        t.vars[SEG_VISIBLE] == Bool(false) && t.vars[FLUSH] == Bool(true))
  {
  }

  /**
   * Two measurements are at least 10 s apart: after a tick that read the
   * sensor, a tick less than 10 s later does not.
   */
  lemma THSpacing(lastMes: int, vars: map<string, Value>, reading: Result<(int, int)>,
                  vars2: map<string, Value>, reading2: Result<(int, int)>)
    requires Typed(vars) && Typed(vars2)
    requires THStep(lastMes, vars, reading).measured
    requires Ticks(vars2) < Ticks(vars) + TH_INTERVAL
    ensures !THStep(THStep(lastMes, vars, reading).lastMes, vars2, reading2).measured
  {
    THStepEffect(lastMes, vars, reading);
  }

  // ---------------------------------------------------------------- TimeTask

  /**
   * `TimeTask.loop` on the clock reading `t`: in `MODE_TIME` the minute and
   * the hour become the two display strings, a flush is requested and the
   * indicator is negated.
   */
  function TimeStep(vars: map<string, Value>, t: Rtc.Time6): (r: map<string, Value>)
    requires Typed(vars)
    ensures Typed(r)
  {
    if Lookup(vars, MODE, Nil) != Int(MODE_TIME) then vars
    else
      var vars1 := vars[STR_1 := DecimalText(t.minute)][STR_2 := DecimalText(t.hour)][FLUSH := Bool(true)];
      var sv := Lookup(vars1, SEG_VISIBLE, Bool(false));
      vars1[SEG_VISIBLE := Bool(!Truthy(sv))]
  }

  /**
   * In `MODE_TIME` the two display strings are the decimal text of the
   * minute and the hour (so reading them back gives the clock), a flush is
   * requested, and the indicator is the negation of the one before; in any
   * other mode nothing changes.
   */
  lemma TimeStepEffect(vars: map<string, Value>, t: Rtc.Time6)
    requires Typed(vars)
    ensures var r := TimeStep(vars, t);
      Typed(r) &&
      (Lookup(vars, MODE, Nil) != Int(MODE_TIME) ==> r == vars) &&
      (Lookup(vars, MODE, Nil) == Int(MODE_TIME) ==>
        r[STR_1] == DecimalText(t.minute) && r[STR_2] == DecimalText(t.hour) && r[FLUSH] == Bool(true) &&
        r[SEG_VISIBLE] == Bool(!Flag(vars, SEG_VISIBLE)) &&
        (t.minute >= 0 ==> Decimal.ValueOf(r[STR_1].s) == t.minute) &&
        (t.hour >= 0 ==> Decimal.ValueOf(r[STR_2].s) == t.hour))
  {
    if Lookup(vars, MODE, Nil) == Int(MODE_TIME) {
      TimeStepUpdates(vars, t);
      DisplayKeys();
      if t.minute >= 0 {
        Decimal.ValueOfNat(t.minute);
      }
      if t.hour >= 0 {
        Decimal.ValueOfNat(t.hour);
      }
    }
  }

  /** The four display keys a clock step writes are different names. */
  lemma DisplayKeys()
    ensures STR_1 != STR_2 && STR_1 != FLUSH && STR_1 != SEG_VISIBLE
    ensures STR_2 != FLUSH && STR_2 != SEG_VISIBLE && FLUSH != SEG_VISIBLE
  {
    assert STR_1[12] != STR_2[12];
    assert SEG_VISIBLE[9] != STR_1[9] && SEG_VISIBLE[9] != STR_2[9] && SEG_VISIBLE[9] != FLUSH[9];
    assert FLUSH[9] != STR_1[9] && FLUSH[9] != STR_2[9];
  }

  /** In `MODE_TIME` a clock step is four updates of the context; the indicator it negates is the one held before the step. */
  lemma TimeStepUpdates(vars: map<string, Value>, t: Rtc.Time6)
    requires Typed(vars) && Lookup(vars, MODE, Nil) == Int(MODE_TIME)
    ensures TimeStep(vars, t) ==
      vars[STR_1 := DecimalText(t.minute)][STR_2 := DecimalText(t.hour)][FLUSH := Bool(true)][SEG_VISIBLE := Bool(!Flag(vars, SEG_VISIBLE))]
  {
    var vars1 := vars[STR_1 := DecimalText(t.minute)][STR_2 := DecimalText(t.hour)][FLUSH := Bool(true)];
    DisplayKeys();
    assert Lookup(vars1, SEG_VISIBLE, Bool(false)) == Lookup(vars, SEG_VISIBLE, Bool(false));
  }

  /** One clock step in `MODE_TIME` keeps the mode and negates the indicator. */
  lemma TimeStepFlips(vars: map<string, Value>, t: Rtc.Time6)
    requires Typed(vars) && Lookup(vars, MODE, Nil) == Int(MODE_TIME)
    ensures Typed(TimeStep(vars, t))
    ensures Lookup(TimeStep(vars, t), MODE, Nil) == Int(MODE_TIME)
    ensures Flag(TimeStep(vars, t), SEG_VISIBLE) == !Flag(vars, SEG_VISIBLE)
  {
    TimeStepEffect(vars, t);
  }

  // ---------------------------------------------------------------- BeepTask

  /** `BeepTask`'s fields: the tones, the next one to play, and when it may start. */
  datatype BeepState = BeepState(tones: seq<(int, int)>, index: nat, next: int)

  /** What a tick does to the beeper: `disable()`, or `enable()` and maybe `freq(f)`. */
  datatype BeepAction = Silence | Sound(freq: Option<int>)

  datatype BeepTick = BeepTick(state: BeepState, vars: map<string, Value>, action: BeepAction)

  /**
   * `BeepTask.loop`: a truthy `FLUSH` restarts the sequence from the
   * context (default `BEEP_SEQ_A`) at index 0, due now, and resets `FLUSH`.
   * With the sequence exhausted the beeper is disabled; otherwise it is
   * enabled and, once the current tone is due, that tone starts and the next
   * one is due after its duration.
   */
  function BeepStep(s: BeepState, vars: map<string, Value>): BeepTick
    requires Typed(vars)
  {
    var now := Ticks(vars);
    var flush := Flag(vars, BEEP_FLUSH);
    var s1 := if flush then BeepState(Lookup(vars, BEEP_SEQ, Tones(BEEP_SEQ_A)).tones, 0, now) else s;
    var vars1 := if flush then vars[BEEP_FLUSH := Bool(false)] else vars;
    if s1.index >= |s1.tones| then BeepTick(s1, vars1, Silence)
    else if now >= s1.next then
      var item := s1.tones[s1.index];
      BeepTick(s1.(index := s1.index + 1, next := now + item.1), vars1, Sound(Some(item.0)))
    else BeepTick(s1, vars1, Sound(None))
  }

  /** The index never passes the end of the sequence, and a tick advances it by at most one. */
  lemma BeepIndexBound(s: BeepState, vars: map<string, Value>)
    requires Typed(vars) && s.index <= |s.tones|
    ensures var t := BeepStep(s, vars);
      Typed(t.vars) && t.state.index <= |t.state.tones| &&
      (!Flag(vars, BEEP_FLUSH) ==> t.state.tones == s.tones && s.index <= t.state.index <= s.index + 1)
  {
  }

  /**
   * A flush restarts the sequence: it is taken from the context, `FLUSH`
   * becomes `False`, and its first tone starts at once.
   */
  lemma BeepRestart(s: BeepState, vars: map<string, Value>)
    requires Typed(vars) && Flag(vars, BEEP_FLUSH)
    ensures var t := BeepStep(s, vars);
      var tones := Lookup(vars, BEEP_SEQ, Tones(BEEP_SEQ_A)).tones;
      t.vars == vars[BEEP_FLUSH := Bool(false)] && t.state.tones == tones &&
      (tones == [] ==> t.action == Silence && t.state.index == 0) &&
      (tones != [] ==> t.action == Sound(Some(tones[0].0)) && t.state.index == 1 &&
                       t.state.next == Ticks(vars) + tones[0].1)
  {
  }

  /** Once the sequence is exhausted, each tick without a flush disables the beeper and changes nothing. */
  lemma BeepExhausted(s: BeepState, vars: map<string, Value>)
    requires Typed(vars) && !Flag(vars, BEEP_FLUSH) && s.index >= |s.tones|
    ensures BeepStep(s, vars) == BeepTick(s, vars, Silence)
  {
  }

  /**
   * The ticks of a run without a flush, tick `j` reading the clock as
   * `nows[j]`: the state after them and the frequencies started, in order.
   */
  function BeepRun(s: BeepState, vars: map<string, Value>, nows: seq<int>): (BeepState, seq<int>)
    requires Typed(vars) && !Flag(vars, BEEP_FLUSH)
    decreases |nows|
  {
    if nows == [] then (s, [])
    else
      var prev := BeepRun(s, vars, nows[..|nows| - 1]);
      var t := BeepStep(prev.0, vars[TICKS_MS := Int(nows[|nows| - 1])]);
      (t.state, prev.1 + (if t.action.Sound? && t.action.freq.Some? then [t.action.freq.value] else []))
  }

  /**
   * The tones are played in order and none twice: the frequencies a run
   * starts are the next ones of the sequence, and the index has moved past
   * exactly them.
   */
  lemma {:induction false} BeepPlaysInOrder(s: BeepState, vars: map<string, Value>, nows: seq<int>)
    requires Typed(vars) && !Flag(vars, BEEP_FLUSH) && s.index <= |s.tones|
    ensures var r := BeepRun(s, vars, nows);
      r.0.tones == s.tones && r.0.index == s.index + |r.1| <= |s.tones| &&
      forall j :: 0 <= j < |r.1| ==> r.1[j] == s.tones[s.index + j].0
    decreases |nows|
  {
    if nows != [] {
      BeepPlaysInOrder(s, vars, nows[..|nows| - 1]);
      var prev := BeepRun(s, vars, nows[..|nows| - 1]);
      var v := vars[TICKS_MS := Int(nows[|nows| - 1])];
      assert Lookup(v, BEEP_FLUSH, Bool(false)) == Lookup(vars, BEEP_FLUSH, Bool(false));
    }
  }

  // -------------------------------------------------------------- WakeupTask

  /**
   * `WakeupTask.loop` on the pin level `value`: only a change of level acts;
   * it records the level and requests a forced flush with the active rule
   * for a high level and the inactive one for a low level.
   */
  function WakeStep(last: int, vars: map<string, Value>, value: int,
                    active: LedDisplay.ColorRule, inactive: LedDisplay.ColorRule): (int, map<string, Value>)
  {
    if value == last then (last, vars)
    else
      var rule := if value != 0 then active else inactive;
      (value, vars[COLOR_RULE := Rule(rule)][FLUSH := Bool(true)][FORCE_FLUSH := Bool(true)])
  }

  /**
   * The task is edge-triggered: a level change sets the rule, `FLUSH` and
   * `FORCE_FLUSH`; the same level read again changes nothing.
   */
  lemma WakeEdge(last: int, vars: map<string, Value>, value: int,
                 active: LedDisplay.ColorRule, inactive: LedDisplay.ColorRule)
    requires Typed(vars)
    ensures var r := WakeStep(last, vars, value, active, inactive);
      Typed(r.1) && r.0 == value &&
      (value == last ==> r.1 == vars) &&
      (value != last ==>
        r.1[COLOR_RULE] == Rule(if value != 0 then active else inactive) &&
        r.1[FLUSH] == Bool(true) && r.1[FORCE_FLUSH] == Bool(true)) &&
      WakeStep(r.0, r.1, value, active, inactive) == r
  {
  }

  // ------------------------------------------------------------------- Entry

  /** `Entry.beep(seq)`: queue a tone sequence for the beep task. */
  function QueueBeep(vars: map<string, Value>, tones: seq<(int, int)>): map<string, Value> {
    vars[BEEP_SEQ := Tones(tones)][BEEP_FLUSH := Bool(true)]
  }

  /**
   * `Entry.on_btn(b, v)`: a press (`v` high) queues `BEEP_SEQ_A`, a release
   * `BEEP_SEQ_B`; a release of `RIGHT` moves to the next display mode.
   */
  function OnBtnStep(vars: map<string, Value>, b: int, v: int): map<string, Value>
    requires Typed(vars)
  {
    var vars1 := QueueBeep(vars, if v != 0 then BEEP_SEQ_A else BEEP_SEQ_B);
    if b == BoardDriver.RIGHT && v == 0 then
      var mode := Lookup(vars1, MODE, Int(MODE_TIME)).i;
      vars1[MODE := Int((mode + 1) % MODE_COUNT)]
    else vars1
  }

  /**
   * Every call queues the press or release sequence with a beep flush, and
   * only a release of `RIGHT` changes the mode, to `(MODE + 1) mod 2`.
   */
  lemma OnBtnEffect(vars: map<string, Value>, b: int, v: int)
    requires Typed(vars)
    ensures var r := OnBtnStep(vars, b, v);
      Typed(r) &&
      r[BEEP_SEQ] == Tones(if v != 0 then BEEP_SEQ_A else BEEP_SEQ_B) && r[BEEP_FLUSH] == Bool(true) &&
      (b == BoardDriver.RIGHT && v == 0 ==>
        r[MODE] == Int((Lookup(vars, MODE, Int(MODE_TIME)).i + 1) % MODE_COUNT)) &&
      (!(b == BoardDriver.RIGHT && v == 0) ==> Lookup(r, MODE, Nil) == Lookup(vars, MODE, Nil))
  {
  }

  /** The number of releases of `RIGHT` among the callback calls. */
  function RightReleases(calls: seq<(int, int)>): nat {
    if calls == [] then 0
    else RightReleases(calls[..|calls| - 1]) + (if calls[|calls| - 1] == (BoardDriver.RIGHT, 0) then 1 else 0)
  }

  /** The context after `on_btn` ran for each callback call, oldest first. */
  function OnBtns(vars: map<string, Value>, calls: seq<(int, int)>): (r: map<string, Value>)
    requires Typed(vars)
    ensures Typed(r)
    decreases |calls|
  {
    if calls == [] then vars
    else
      var prev := OnBtns(vars, calls[..|calls| - 1]);
      var c := calls[|calls| - 1];
      OnBtnEffect(prev, c.0, c.1);
      OnBtnStep(prev, c.0, c.1)
  }

  /**
   * The mode cycles: from a mode `m >= 0` (`MODE_TIME` when unset), after a
   * run of button calls it is `m` plus the number of `RIGHT` releases, mod 2.
   */
  lemma {:induction false} ModeCycles(vars: map<string, Value>, calls: seq<(int, int)>)
    requires Typed(vars) && Lookup(vars, MODE, Int(MODE_TIME)).i >= 0
    ensures Lookup(OnBtns(vars, calls), MODE, Int(MODE_TIME)).i ==
            if RightReleases(calls) == 0 then Lookup(vars, MODE, Int(MODE_TIME)).i
            else (Lookup(vars, MODE, Int(MODE_TIME)).i + RightReleases(calls)) % MODE_COUNT
    decreases |calls|
  {
    if calls != [] {
      var m := Lookup(vars, MODE, Int(MODE_TIME)).i;
      var init := calls[..|calls| - 1];
      var prev := OnBtns(vars, init);
      var c := calls[|calls| - 1];
      var k := RightReleases(init);
      ModeCycles(vars, init);
      ModeStep(prev, c.0, c.1);
      assert OnBtns(vars, calls) == OnBtnStep(prev, c.0, c.1);
      if c == (BoardDriver.RIGHT, 0) {
        assert RightReleases(calls) == k + 1;
        if k > 0 {
          ModSucc(m + k, MODE_COUNT);
        }
      } else {
        assert RightReleases(calls) == k;
      }
    }
  }

  /** One button call moves the mode on by one, mod 2, exactly when it is a release of `RIGHT`. */
  lemma ModeStep(vars: map<string, Value>, b: int, v: int)
    requires Typed(vars)
    ensures Lookup(OnBtnStep(vars, b, v), MODE, Int(MODE_TIME)).i ==
            if b == BoardDriver.RIGHT && v == 0 then (Lookup(vars, MODE, Int(MODE_TIME)).i + 1) % MODE_COUNT
            else Lookup(vars, MODE, Int(MODE_TIME)).i
  {
    OnBtnEffect(vars, b, v);
    if !(b == BoardDriver.RIGHT && v == 0) {
      SameMode(vars, OnBtnStep(vars, b, v));
    }
  }

  /** Contexts that agree on the mode entry agree on the mode read with the `MODE_TIME` default. */
  lemma SameMode(a: map<string, Value>, b: map<string, Value>)
    requires Typed(a) && Typed(b) && Lookup(a, MODE, Nil) == Lookup(b, MODE, Nil)
    ensures Lookup(a, MODE, Int(MODE_TIME)) == Lookup(b, MODE, Int(MODE_TIME))
  {
  }

  /**
   * A button call is heard: on the beep task's next tick the queued
   * sequence restarts and its first tone starts at once.
   */
  lemma ButtonStartsBeep(s: BeepState, vars: map<string, Value>, b: int, v: int, now: int)
    requires Typed(vars)
    ensures var ctx := OnBtnStep(vars, b, v)[TICKS_MS := Int(now)];
      var tones := if v != 0 then BEEP_SEQ_A else BEEP_SEQ_B;
      Typed(ctx) &&
      var t := BeepStep(s, ctx);
      t.state == BeepState(tones, 1, now + 100) && t.action == Sound(Some(tones[0].0))
  {
    var ctx := OnBtnStep(vars, b, v)[TICKS_MS := Int(now)];
    OnBtnEffect(vars, b, v);
    assert Flag(ctx, BEEP_FLUSH);
    BeepRestart(s, ctx);
  }

  // ----------------------------------------------------------- task classes

  /** The context's colour rule is a usable one. */
  predicate RuleValid(vars: map<string, Value>)
    reads if COLOR_RULE in vars && vars[COLOR_RULE].Rule? then vars[COLOR_RULE].rule.Objects() else {}
  {
    COLOR_RULE in vars && vars[COLOR_RULE].Rule? ==> vars[COLOR_RULE].rule.Valid()
  }

  /** The argument `ScreenGroup.show` receives for a display string or `None`. */
  function TextOf(v: Value): Option<string> {
    if v.Str? then Some(v.s) else None
  }

  /** What a group's screens show when all of them carry the same rule's colours. */
  function Uniform(g: LedDisplay.ScreenGroup, text: string, colors: seq<LedDisplay.Triple>): (ds: seq<LedDisplay.DigitShow>)
    requires g.Valid() && |text| == |g.screens| && |colors| == 7
    ensures |ds| == |g.screens| && LedDisplay.Fits(g.np.pixels.Length, ds) && LedDisplay.Disjoint(ds)
    ensures forall i :: 0 <= i < |ds| ==> ds[i].offset == g.screens[i].offset && ds[i].c == text[i] && ds[i].colors == colors
  {
    seq(|g.screens|, i requires 0 <= i < |g.screens| => LedDisplay.DigitShow(g.screens[i].offset, text[i], colors))
  }

  /** The screens of a group, the objects `set_color_rule` updates. */
  function Screens(g: LedDisplay.ScreenGroup): set<object> {
    set i | 0 <= i < |g.screens| :: g.screens[i]
  }

  /** `LEDCTLTask`: the two digit groups and the indicator it drives, and what it last showed. */
  class LEDCTLTask {
    const target1: LedDisplay.ScreenGroup
    const target2: LedDisplay.ScreenGroup
    const targetSeg: LedDisplay.ColorSegScreen
    /** `DEFAULT_COLOR_RULE`. */
    const defaultRule: LedDisplay.ColorRule
    var str1: Value
    var str2: Value
    var segVisible: Value
    var colorRule: LedDisplay.ColorRule

    function Cache(): LedCache
      reads this
    {
      LedCache(str1, str2, segVisible, colorRule)
    }

    /** What the three targets' strips hold and have written. */
    function Strips(): StripState
      reads target1.np, target1.np.pixels, target2.np, target2.np.pixels, targetSeg.np, targetSeg.np.pixels
    {
      StripState(target1.np.pixels[..], target1.np.sent, target2.np.pixels[..], target2.np.sent,
                 targetSeg.np.pixels[..], targetSeg.np.sent)
    }

    /** `Displayed` for both groups and `IndicatorShown` for the indicator, from `before` to `after`. */
    ghost predicate Flushed(before: StripState, after: StripState, show1: bool, s1: Value, show2: bool, s2: Value,
                            showSeg: bool, visible: bool, cs: seq<LedDisplay.Triple>)
    {
      Displayed(target1, show1, before.px1, before.sent1, after.px1, after.sent1, s1, cs) &&
      Displayed(target2, show2, before.px2, before.sent2, after.px2, after.sent2, s2, cs) &&
      IndicatorShown(targetSeg, showSeg, before.pxSeg, before.sentSeg, after.pxSeg, after.sentSeg, visible, cs)
    }

    /** The three targets are valid and on three different strips, and the two groups share no screen. */
    ghost predicate Valid() {
      target1.Valid() && target2.Valid() && targetSeg.Valid() &&
      target1.np != target2.np && target1.np != targetSeg.np && target2.np != targetSeg.np &&
      target1.np.pixels != target2.np.pixels && target1.np.pixels != targetSeg.np.pixels &&
      target2.np.pixels != targetSeg.np.pixels &&
      forall i, j :: 0 <= i < |target1.screens| && 0 <= j < |target2.screens| ==> target1.screens[i] != target2.screens[j]
    }

    /**
     * `__init__` followed by `setup`, which takes the two groups and the
     * indicator of the LED module as the targets.
     */
    constructor (target1: LedDisplay.ScreenGroup, target2: LedDisplay.ScreenGroup,
                 targetSeg: LedDisplay.ColorSegScreen, defaultRule: LedDisplay.ColorRule)
      ensures this.target1 == target1 && this.target2 == target2 && this.targetSeg == targetSeg
      ensures this.defaultRule == defaultRule
      ensures Cache() == LedCache(Value.Str(""), Value.Str(""), Bool(false), defaultRule)
    {
      this.target1, this.target2, this.targetSeg := target1, target2, targetSeg;
      this.defaultRule := defaultRule;
      str1, str2, segVisible, colorRule := Value.Str(""), Value.Str(""), Bool(false), defaultRule;
    }

    /**
     * `loop`: performs `LedStep`. A group that is shown displays its string
     * in the pushed rule's colours and is written twice; a target that is
     * not shown keeps its pixels and writes; the indicator is shown when the
     * value is truthy and hidden otherwise.
     */
    method Loop(ctx: Context)
      requires Valid() && Typed(ctx.vars) && RuleValid(ctx.vars) && defaultRule.Valid()
      modifies this, ctx, target1.np, target1.np.pixels, target2.np, target2.np.pixels,
               targetSeg, targetSeg.np, targetSeg.np.pixels, Screens(target1), Screens(target2)
      ensures var t := LedStep(old(Cache()), old(ctx.vars), defaultRule);
        ctx.vars == t.vars && Cache() == t.cache
      ensures var t := LedStep(old(Cache()), old(ctx.vars), defaultRule);
        t.flushed ==> Pushed(t.cache.colorRule)
      ensures var t := LedStep(old(Cache()), old(ctx.vars), defaultRule);
        Flushed(old(Strips()), Strips(), t.show1, t.cache.str1, t.show2, t.cache.str2,
                t.showSeg, Truthy(t.cache.segVisible), old(RuleColors(t.cache.colorRule)))
    {
      ghost var t := LedStep(Cache(), ctx.vars, defaultRule);
      LedStepEffect(Cache(), ctx.vars, defaultRule);
      var flushed, s1, s2, sv, rule, force := TakeFlush(ctx, defaultRule);
      if flushed {
        assert rule == t.cache.colorRule && rule.Valid();
        assert rule.Colors() == old(RuleColors(t.cache.colorRule));
        Refresh(s1, s2, sv, rule, force);
      }
    }

    /** The flushed half of `loop`: push `rule`, show the targets whose value changed (all when `force`), cache the values. */
    method Refresh(s1: Value, s2: Value, sv: Value, rule: LedDisplay.ColorRule, force: bool)
      requires Valid() && rule.Valid() && (s1.Str? || s1.Nil?) && (s2.Str? || s2.Nil?)
      modifies this, target1.np, target1.np.pixels, target2.np, target2.np.pixels,
               targetSeg, targetSeg.np, targetSeg.np.pixels, Screens(target1), Screens(target2)
      ensures var show1, show2, showSeg := s1 != old(str1) || force, s2 != old(str2) || force, sv != old(segVisible) || force;
        Cache() == LedCache(if show1 then s1 else old(str1), if show2 then s2 else old(str2),
                            if showSeg then sv else old(segVisible), rule)
      ensures Pushed(rule)
      ensures Flushed(old(Strips()), Strips(), s1 != old(str1) || force, s1, s2 != old(str2) || force, s2,
                      sv != old(segVisible) || force, Truthy(sv), old(rule.Colors()))
    {
      var show1, show2, showSeg := s1 != str1 || force, s2 != str2 || force, sv != segVisible || force;
      ghost var cs := rule.Colors();
      Remember(s1, s2, sv, rule, force);
      assert this !in Screens(target1) && this !in Screens(target2);
      Apply(show1, s1, show2, s2, showSeg, Truthy(sv), rule, cs);
    }

    /**
     * The context part of `loop`: whether `FLUSH` was truthy and, when it
     * was, `FLUSH` reset and the values the targets are to show.
     */
    static method TakeFlush(ctx: Context, def: LedDisplay.ColorRule)
        returns (flushed: bool, s1: Value, s2: Value, sv: Value, rule: LedDisplay.ColorRule, force: bool)
      requires Typed(ctx.vars)
      modifies ctx
      ensures flushed == Flag(old(ctx.vars), FLUSH)
      ensures ctx.vars == if flushed then old(ctx.vars)[FLUSH := Bool(false)] else old(ctx.vars)
      ensures flushed ==> (s1 == Lookup(old(ctx.vars), STR_1, Nil) && s2 == Lookup(old(ctx.vars), STR_2, Nil) &&
        sv == Lookup(old(ctx.vars), SEG_VISIBLE, Nil) && rule == Lookup(old(ctx.vars), COLOR_RULE, Rule(def)).rule &&
        force == Flag(old(ctx.vars), FORCE_FLUSH))
    {
      var flush := ctx.GetVar(FLUSH, Bool(false));
      flushed := Truthy(flush);
      s1, s2, sv, rule, force := Nil, Nil, Nil, def, false;
      if !flushed {
        return;
      }
      ctx.SetVar(FLUSH, Bool(false));
      s1 := ctx.GetVar(STR_1, Nil);
      s2 := ctx.GetVar(STR_2, Nil);
      sv := ctx.GetVar(SEG_VISIBLE, Nil);
      var r := ctx.GetVar(COLOR_RULE, Rule(def));
      rule := r.rule;
      var f := ctx.GetVar(FORCE_FLUSH, Bool(false));
      force := Truthy(f);
    }

    /** The screens of both groups and the indicator all carry `rule`. */
    ghost predicate Pushed(rule: LedDisplay.ColorRule)
      reads targetSeg, Screens(target1), Screens(target2)
    {
      targetSeg.colorRule == rule &&
      (forall i :: 0 <= i < |target1.screens| ==> target1.screens[i].colorRule == rule) &&
      (forall i :: 0 <= i < |target2.screens| ==> target2.screens[i].colorRule == rule)
    }

    /**
     * The cache half of a flush: the rule is cached, and so is the value of
     * each target whose value differs from the cached one, or of every
     * target when `force`.
     */
    method Remember(s1: Value, s2: Value, sv: Value, rule: LedDisplay.ColorRule, force: bool)
      modifies this
      ensures var show1, show2, showSeg := s1 != old(str1) || force, s2 != old(str2) || force, sv != old(segVisible) || force;
        Cache() == LedCache(if show1 then s1 else old(str1), if show2 then s2 else old(str2),
                            if showSeg then sv else old(segVisible), rule)
    {
      colorRule := rule;
      if s1 != str1 || force {
        str1 := s1;
      }
      if s2 != str2 || force {
        str2 := s2;
      }
      if sv != segVisible || force {
        segVisible := sv;
      }
    }

    /** The display half of a flush: the rule is pushed to every target and the chosen targets are shown. */
    method Apply(show1: bool, s1: Value, show2: bool, s2: Value, showSeg: bool, visible: bool,
                 rule: LedDisplay.ColorRule, ghost cs: seq<LedDisplay.Triple>)
      requires Valid() && rule.Valid() && cs == rule.Colors() && (s1.Str? || s1.Nil?) && (s2.Str? || s2.Nil?)
      modifies target1.np, target1.np.pixels, target2.np, target2.np.pixels,
               targetSeg, targetSeg.np, targetSeg.np.pixels, Screens(target1), Screens(target2)
      ensures Pushed(rule)
      ensures Flushed(old(Strips()), Strips(), show1, s1, show2, s2, showSeg, visible, cs)
    {
      PushRule(rule);
      ShowTargets(target1, target2, targetSeg, show1, s1, show2, s2, showSeg, visible, rule, cs);
    }

    /** The showing part of `loop`, once every target carries `rule`. */
    static method ShowTargets(g1: LedDisplay.ScreenGroup, g2: LedDisplay.ScreenGroup, seg: LedDisplay.ColorSegScreen,
                              show1: bool, s1: Value, show2: bool, s2: Value, showSeg: bool, visible: bool,
                              rule: LedDisplay.ColorRule, ghost cs: seq<LedDisplay.Triple>)
      requires g1.Valid() && g2.Valid() && seg.Valid() && rule.Valid() && cs == rule.Colors()
      requires g1.np != g2.np && g1.np != seg.np && g2.np != seg.np
      requires g1.np.pixels != g2.np.pixels && g1.np.pixels != seg.np.pixels && g2.np.pixels != seg.np.pixels
      requires (s1.Str? || s1.Nil?) && (s2.Str? || s2.Nil?) && seg.colorRule == rule
      requires forall i :: 0 <= i < |g1.screens| ==> g1.screens[i].colorRule == rule
      requires forall i :: 0 <= i < |g2.screens| ==> g2.screens[i].colorRule == rule
      modifies g1.np, g1.np.pixels, g2.np, g2.np.pixels, seg.np, seg.np.pixels
      ensures Displayed(g1, show1, old(g1.np.pixels[..]), old(g1.np.sent), g1.np.pixels[..], g1.np.sent, s1, cs)
      ensures Displayed(g2, show2, old(g2.np.pixels[..]), old(g2.np.sent), g2.np.pixels[..], g2.np.sent, s2, cs)
      ensures IndicatorShown(seg, showSeg, old(seg.np.pixels[..]), old(seg.np.sent), seg.np.pixels[..], seg.np.sent, visible, cs)
      ensures unchanged(seg, Screens(g1), Screens(g2))
    {
      ShowGroupIf(g1, show1, s1, rule, cs);
      ShowGroupIf(g2, show2, s2, rule, cs);
      ShowIndicatorIf(seg, showSeg, visible, rule, cs);
    }

    /** `set_color_rule` on the three targets; no pixel changes. */
    method PushRule(rule: LedDisplay.ColorRule)
      requires Valid()
      modifies targetSeg, Screens(target1), Screens(target2)
      ensures Pushed(rule)
      ensures unchanged(this, target1.np, target1.np.pixels, target2.np, target2.np.pixels, targetSeg.np, targetSeg.np.pixels)
      ensures unchanged(rule.Objects())
    {
      target1.SetColorRule(rule);
      target2.SetColorRule(rule);
      targetSeg.SetColorRule(rule);
    }

    /** `target.show(v)` when `shown`, on a group whose screens all carry `rule`. */
    static method ShowGroupIf(g: LedDisplay.ScreenGroup, shown: bool, v: Value, rule: LedDisplay.ColorRule,
                              ghost cs: seq<LedDisplay.Triple>)
      requires g.Valid() && rule.Valid() && cs == rule.Colors() && (v.Str? || v.Nil?)
      requires forall i :: 0 <= i < |g.screens| ==> g.screens[i].colorRule == rule
      modifies g.np, g.np.pixels
      ensures Displayed(g, shown, old(g.np.pixels[..]), old(g.np.sent), g.np.pixels[..], g.np.sent, v, cs)
    {
      if shown {
        var text := LedDisplay.Shown(TextOf(v), |g.screens|);
        assert g.Digits(text) == Uniform(g, text, cs);
        g.Show(TextOf(v));
      }
    }

    /** `target_seg.show()` when `visible` and `target_seg.hide()` otherwise, if `shown`. */
    static method ShowIndicatorIf(seg: LedDisplay.ColorSegScreen, shown: bool, visible: bool, rule: LedDisplay.ColorRule,
                                  ghost cs: seq<LedDisplay.Triple>)
      requires seg.Valid() && rule.Valid() && seg.colorRule == rule && cs == rule.Colors()
      modifies seg.np, seg.np.pixels
      ensures IndicatorShown(seg, shown, old(seg.np.pixels[..]), old(seg.np.sent), seg.np.pixels[..], seg.np.sent, visible, cs)
    {
      if shown {
        if visible {
          seg.Show();
        } else {
          seg.Hide();
        }
      }
    }
  }

  /**
   * A group that is shown holds `text` in the colours `cs` and was written
   * twice; a group that is not shown is as it was. `px` and `sent` are the
   * strip before, `px'` and `sent'` after.
   */
  ghost predicate Displayed(g: LedDisplay.ScreenGroup, shown: bool, px: seq<LedDisplay.Rgb>, sent: seq<seq<LedDisplay.Rgb>>,
                            px': seq<LedDisplay.Rgb>, sent': seq<seq<LedDisplay.Rgb>>, text: Value, cs: seq<LedDisplay.Triple>)
  {
    g.Valid() && |px| == g.np.pixels.Length &&
    if shown then
      |cs| == 7 &&
      px' == LedDisplay.ShowAll(px, Uniform(g, LedDisplay.Shown(TextOf(text), |g.screens|), cs)) &&
      sent' == sent + [px', px']
    else px' == px && sent' == sent
  }

  /**
   * An indicator that is shown takes colours 0 and 1 of `cs` when `visible`
   * and black otherwise, and was written once; one that is not shown is as
   * it was.
   */
  ghost predicate IndicatorShown(seg: LedDisplay.ColorSegScreen, shown: bool, px: seq<LedDisplay.Rgb>, sent: seq<seq<LedDisplay.Rgb>>,
                                 px': seq<LedDisplay.Rgb>, sent': seq<seq<LedDisplay.Rgb>>, visible: bool, cs: seq<LedDisplay.Triple>)
  {
    seg.Valid() && |px| == seg.np.pixels.Length &&
    if shown then
      |cs| == 7 && sent' == sent + [px'] &&
      var c0 := if visible then cs[0] else LedDisplay.DARK;
      var c1 := if visible then cs[1] else LedDisplay.DARK;
      px' == px[seg.offset := c0.0][seg.offset + 1 := c0.1][seg.offset + 2 := c0.2]
               [seg.offset + 3 := c1.0][seg.offset + 4 := c1.1][seg.offset + 5 := c1.2]
    else px' == px && sent' == sent
  }

  /** The colours of a rule, or none when it is not usable. */
  function RuleColors(rule: LedDisplay.ColorRule): (cs: seq<LedDisplay.Triple>)
    reads rule.Objects()
    ensures rule.Valid() ==> cs == rule.Colors()
  {
    if rule.Valid() then rule.Colors() else []
  }

  /** `THSensorTask`; the DHT11 sensor is the `reading` each tick is given. */
  class THSensorTask {
    var lastMes: int

    constructor ()
      ensures lastMes == 0
    {
      lastMes := 0;
    }

    method Loop(ctx: Context, reading: Result<(int, int)>) returns (r: Result<()>)
      requires Typed(ctx.vars)
      modifies this, ctx
      ensures var t := THStep(old(lastMes), old(ctx.vars), reading);
        ctx.vars == t.vars && lastMes == t.lastMes && r == t.r
    {
      var mode := ctx.GetVar(MODE, Nil);
      if mode != Int(MODE_TH) {
        return Ok(());
      }
      var now := ctx.GetVar(TICKS_MS, Int(0)).i;
      if now - lastMes < TH_INTERVAL {
        return Ok(());
      }
      lastMes := now;
      if reading.Err? {
        return Err(reading.reason);
      }
      var (temp, hum) := reading.value;
      ctx.SetVar(STR_1, DecimalText(temp));
      ctx.SetVar(STR_2, DecimalText(hum));
      ctx.SetVar(SEG_VISIBLE, Bool(false));
      ctx.SetVar(FLUSH, Bool(true));
      r := Ok(());
    }
  }

  /** `TimeTask`: no state of its own; it reads the real-time clock. */
  class TimeTask {
    constructor ()
    {
    }

    method Loop(ctx: Context, rtc: Rtc.RtcHelper)
      requires Typed(ctx.vars)
      modifies ctx
      ensures ctx.vars == TimeStep(old(ctx.vars), rtc.CurrentTimeTuple6())
    {
      var mode := ctx.GetVar(MODE, Nil);
      if mode != Int(MODE_TIME) {
        return;
      }
      var tt := rtc.CurrentTimeTuple6();
      var h := tt.hour;
      var m := tt.minute;
      ctx.SetVar(STR_1, DecimalText(m));
      ctx.SetVar(STR_2, DecimalText(h));
      ctx.SetVar(FLUSH, Bool(true));
      var segVisible := ctx.GetVar(SEG_VISIBLE, Bool(false));
      ctx.SetVar(SEG_VISIBLE, Bool(!Truthy(segVisible)));
    }
  }

  /** `BeepTask`: the tone sequence in progress and the shared beeper. */
  class BeepTask {
    var tones: seq<(int, int)>
    var index: nat
    var next: int
    const beep: BoardDriver.Beep

    function State(): BeepState
      reads this
    {
      BeepState(tones, index, next)
    }

    /** `__init__`: an empty sequence, and the beeper from `Beep.get()`. */
    constructor (drivers: BoardDriver.Drivers)
      modifies drivers
      ensures State() == BeepState([], 0, 0)
      ensures beep == drivers.beep && drivers.buttons == old(drivers.buttons)
      ensures old(drivers.beep) != null ==> beep == old(drivers.beep)
    {
      var b := drivers.GetBeep();
      tones, index, next, beep := [], 0, 0, b;
    }

    /** `loop`: performs `BeepStep` and drives the beeper as its action says. */
    method Loop(ctx: Context)
      requires Typed(ctx.vars)
      modifies this, ctx, beep
      ensures var t := BeepStep(old(State()), old(ctx.vars));
        State() == t.state && ctx.vars == t.vars && beep.vol == old(beep.vol) &&
        match t.action
        case Silence => beep.duty == 0 && beep.frequency == old(beep.frequency)
        case Sound(f) => beep.duty == beep.vol && beep.frequency == (if f.Some? then f else old(beep.frequency))
    {
      var now := ctx.GetVar(TICKS_MS, Int(0)).i;
      var flush := ctx.GetVar(BEEP_FLUSH, Bool(false));
      if Truthy(flush) {
        tones := ctx.GetVar(BEEP_SEQ, Tones(BEEP_SEQ_A)).tones;
        index := 0;
        next := now;
        ctx.SetVar(BEEP_FLUSH, Bool(false));
      }
      if index >= |tones| {
        beep.Disable();
        return;
      }
      beep.Enable();
      if now >= next {
        var item := tones[index];
        next := now + item.1;
        beep.Freq(item.0);
        index := index + 1;
      }
    }
  }

  /** `WakeupTask`; the wake-up pin is the `value` each tick reads. */
  class WakeupTask {
    var lastValue: int
    /** `ACTIVE_RULE` and `INACTIVE_RULE`. */
    const active: LedDisplay.ColorRule
    const inactive: LedDisplay.ColorRule

    constructor (active: LedDisplay.ColorRule, inactive: LedDisplay.ColorRule)
      ensures lastValue == 0 && this.active == active && this.inactive == inactive
    {
      lastValue := 0;
      this.active, this.inactive := active, inactive;
    }

    method Loop(ctx: Context, value: int)
      modifies this, ctx
      ensures (lastValue, ctx.vars) == WakeStep(old(lastValue), old(ctx.vars), value, active, inactive)
    {
      if value == lastValue {
        return;
      }
      lastValue := value;
      var rule := if value != 0 then active else inactive;
      ctx.SetVar(COLOR_RULE, Rule(rule));
      ctx.SetVar(FLUSH, Bool(true));
      ctx.SetVar(FORCE_FLUSH, Bool(true));
    }
  }

  /** `ACTIVE_RULE`: red, green and blue sub-elements at level 5. */
  method NewActiveRule() returns (r: LedDisplay.FixedColorRule)
    ensures fresh(r)
    ensures forall i :: r.GetColor(i) == ((5, 0, 0), (0, 5, 0), (0, 0, 5))
  {
    r := new LedDisplay.FixedColorRule();
    r.SetColor((5, 0, 0), (0, 5, 0), (0, 0, 5));
  }

  /** The tasks `Entry` starts, as the kernels see them. */
  const LED_TASK := Task(0, Some(LED_NAME))
  const TH_TASK := Task(1, Some(TH_NAME))
  const BEEP_TASK := Task(2, Some(BEEP_NAME))
  const WAKEUP_TASK := Task(3, None)
  const TIME_TASK := Task(4, None)

  /** `Entry`: the shared context, the two kernels and the button handler. */
  class Entry {
    const ctx: Context
    const skernel: SuspendKernel
    const tkernel: TimerKernel
    const btns: BoardDriver.Buttons

    /**
     * `__init__`: the LED, sensor, beep and wake-up tasks go to the suspend
     * kernel and the clock task to the timer kernel; the named ones are
     * registered in the context. The buttons come from `Buttons.get()`.
     */
    constructor (pin: StatePin, drivers: BoardDriver.Drivers, level: int -> int)
      modifies drivers
      ensures fresh(ctx) && skernel.ctx == ctx && tkernel.ctx == ctx && skernel.Valid()
      ensures skernel.tasks == [LED_TASK, TH_TASK, BEEP_TASK, WAKEUP_TASK] && tkernel.tasks == [TIME_TASK]
      ensures ctx.vars == map[LED_NAME := Proc(LED_TASK), TH_NAME := Proc(TH_TASK), BEEP_NAME := Proc(BEEP_TASK)]
      ensures !skernel.running && !tkernel.armed
      ensures btns == drivers.buttons
    {
      var c := new Context();
      var s := new SuspendKernel(c);
      var t := new TimerKernel(c, pin);
      var _ := s.Exec(LED_TASK, false);
      var _ := s.Exec(TH_TASK, false);
      var _ := s.Exec(BEEP_TASK, false);
      var _ := s.Exec(WAKEUP_TASK, false);
      t.Exec(TIME_TASK, false);
      var b := drivers.GetButtons(level);
      ctx, skernel, tkernel, btns := c, s, t, b;
    }

    /**
     * `start`, up to the endless `run_forever` of the suspend kernel (which
     * `SuspendKernel.Run` models): the buttons report to `on_btn`, the
     * press sequence is queued, the mode is reset to the clock, the suspend
     * kernel is marked running from its first task and the timer is armed.
     */
    method Start()
      modifies ctx, skernel, tkernel, btns
      ensures btns.hasCallback && btns.status == old(btns.status) && btns.calls == old(btns.calls)
      ensures ctx.vars == QueueBeep(old(ctx.vars), BEEP_SEQ_A)[MODE := Int(MODE_TIME)]
      ensures skernel.running && skernel.index == 0 && skernel.Valid() && tkernel.armed
      ensures skernel.tasks == old(skernel.tasks) && tkernel.tasks == old(tkernel.tasks)
      ensures skernel.events == old(skernel.events) && tkernel.events == old(tkernel.events)
    {
      btns.Listen();
      Beep(BEEP_SEQ_A);
      ctx.SetVar(MODE, Int(MODE_TIME));
      skernel.SetupOs();
      tkernel.RunForever();
      skernel.BeginRun();
    }

    /** `beep(seq)`. */
    method Beep(tones: seq<(int, int)>)
      modifies ctx
      ensures ctx.vars == QueueBeep(old(ctx.vars), tones)
    {
      ctx.SetVar(BEEP_SEQ, Tones(tones));
      ctx.SetVar(BEEP_FLUSH, Bool(true));
    }

    /** `on_btn(b, v)`, the button callback. */
    method OnBtn(b: int, v: int)
      requires Typed(ctx.vars)
      modifies ctx
      ensures ctx.vars == OnBtnStep(old(ctx.vars), b, v)
    {
      var tones := if v != 0 then BEEP_SEQ_A else BEEP_SEQ_B;
      Beep(tones);
      if b == BoardDriver.RIGHT && v == 0 {
        var mode := ctx.GetVar(MODE, Int(MODE_TIME)).i;
        mode := mode + 1;
        mode := mode % MODE_COUNT;
        ctx.SetVar(MODE, Int(mode));
      }
    }
  }
}
