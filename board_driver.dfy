/**
 * The button and beeper drivers of `workSpace/board_driver.py`. Pin levels are
 * an input (a function from pin number to level), the button callback is the
 * list of the calls it received, and the PWM output is its duty and frequency.
 */
module BoardDriver {
  import opened Wrappers

  const LEFT := 13
  const BOTTOM := 35
  const RIGHT := 5

  /** The pin numbers the buttons are wired to, the keys of `btns`. */
  const BUTTONS: set<int> := {LEFT, RIGHT, BOTTOM}

  /**
   * One `on_change` on the recorded levels: whether the callback fires with
   * `(btn, nv)` and the levels afterwards.
   */
  function Step(status: map<int, int>, btn: int, nv: int): (r: (map<int, int>, Option<(int, int)>))
    requires btn in status
    ensures r.0 == status[btn := nv]
    ensures r.1.Some? <==> nv != status[btn]
    ensures r.1.Some? ==> r.1.value == (btn, nv)
  {
    if nv == status[btn] then (status, None) else (status[btn := nv], Some((btn, nv)))
  }

  /** A run of pin interrupts `(pin, level read)` on the three buttons. */
  predicate OnButtons(events: seq<(int, int)>) {
    forall k :: 0 <= k < |events| ==> events[k].0 in BUTTONS
  }

  /** The levels and the callback calls after the interrupts, oldest call first. */
  function Replay(status: map<int, int>, events: seq<(int, int)>): (r: (map<int, int>, seq<(int, int)>))
    requires BUTTONS <= status.Keys && OnButtons(events)
    ensures r.0.Keys == status.Keys
    decreases |events|
  {
    if events == [] then (status, [])
    else
      var prev := Replay(status, events[..|events| - 1]);
      var e := events[|events| - 1];
      var next := Step(prev.0, e.0, e.1);
      (next.0, prev.1 + (if next.1.Some? then [next.1.value] else []))
  }

  /**
   * The callback sees only changes: for each button, its first call differs
   * from the initial level, each later call differs from the one before, and
   * the update of `status` always follows the last level read.
   */
  lemma {:induction false} ReplayReportsChanges(status: map<int, int>, events: seq<(int, int)>, btn: int)
    requires BUTTONS <= status.Keys && OnButtons(events) && btn in BUTTONS
    ensures var r := Replay(status, events);
      var calls := Calls(r.1, btn);
      (calls == [] ==> r.0[btn] == status[btn]) &&
      (calls != [] ==> calls[0] != status[btn] && calls[|calls| - 1] == r.0[btn]) &&
      (forall k :: 0 < k < |calls| ==> calls[k] != calls[k - 1])
    decreases |events|
  {
    if events != [] {
      var init := events[..|events| - 1];
      assert OnButtons(init) by {
        forall k | 0 <= k < |init| ensures init[k].0 in BUTTONS {
          assert init[k] == events[k];
        }
      }
      ReplayReportsChanges(status, init, btn);
      var prev := Replay(status, init);
      var e := events[|events| - 1];
      var next := Step(prev.0, e.0, e.1);
      var added := if next.1.Some? then [next.1.value] else [];
      CallsAppend(prev.1, added, btn);
    }
  }

  /** The levels reported to the callback for one button, in order. */
  function Calls(calls: seq<(int, int)>, btn: int): seq<int> {
    if calls == [] then []
    else Calls(calls[..|calls| - 1], btn) + (if calls[|calls| - 1].0 == btn then [calls[|calls| - 1].1] else [])
  }

  lemma {:induction false} CallsAppend(a: seq<(int, int)>, b: seq<(int, int)>, btn: int)
    ensures Calls(a + b, btn) == Calls(a, btn) + Calls(b, btn)
    decreases |b|
  {
    if b == [] {
      assert a + b == a;
    } else {
      var b' := b[..|b| - 1];
      assert (a + b)[..|a + b| - 1] == a + b';
      CallsAppend(a, b', btn);
    }
  }

  class Buttons {
    /** The last level seen on each button, keyed by pin number. */
    var status: map<int, int>
    /** Whether `listen` has registered a callback. */
    var hasCallback: bool
    /** The `(btn_no, nv)` arguments of every call of the callback. */
    var calls: seq<(int, int)>

    /** `__init__`: each button's status is its pin level at construction. */
    constructor (level: int -> int)
      ensures status == map[LEFT := level(LEFT), RIGHT := level(RIGHT), BOTTOM := level(BOTTOM)]
      ensures status.Keys == BUTTONS
      ensures !hasCallback && calls == []
    {
      status := map[LEFT := level(LEFT), RIGHT := level(RIGHT), BOTTOM := level(BOTTOM)];
      hasCallback := false;
      calls := [];
    }

    /** `read(btn)`: the pin level of a button, 0 for a pin that is not a button. */
    function Read(btn: int, level: int -> int): (v: int)
      ensures btn in BUTTONS ==> v == level(btn)
      ensures btn !in BUTTONS ==> v == 0
    {
      if btn in BUTTONS then level(btn) else 0
    }

    /** `listen(cb)`: from now on `on_change` reports to the callback. */
    method Listen()
      modifies this
      ensures hasCallback && status == old(status) && calls == old(calls)
    {
      hasCallback := true;
    }

    /**
     * `on_change` for an interrupt on pin `btn` whose level now reads `nv`.
     * A pin that is not a button finds no entry in `status` and raises.
     */
    method OnChange(btn: int, nv: int) returns (r: Result<()>)
      modifies this
      ensures btn !in old(status) ==> r.Err? && status == old(status) && calls == old(calls)
      ensures btn in old(status) ==>
                r.Ok? &&
                var next := Step(old(status), btn, nv);
                status == next.0 &&
                calls == old(calls) + (if next.1.Some? && hasCallback then [next.1.value] else [])
      ensures hasCallback == old(hasCallback)
    {
      if btn !in status {
        return Err("KeyError");
      }
      if nv == status[btn] {
        return Ok(());
      }
      status := status[btn := nv];
      if !hasCallback {
        return Ok(());
      }
      calls := calls + [(btn, nv)];
      r := Ok(());
    }
  }

  class Beep {
    /** The PWM duty of the beeper output. */
    var duty: int
    var vol: int
    /** The PWM frequency last set; `None` while it is the PWM's own default. */
    var frequency: Option<int>

    constructor ()
      ensures duty == 0 && vol == 100 && frequency.None?
    {
      duty, vol, frequency := 0, 100, None;
    }

    /** `volume`: the duty the next `enable` uses; the output is not touched. */
    method Volume(v: int)
      modifies this
      ensures vol == v && duty == old(duty) && frequency == old(frequency)
    {
      vol := v;
    }

    method Enable()
      modifies this
      ensures duty == vol && vol == old(vol) && frequency == old(frequency)
    {
      duty := vol;
    }

    method Disable()
      modifies this
      ensures duty == 0 && vol == old(vol) && frequency == old(frequency)
    {
      duty := 0;
    }

    method Freq(f: int)
      modifies this
      ensures frequency == Some(f) && duty == old(duty) && vol == old(vol)
    {
      frequency := Some(f);
    }
  }

  /** The class-level `_ins` slots behind `Buttons.get()` and `Beep.get()`. */
  class Drivers {
    var buttons: Buttons?
    var beep: Beep?

    constructor ()
      ensures buttons == null && beep == null
    {
      buttons, beep := null, null;
    }

    /** `Buttons.get()`: the first call creates the instance, every later call returns it. */
    method GetButtons(level: int -> int) returns (b: Buttons)
      modifies this
      ensures old(buttons) != null ==> b == old(buttons)
      ensures old(buttons) == null ==> fresh(b) && b.status.Keys == BUTTONS && !b.hasCallback && b.calls == []
      ensures buttons == b && beep == old(beep)
    {
      if buttons != null {
        return buttons;
      }
      b := new Buttons(level);
      buttons := b;
    }

    /** `Beep.get()`: likewise for the beeper. */
    method GetBeep() returns (b: Beep)
      modifies this
      ensures old(beep) != null ==> b == old(beep)
      ensures old(beep) == null ==> fresh(b) && b.duty == 0 && b.vol == 100 && b.frequency.None?
      ensures beep == b && buttons == old(buttons)
    {
      if beep != null {
        return beep;
      }
      b := new Beep();
      beep := b;
    }
  }
}
