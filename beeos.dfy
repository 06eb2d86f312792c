/**
 * The cooperative kernel of `workSpace/beeos.py`: the shared context, the
 * timer-driven kernel that sweeps its task list once per tick, the suspend
 * kernel that runs its tasks round-robin, and the status LED blinker.
 *
 * A task is an identity with an optional `NAME`. What its `loop` does is a
 * function parameter: it sees the context and yields an outcome (a returned
 * value or a raised exception) together with the context it leaves behind.
 */
module BeeOS {
  import opened Wrappers
  import LedDisplay

  /** A task (a `Process`); `name` is its `NAME` attribute when it has one. */
  datatype Task = Task(id: nat, name: Option<string>)

  /** The Python values the firmware keeps in the shared context. */
  datatype Value =
    | Nil
    | Bool(b: bool)
    | Int(i: int)
    | Str(s: string)
    | Rule(rule: LedDisplay.ColorRule)
    | Tones(tones: seq<(int, int)>)
    | Proc(task: Task)

  /** Python truthiness of a context value. */
  predicate Truthy(v: Value) {
    match v
    case Nil => false
    case Bool(b) => b
    case Int(i) => i != 0
    case Str(s) => s != ""
    case Rule(_) => true
    case Tones(t) => t != []
    case Proc(_) => true
  }

  const TICKS_MS := "ticks_ms"

  /** `get_var` on a snapshot of the context's dictionary. */
  function Lookup(vars: map<string, Value>, name: string, def: Value): (v: Value)
    ensures name in vars ==> v == vars[name]
    ensures name !in vars ==> v == def
  {
    if name in vars then vars[name] else def
  }

  /** After `set_var(k, v)`, `get_var(k, _)` is `v` and every other key reads as before. */
  lemma LookupAfterStore(vars: map<string, Value>, k: string, v: Value, name: string, def: Value)
    ensures Lookup(vars[k := v], name, def) == if name == k then v else Lookup(vars, name, def)
  {
  }

  class Context {
    var vars: map<string, Value>

    constructor ()
      ensures vars == map[]
    {
      vars := map[];
    }

    /** `get_var(name, def_var)`; the source's default `def_var` is `None`, here `Nil`. */
    function GetVar(name: string, def: Value): (v: Value)
      reads this
      ensures v == Lookup(vars, name, def)
    {
      if name in vars then vars[name] else def
    }

    method SetVar(name: string, v: Value)
      modifies this
      ensures vars == old(vars)[name := v]
    {
      vars := vars[name := v];
    }
  }

  /** The context once `exec` has registered a task under its `NAME`. */
  function Register(vars: map<string, Value>, t: Task): (r: map<string, Value>)
    ensures t.name.Some? ==> r == vars[t.name.value := Proc(t)]
    ensures t.name.None? ==> r == vars
  {
    if t.name.Some? then vars[t.name.value := Proc(t)] else vars
  }

  /** What a call of `loop` ends with. */
  datatype Outcome = Returned(value: Value) | Raised

  /** The behaviour of the tasks' `loop`: the context seen, to the outcome and the context left. */
  type LoopFn = (Task, map<string, Value>) -> (Outcome, map<string, Value>)

  /** `cmplt` is truthy: the loop returned a truthy value (it stays `False` when the loop raises). */
  predicate Completes(o: Outcome) {
    o.Returned? && Truthy(o.value)
  }

  /**
   * What a kernel did: `loop` of `task` at list position `at` with the
   * context it was given, and `finish` of a completed task.
   */
  datatype Event = Loop(task: Task, at: nat, seen: map<string, Value>) | Finish(task: Task)

  /** The position of the first occurrence of `x` in `s`. */
  function IndexOf(s: seq<Task>, x: Task): (k: nat)
    requires x in s
    ensures k < |s| && s[k] == x && x !in s[..k]
  {
    if s[0] == x then 0
    else
      assert s == [s[0]] + s[1..];
      var k := IndexOf(s[1..], x);
      assert s[..k + 1] == [s[0]] + s[1..][..k];
      k + 1
  }

  /** `list.remove`: drop the first occurrence, keeping the order of the rest. */
  function RemoveFirst(s: seq<Task>, x: Task): (r: seq<Task>)
    ensures x in s ==> r == s[..IndexOf(s, x)] + s[IndexOf(s, x) + 1..]
    ensures x in s ==> |r| == |s| - 1 && multiset(r) == multiset(s) - multiset{x}
    ensures x !in s ==> r == s
  {
    if x in s then
      var k := IndexOf(s, x);
      assert s == s[..k] + [x] + s[k + 1..];
      s[..k] + s[k + 1..]
    else s
  }

  datatype SweepResult = SweepResult(tasks: seq<Task>, vars: map<string, Value>, events: seq<Event>)

  /**
   * The visit of list position `i` in a tick: `TICKS_MS` is set from
   * `clock(i)`, `loop` runs, and a completed task is removed and finished.
   */
  function Visit(ts: seq<Task>, i: nat, vars: map<string, Value>, loop: LoopFn, clock: nat -> int): (v: SweepResult)
    requires i < |ts|
    ensures |ts| - 1 <= |v.tasks| <= |ts|
  {
    var t := ts[i];
    var seen := vars[TICKS_MS := Int(clock(i))];
    var out := loop(t, seen);
    if Completes(out.0) then SweepResult(RemoveFirst(ts, t), out.1, [Loop(t, i, seen), Finish(t)])
    else SweepResult(ts, out.1, [Loop(t, i, seen)])
  }

  /**
   * One tick of `TimerOSKernel._loop` from list position `i` on. Python's
   * `for task in self._tasks` walks positions 0, 1, 2, ... of the list as it
   * stands; `remove` of a completed task shifts the rest down by one, so the
   * task after it is not visited in the same tick. `clock(i)` is what
   * `time.ticks_ms()` reads before the call at position `i`.
   */
  function Sweep(ts: seq<Task>, i: nat, vars: map<string, Value>, loop: LoopFn, clock: nat -> int): SweepResult
    decreases |ts| + 1 - i
  {
    if i >= |ts| then SweepResult(ts, vars, [])
    else
      var v := Visit(ts, i, vars, loop, clock);
      var rest := Sweep(v.tasks, i + 1, v.vars, loop, clock);
      SweepResult(rest.tasks, rest.vars, v.events + rest.events)
  }

  /**
   * The loop invariant of the sweep: the rest of the tick, started from the
   * current list, position, context and trace, ends where the whole tick does.
   */
  ghost predicate SweepsTo(ts: seq<Task>, i: nat, vars: map<string, Value>, loop: LoopFn, clock: nat -> int,
                           es: seq<Event>, r: SweepResult, e0: seq<Event>)
  {
    var rest := Sweep(ts, i, vars, loop, clock);
    r.tasks == rest.tasks && r.vars == rest.vars && e0 + r.events == es + rest.events
  }

  lemma SweepsToStep(ts: seq<Task>, i: nat, vars: map<string, Value>, loop: LoopFn, clock: nat -> int,
                     es: seq<Event>, r: SweepResult, e0: seq<Event>)
    requires i < |ts| && SweepsTo(ts, i, vars, loop, clock, es, r, e0)
    ensures var v := Visit(ts, i, vars, loop, clock);
      SweepsTo(v.tasks, i + 1, v.vars, loop, clock, es + v.events, r, e0)
  {
    var v := Visit(ts, i, vars, loop, clock);
    var rest := Sweep(v.tasks, i + 1, v.vars, loop, clock);
    assert es + (v.events + rest.events) == (es + v.events) + rest.events;
  }

  /** The tasks whose `finish` ran. */
  function Finished(es: seq<Event>): seq<Task> {
    if es == [] then []
    else (if es[0].Finish? then [es[0].task] else []) + Finished(es[1..])
  }

  lemma {:induction false} FinishedAppend(a: seq<Event>, b: seq<Event>)
    ensures Finished(a + b) == Finished(a) + Finished(b)
    decreases |a|
  {
    if a == [] {
      assert a + b == b;
    } else {
      assert (a + b)[0] == a[0] && (a + b)[1..] == a[1..] + b;
      FinishedAppend(a[1..], b);
      var head := if a[0].Finish? then [a[0].task] else [];
      calc {
        Finished(a + b);
        head + Finished(a[1..] + b);
        head + (Finished(a[1..]) + Finished(b));
        (head + Finished(a[1..])) + Finished(b);
      }
    }
  }

  /** A visit keeps every task or moves the one it finishes out of the list. */
  lemma VisitKeepsTasks(ts: seq<Task>, i: nat, vars: map<string, Value>, loop: LoopFn, clock: nat -> int)
    requires i < |ts|
    ensures var v := Visit(ts, i, vars, loop, clock);
      multiset(ts) == multiset(v.tasks) + multiset(Finished(v.events))
  {
    var t := ts[i];
    var seen := vars[TICKS_MS := Int(clock(i))];
    var v := Visit(ts, i, vars, loop, clock);
    if Completes(loop(t, seen).0) {
      var es := [Loop(t, i, seen), Finish(t)];
      assert v.events == es && v.tasks == RemoveFirst(ts, t);
      assert es[1..] == [Finish(t)] && es[1..][1..] == [];
      assert Finished(es[1..]) == [t];
      assert Finished(es) == [t];
      assert t in multiset(ts);
      assert multiset(v.tasks) == multiset(ts) - multiset{t};
      assert multiset(Finished(v.events)) == multiset{t};
    } else {
      var es := [Loop(t, i, seen)];
      assert v.events == es && v.tasks == ts;
      assert es[1..] == [];
      assert Finished(es) == [];
    }
  }

  /**
   * No task is lost or duplicated by a tick: the tasks kept and the tasks
   * finished together are the tasks the tick started with.
   */
  lemma {:induction false} SweepKeepsTasks(ts: seq<Task>, i: nat, vars: map<string, Value>, loop: LoopFn, clock: nat -> int)
    ensures var r := Sweep(ts, i, vars, loop, clock);
      multiset(ts) == multiset(r.tasks) + multiset(Finished(r.events))
    decreases |ts| + 1 - i
  {
    if i < |ts| {
      var v := Visit(ts, i, vars, loop, clock);
      var rest := Sweep(v.tasks, i + 1, v.vars, loop, clock);
      assert Sweep(ts, i, vars, loop, clock).tasks == rest.tasks;
      assert Sweep(ts, i, vars, loop, clock).events == v.events + rest.events;
      VisitKeepsTasks(ts, i, vars, loop, clock);
      SweepKeepsTasks(v.tasks, i + 1, v.vars, loop, clock);
      FinishedAppend(v.events, rest.events);
      calc {
        multiset(ts);
        multiset(v.tasks) + multiset(Finished(v.events));
        multiset(rest.tasks) + multiset(Finished(rest.events)) + multiset(Finished(v.events));
        multiset(rest.tasks) + multiset(Finished(v.events) + Finished(rest.events));
        multiset(rest.tasks) + multiset(Finished(v.events + rest.events));
      }
    }
  }

  /** Every `loop` call is given the context with `TICKS_MS` freshly set from the clock. */
  predicate TicksSet(es: seq<Event>, clock: nat -> int) {
    forall j :: 0 <= j < |es| && es[j].Loop? ==> es[j].seen == es[j].seen[TICKS_MS := Int(clock(es[j].at))]
  }

  /** A `loop` call is followed by `finish` of the same task exactly when it completed. */
  predicate FinishIffCompleted(es: seq<Event>, loop: LoopFn) {
    forall j :: 0 <= j < |es| ==> FinishIffCompletedAt(es, loop, j)
  }

  predicate FinishIffCompletedAt(es: seq<Event>, loop: LoopFn, j: nat)
    requires j < |es|
  {
    es[j].Loop? ==> (Completes(loop(es[j].task, es[j].seen).0) <==> j + 1 < |es| && es[j + 1] == Finish(es[j].task))
  }

  /** `finish` is never called except right after a `loop` call on the same task. */
  predicate FinishAfterLoop(es: seq<Event>) {
    forall j :: 0 <= j < |es| && es[j].Finish? ==> 0 < j && es[j - 1].Loop? && es[j - 1].task == es[j].task
  }

  /**
   * `finish` follows a `loop` call exactly when that call completed, on the
   * same task, and is never called otherwise; `TICKS_MS` is written before
   * every `loop` call.
   */
  lemma {:induction false} SweepEvents(ts: seq<Task>, i: nat, vars: map<string, Value>, loop: LoopFn, clock: nat -> int)
    ensures var es := Sweep(ts, i, vars, loop, clock).events;
      TicksSet(es, clock) && FinishIffCompleted(es, loop) && FinishAfterLoop(es)
    decreases |ts| + 1 - i
  {
    if i < |ts| {
      var seen := vars[TICKS_MS := Int(clock(i))];
      var v := Visit(ts, i, vars, loop, clock);
      var rest := Sweep(v.tasks, i + 1, v.vars, loop, clock).events;
      SweepEvents(v.tasks, i + 1, v.vars, loop, clock);
      assert seen == seen[TICKS_MS := Int(clock(i))];
      assert rest != [] ==> !rest[0].Finish?;
      EventsCons(v.events, rest, seen, loop, clock);
    }
  }

  /** Putting the events of one `loop` call in front of those of the rest of the tick. */
  lemma EventsCons(head: seq<Event>, rest: seq<Event>, seen: map<string, Value>, loop: LoopFn, clock: nat -> int)
    requires |head| > 0 && head[0].Loop? && head[0].seen == seen
    requires seen == seen[TICKS_MS := Int(clock(head[0].at))]
    requires Completes(loop(head[0].task, seen).0) ==> head == [head[0], Finish(head[0].task)]
    requires !Completes(loop(head[0].task, seen).0) ==> head == [head[0]]
    requires rest != [] ==> !rest[0].Finish?
    requires TicksSet(rest, clock) && FinishIffCompleted(rest, loop) && FinishAfterLoop(rest)
    ensures var es := head + rest;
      TicksSet(es, clock) && FinishIffCompleted(es, loop) && FinishAfterLoop(es)
  {
    var es := head + rest;
    var h := |head|;
    forall j | 0 <= j < |es| && es[j].Loop?
      ensures es[j].seen == es[j].seen[TICKS_MS := Int(clock(es[j].at))]
      ensures FinishIffCompletedAt(es, loop, j)
    {
      if j >= h {
        var k := j - h;
        assert es[j] == rest[k];
        assert FinishIffCompletedAt(rest, loop, k);
        if j + 1 < |es| {
          assert es[j + 1] == rest[k + 1];
        }
      } else {
        assert es[j] == head[j];
        if h == 2 {
          assert es[1] == head[1];
        } else if |rest| > 0 {
          assert es[1] == rest[0];
        }
      }
    }
    forall j | 0 <= j < |es| && es[j].Finish?
      ensures 0 < j && es[j - 1].Loop? && es[j - 1].task == es[j].task
    {
      if j > h {
        assert es[j] == rest[j - h];
        assert es[j - 1] == rest[j - 1 - h];
      } else if j == h {
        assert false;
      }
    }
  }

  /** A call that does not complete keeps the list and adds only its own `loop` event before the rest of the tick. */
  lemma SweepKeepStep(ts: seq<Task>, i: nat, vars: map<string, Value>, loop: LoopFn, clock: nat -> int)
    requires i < |ts| && !Completes(loop(ts[i], vars[TICKS_MS := Int(clock(i))]).0)
    ensures var seen := vars[TICKS_MS := Int(clock(i))];
      var rest := Sweep(ts, i + 1, loop(ts[i], seen).1, loop, clock);
      Sweep(ts, i, vars, loop, clock) == SweepResult(rest.tasks, rest.vars, [Loop(ts[i], i, seen)] + rest.events)
  {
  }

  /** `es` are the `loop` calls at positions `i`, `i + 1`, ... of `ts`, in that order. */
  predicate LoopsFrom(es: seq<Event>, ts: seq<Task>, i: nat) {
    forall j :: 0 <= j < |es| ==> es[j].Loop? && i + j < |ts| && es[j].task == ts[i + j] && es[j].at == i + j
  }

  /** The call at position `i` followed by calls from position `i + 1` on are calls from position `i` on. */
  lemma LoopsFromCons(e: Event, rest: seq<Event>, ts: seq<Task>, i: nat)
    requires e.Loop? && i < |ts| && e.task == ts[i] && e.at == i && LoopsFrom(rest, ts, i + 1)
    ensures LoopsFrom([e] + rest, ts, i)
  {
    var es := [e] + rest;
    forall j | 0 < j < |es|
      ensures es[j] == rest[j - 1]
    {
    }
  }

  /** When no call completes, a tick calls `loop` on every task, in list order, and keeps them all. */
  lemma {:induction false} SweepAllRun(ts: seq<Task>, i: nat, vars: map<string, Value>, loop: LoopFn, clock: nat -> int)
    requires i <= |ts|
    requires forall t, m :: !Completes(loop(t, m).0)
    ensures var r := Sweep(ts, i, vars, loop, clock);
      r.tasks == ts && |r.events| == |ts| - i && LoopsFrom(r.events, ts, i)
    decreases |ts| - i
  {
    if i < |ts| {
      var seen := vars[TICKS_MS := Int(clock(i))];
      SweepKeepStep(ts, i, vars, loop, clock);
      SweepAllRun(ts, i + 1, loop(ts[i], seen).1, loop, clock);
      LoopsFromCons(Loop(ts[i], i, seen), Sweep(ts, i + 1, loop(ts[i], seen).1, loop, clock).events, ts, i);
    }
  }

  /** No task is listed twice. */
  predicate Distinct(ts: seq<Task>) {
    forall p, q :: 0 <= p < q < |ts| ==> ts[p] != ts[q]
  }

  /** After removing the task at position `j`, positions `j + 1` on hold tasks from positions `j` on of the list before. */
  lemma RemoveShifts(ts: seq<Task>, j: nat, m: nat)
    requires j < |ts| && j < m < |RemoveFirst(ts, ts[j])|
    ensures RemoveFirst(ts, ts[j])[m] == ts[m + 1]
  {
    assert IndexOf(ts, ts[j]) <= j;
  }

  /** Every `loop` of a tick from position `j` runs a task listed at position `j` or later when the tick reaches `j`. */
  lemma {:induction false} SweepRunsFrom(ts: seq<Task>, j: nat, vars: map<string, Value>, loop: LoopFn, clock: nat -> int)
    ensures forall e :: e in Sweep(ts, j, vars, loop, clock).events && e.Loop? ==>
      exists m :: j <= m < |ts| && ts[m] == e.task
    decreases |ts| + 1 - j
  {
    if j < |ts| {
      var v := Visit(ts, j, vars, loop, clock);
      var rest := Sweep(v.tasks, j + 1, v.vars, loop, clock);
      SweepRunsFrom(v.tasks, j + 1, v.vars, loop, clock);
      forall e | e in Sweep(ts, j, vars, loop, clock).events && e.Loop?
        ensures exists m :: j <= m < |ts| && ts[m] == e.task
      {
        if e in v.events {
          assert e.task == ts[j];
        } else {
          assert e in rest.events;
          var m :| j + 1 <= m < |v.tasks| && v.tasks[m] == e.task;
          if v.tasks != ts {
            RemoveShifts(ts, j, m);
          }
        }
      }
    }
  }

  /**
   * The skip: `for task in self._tasks` walks list positions, so when the
   * task at position `i` completes and is removed, the task after it moves
   * into position `i` and is not run in that tick.
   */
  lemma SweepSkipsSuccessor(ts: seq<Task>, i: nat, vars: map<string, Value>, loop: LoopFn, clock: nat -> int)
    requires Distinct(ts) && i + 1 < |ts|
    requires Completes(loop(ts[i], vars[TICKS_MS := Int(clock(i))]).0)
    ensures forall e :: e in Sweep(ts, i, vars, loop, clock).events && e.Loop? ==> e.task != ts[i + 1]
  {
    var v := Visit(ts, i, vars, loop, clock);
    var rest := Sweep(v.tasks, i + 1, v.vars, loop, clock);
    assert v.tasks == RemoveFirst(ts, ts[i]);
    SweepRunsFrom(v.tasks, i + 1, v.vars, loop, clock);
    forall e | e in Sweep(ts, i, vars, loop, clock).events && e.Loop?
      ensures e.task != ts[i + 1]
    {
      if e in v.events {
        assert e.task == ts[i];
      } else {
        assert e in rest.events;
        var m :| i + 1 <= m < |v.tasks| && v.tasks[m] == e.task;
        RemoveShifts(ts, i, m);
      }
    }
  }

  /** The state of the status LED blinker (`StatePin` without its pin). */
  datatype Blinker = Blinker(awsOn: bool, interval: int, count: int, state: bool)

  function TurnOn(b: Blinker): Blinker {
    b.(state := true)
  }

  /** `off`: while `aws_on` is set it acts as `on`. */
  function TurnOff(b: Blinker): (r: Blinker)
    ensures r.state == b.awsOn
  {
    if b.awsOn then TurnOn(b) else b.(state := false)
  }

  /** `blink`: count a call, and toggle once the count reaches the interval. */
  function BlinkStep(b: Blinker): Blinker {
    var c := b.count + 1;
    if c < b.interval then b.(count := c)
    else if b.state then TurnOff(b.(count := 0))
    else TurnOn(b.(count := 0))
  }

  function BlinkTimes(b: Blinker, k: nat): Blinker {
    if k == 0 then b else BlinkStep(BlinkTimes(b, k - 1))
  }

  /** One more call: the remainder grows by one, or wraps to 0 and the quotient grows. */
  lemma DivModSucc(a: int, n: int)
    requires 0 <= a && 0 < n
    ensures a % n + 1 < n ==> (a + 1) % n == a % n + 1 && (a + 1) / n == a / n
    ensures a % n + 1 == n ==> (a + 1) % n == 0 && (a + 1) / n == a / n + 1
  {
    var q := a / n;
    var r := a % n;
    if r + 1 < n {
      DivModUnique(a + 1, n, q, r + 1);
    } else {
      assert a + 1 == (q + 1) * n + 0;
      DivModUnique(a + 1, n, q + 1, 0);
    }
  }

  /**
   * Without `aws_on`, `state` toggles once every `blk_inter` calls of
   * `blink`: after `k` calls the count is `(blk_ct + k) mod blk_inter`
   * and the state has flipped `(blk_ct + k) / blk_inter` times.
   */
  lemma {:induction false} BlinkPeriod(b: Blinker, k: nat)
    requires !b.awsOn && 1 <= b.interval && 0 <= b.count < b.interval
    ensures var r := BlinkTimes(b, k);
      r.awsOn == b.awsOn && r.interval == b.interval &&
      r.count == (b.count + k) % b.interval &&
      r.state == (b.state != ((b.count + k) / b.interval % 2 == 1))
  {
    if k > 0 {
      BlinkPeriod(b, k - 1);
      DivModSucc(b.count + k - 1, b.interval);
    } else {
      DivModUnique(b.count, b.interval, 0, b.count);
    }
  }

  /** While `aws_on` is set, a lit LED stays lit however often `blink` runs. */
  lemma {:induction false} BlinkAwsStaysOn(b: Blinker, k: nat)
    requires b.awsOn && b.state
    ensures BlinkTimes(b, k).state && BlinkTimes(b, k).awsOn
  {
    if k > 0 {
      BlinkAwsStaysOn(b, k - 1);
    }
  }

  /** The status LED on pin 32; it is wired active low, so `on` drives the pin low. */
  class StatePin {
    var awsOn: bool
    var interval: int
    var count: int
    var state: bool
    var pinHigh: bool

    function Snapshot(): Blinker
      reads this
    {
      Blinker(awsOn, interval, count, state)
    }

    predicate Valid()
      reads this
    {
      pinHigh == !state
    }

    constructor ()
      ensures Snapshot() == Blinker(false, 1, 0, false) && Valid()
    {
      awsOn, interval, count := false, 1, 0;
      state, pinHigh := false, true;
    }

    method On()
      modifies this
      ensures Snapshot() == TurnOn(old(Snapshot())) && Valid()
    {
      state := true;
      pinHigh := false;
    }

    method Off()
      modifies this
      ensures Snapshot() == TurnOff(old(Snapshot())) && Valid()
    {
      if awsOn {
        On();
        return;
      }
      state := false;
      pinHigh := true;
    }

    method SetBlinkInterval(n: int)
      modifies this
      ensures Snapshot() == old(Snapshot()).(interval := n) && pinHigh == old(pinHigh)
    {
      interval := n;
    }

    method SetAwsOn(on: bool)
      modifies this
      ensures Snapshot() == old(Snapshot()).(awsOn := on) && pinHigh == old(pinHigh)
    {
      awsOn := on;
    }

    method Blink()
      requires Valid()
      modifies this
      ensures Snapshot() == BlinkStep(old(Snapshot())) && Valid()
    {
      count := count + 1;
      if count < interval {
        return;
      }
      count := 0;
      if state {
        Off();
      } else {
        On();
      }
    }
  }

  /** `TimerOSKernel`: a task list swept once per timer tick. */
  class TimerKernel {
    const ctx: Context
    const pin: StatePin
    var tasks: seq<Task>
    var events: seq<Event>
    /** Whether the periodic timer is running (`run_forever` until `shutdown`). */
    var armed: bool

    constructor (ctx: Context, pin: StatePin)
      ensures this.ctx == ctx && this.pin == pin
      ensures tasks == [] && events == [] && !armed
    {
      this.ctx := ctx;
      this.pin := pin;
      tasks, events, armed := [], [], false;
    }

    /**
     * `exec`: a task whose `setup` raises is logged and dropped; otherwise
     * it is registered under its `NAME` and appended last.
     */
    method Exec(t: Task, setupRaises: bool)
      modifies this, ctx
      ensures setupRaises ==> tasks == old(tasks) && ctx.vars == old(ctx.vars)
      ensures !setupRaises ==> tasks == old(tasks) + [t] && ctx.vars == Register(old(ctx.vars), t)
      ensures events == old(events) && armed == old(armed)
    {
      if setupRaises {
        return;
      }
      if t.name.Some? {
        ctx.SetVar(t.name.value, Proc(t));
      }
      tasks := tasks + [t];
    }

    method RunForever()
      modifies this
      ensures armed && tasks == old(tasks) && events == old(events)
    {
      armed := true;
    }

    method Shutdown()
      modifies this
      ensures !armed && tasks == old(tasks) && events == old(events)
    {
      armed := false;
    }

    /** `_loop`, the timer callback: blink the status LED, then sweep the tasks. */
    method Tick(loop: LoopFn, clock: nat -> int)
      requires pin.Valid()
      modifies this, ctx, pin
      ensures var r := Sweep(old(tasks), 0, old(ctx.vars), loop, clock);
        tasks == r.tasks && ctx.vars == r.vars && events == old(events) + r.events
      ensures pin.Snapshot() == BlinkStep(old(pin.Snapshot())) && pin.Valid()
      ensures armed == old(armed)
    {
      pin.Blink();
      RunTasks(loop, clock);
    }

    /** The `for task in self._tasks` sweep of `_loop`. */
    method RunTasks(loop: LoopFn, clock: nat -> int)
      modifies this`tasks, this`events, ctx
      ensures var r := Sweep(old(tasks), 0, old(ctx.vars), loop, clock);
        tasks == r.tasks && ctx.vars == r.vars && events == old(events) + r.events
    {
      ghost var r := Sweep(tasks, 0, ctx.vars, loop, clock);
      ghost var e0 := events;
      var i := 0;
      while i < |tasks|
        invariant i <= |tasks| + 1
        invariant SweepsTo(tasks, i, ctx.vars, loop, clock, events, r, e0)
        decreases |tasks| + 1 - i
      {
        ghost var e1 := events;
        ghost var t1 := tasks;
        ghost var m1 := ctx.vars;
        VisitTask(i, loop, clock);
        SweepsToStep(t1, i, m1, loop, clock, e1, r, e0);
        i := i + 1;
      }
      assert Sweep(tasks, i, ctx.vars, loop, clock) == SweepResult(tasks, ctx.vars, []);
    }

    /** One pass of the `for` body: set `TICKS_MS`, call `loop`, and remove and finish a completed task. */
    method VisitTask(i: nat, loop: LoopFn, clock: nat -> int)
      requires i < |tasks|
      modifies this`tasks, this`events, ctx
      ensures var v := Visit(old(tasks), i, old(ctx.vars), loop, clock);
        tasks == v.tasks && ctx.vars == v.vars && events == old(events) + v.events
    {
      var t := tasks[i];
      ctx.SetVar(TICKS_MS, Int(clock(i)));
      var seen := ctx.vars;
      var out := loop(t, seen);
      ctx.vars := out.1;
      events := events + [Loop(t, i, seen)];
      if Completes(out.0) {
        tasks := RemoveFirst(tasks, t);
        events := events + [Finish(t)];
      }
    }
  }

  /** The indices of the tasks `k` passes of the round-robin loop run, from `start`. */
  function Schedule(start: nat, n: nat, k: nat): (s: seq<nat>)
    requires 0 < n
    ensures |s| == k
  {
    if k == 0 then [] else Schedule(start, n, k - 1) + [(start + k - 1) % n]
  }

  /** Pass `j` runs the task at `(start + j) % n`. */
  lemma {:induction false} ScheduleAt(start: nat, n: nat, k: nat)
    requires 0 < n
    ensures forall j :: 0 <= j < k ==> Schedule(start, n, k)[j] == (start + j) % n
  {
    if k > 0 {
      ScheduleAt(start, n, k - 1);
    }
  }

  /** After `j` passes from `start`: the indices run so far and the next `task_index`. */
  ghost predicate RoundRobin(ran: seq<nat>, index: nat, start: nat, n: nat, j: nat)
    requires 0 < n
  {
    ran == Schedule(start, n, j) && index == (start + j) % n
  }

  lemma RoundRobinStep(ran: seq<nat>, index: nat, start: nat, n: nat, j: nat)
    requires 0 < n && RoundRobin(ran, index, start, n, j)
    ensures RoundRobin(ran + [index], (index + 1) % n, start, n, j + 1)
  {
    ModSucc(start + j, n);
  }

  /**
   * `k` passes of `run_forever` over the tasks `ts` from index `start`:
   * the context they leave and the events they add, pass `j` running the
   * task at `(start + j) % |ts|` with `TICKS_MS` set to `clock(j)`.
   */
  function RunTrace(ts: seq<Task>, start: nat, vars: map<string, Value>, loop: LoopFn, clock: nat -> int, k: nat)
    : (r: (map<string, Value>, seq<Event>))
    requires 0 < |ts|
    ensures |r.1| == k
    decreases k
  {
    if k == 0 then (vars, [])
    else
      var prev := RunTrace(ts, start, vars, loop, clock, k - 1);
      var i := (start + k - 1) % |ts|;
      var seen := prev.0[TICKS_MS := Int(clock(k - 1))];
      (loop(ts[i], seen).1, prev.1 + [Loop(ts[i], i, seen)])
  }

  /** The event of pass `j`: a `loop` of the task at `(start + j) % |ts|`, seeing the clock's `j`-th reading. */
  ghost predicate PassEvent(ts: seq<Task>, start: nat, clock: nat -> int, j: nat, e: Event)
    requires 0 < |ts|
  {
    var i := (start + j) % |ts|;
    e.Loop? && e.at == i && e.task == ts[i] && TICKS_MS in e.seen && e.seen[TICKS_MS] == Int(clock(j))
  }

  /**
   * The trace of `k` passes is round-robin: event `j` is a `loop` of the
   * task at `(start + j) % |ts|` seeing the clock's `j`-th reading, and a
   * pass logs nothing else, whatever the task returned.
   */
  lemma RunTraceRoundRobin(ts: seq<Task>, start: nat, vars: map<string, Value>, loop: LoopFn, clock: nat -> int, k: nat)
    requires 0 < |ts|
    ensures var es := RunTrace(ts, start, vars, loop, clock, k).1;
      |es| == k && forall j :: 0 <= j < k ==> PassEvent(ts, start, clock, j, es[j])
  {
    forall j | 0 <= j < k
      ensures PassEvent(ts, start, clock, j, RunTrace(ts, start, vars, loop, clock, k).1[j])
    {
      RunTraceAt(ts, start, vars, loop, clock, k, j);
    }
  }

  lemma {:induction false} RunTraceAt(ts: seq<Task>, start: nat, vars: map<string, Value>, loop: LoopFn, clock: nat -> int, k: nat, j: nat)
    requires 0 < |ts| && j < k
    ensures PassEvent(ts, start, clock, j, RunTrace(ts, start, vars, loop, clock, k).1[j])
    decreases k
  {
    var prev := RunTrace(ts, start, vars, loop, clock, k - 1);
    if j < k - 1 {
      RunTraceAt(ts, start, vars, loop, clock, k - 1, j);
      assert RunTrace(ts, start, vars, loop, clock, k).1[j] == prev.1[j];
    }
  }

  /** Wrap-around of the task index: `(i % n + 1) % n == (i + 1) % n`. */
  lemma ModSucc(i: nat, n: nat)
    requires 0 < n
    ensures ((i % n) + 1) % n == (i + 1) % n
  {
    DivModSucc(i, n);
    var r := i % n;
    if r + 1 < n {
      DivModUnique(r + 1, n, 0, r + 1);
    } else {
      DivModUnique(r + 1, n, 1, 0);
    }
  }

  /** Two positions less than `n` apart have different remainders. */
  lemma ModDistinct(a: int, b: int, n: int)
    requires 0 <= a < b < a + n
    ensures a % n != b % n
  {
    DivModUnique(a, n, a / n, a % n);
    DivModUnique(b, n, b / n, b % n);
    var d := b / n - a / n;
    assert b % n - a % n == (b - a) - d * n;
    if d >= 1 {
      MulAtLeast(d, n);
    } else if d <= -1 {
      MulAtLeast(-d, n);
    }
  }

  /**
   * Fairness: any `n` consecutive passes over `n` tasks run each task
   * exactly once.
   */
  lemma ScheduleFair(start: nat, n: nat)
    requires 0 < n
    ensures var s := Schedule(start, n, n);
      (forall t :: 0 <= t < n ==> t in s) &&
      (forall j, j' :: 0 <= j < j' < n ==> s[j] != s[j'])
  {
    var s := Schedule(start, n, n);
    ScheduleAt(start, n, n);
    forall j, j' | 0 <= j < j' < n
      ensures s[j] != s[j']
    {
      ModDistinct(start + j, start + j', n);
    }
    forall t | 0 <= t < n
      ensures t in s
    {
      var q := start / n;
      var r := start % n;
      DivModUnique(start, n, q, r);
      var j := if t >= r then t - r else t - r + n;
      if t >= r {
        assert start + j == q * n + t;
        DivModUnique(start + j, n, q, t);
      } else {
        assert start + j == (q + 1) * n + t;
        DivModUnique(start + j, n, q + 1, t);
      }
      assert s[j] == t;
    }
  }

  /** `SuspendOSKernel`: a task list run one task per pass while `running`. */
  class SuspendKernel {
    const ctx: Context
    var tasks: seq<Task>
    var running: bool
    /** `task_index` of `run_forever`. */
    var index: nat
    var events: seq<Event>

    predicate Valid()
      reads this
    {
      index == 0 || index < |tasks|
    }

    constructor (ctx: Context)
      ensures this.ctx == ctx && Valid()
      ensures tasks == [] && !running && index == 0 && events == []
    {
      this.ctx := ctx;
      tasks, running, index, events := [], false, 0, [];
    }

    method SetupOs()
      modifies this
      ensures running && tasks == old(tasks) && index == old(index) && events == old(events)
    {
      running := true;
    }

    /** `shutdown`: the `while self.running` loop leaves at its next test. */
    method Shutdown()
      modifies this
      ensures !running && tasks == old(tasks) && index == old(index) && events == old(events)
    {
      running := false;
    }

    /**
     * `exec`: the task is appended before `setup` runs, so a `setup` that
     * raises leaves it in the list, unregistered, and the error reaches the
     * caller.
     */
    method Exec(t: Task, setupRaises: bool) returns (r: Result<()>)
      requires Valid()
      modifies this, ctx
      ensures Valid() && tasks == old(tasks) + [t]
      ensures setupRaises ==> r.Err? && ctx.vars == old(ctx.vars)
      ensures !setupRaises ==> r.Ok? && ctx.vars == Register(old(ctx.vars), t)
      ensures running == old(running) && index == old(index) && events == old(events)
    {
      tasks := tasks + [t];
      if setupRaises {
        return Err("setup raised");
      }
      if t.name.Some? {
        ctx.SetVar(t.name.value, Proc(t));
      }
      r := Ok(());
    }

    /** The start of `run_forever`: `task_index = 0`. */
    method BeginRun()
      modifies this
      ensures index == 0 && Valid()
      ensures tasks == old(tasks) && running == old(running) && events == old(events)
    {
      index := 0;
    }

    /**
     * One pass of the `while self.running` loop: with no tasks, or once
     * stopped, nothing happens; otherwise the task at `task_index` runs on
     * the context with `TICKS_MS` set, whatever its outcome, and the index
     * moves on modulo the number of tasks.
     */
    method Step(loop: LoopFn, now: int) returns (ran: Option<nat>)
      requires Valid()
      modifies this`index, this`events, ctx
      ensures Valid()
      ensures !running || |tasks| == 0 ==>
                ran.None? && index == old(index) && ctx.vars == old(ctx.vars) && events == old(events)
      ensures running && |tasks| > 0 ==>
                ran == Some(old(index)) && index == (old(index) + 1) % |tasks| && |events| == |old(events)| + 1
      ensures running && |tasks| > 0 ==> old(index) < |tasks| && Ran(old(index), old(ctx.vars), old(events), loop, now)
    {
      if !running || |tasks| == 0 {
        return None;
      }
      var t := tasks[index];
      ctx.SetVar(TICKS_MS, Int(now));
      var seen := ctx.vars;
      var out := loop(t, seen);
      ctx.vars := out.1;
      events := events + [Loop(t, index, seen)];
      ran := Some(index);
      index := (index + 1) % |tasks|;
    }

    /**
     * The effect of running the task at position `i` with the clock reading
     * `now`: the context it leaves, and one `loop` event on the context it saw.
     */
    ghost predicate Ran(i: nat, vars: map<string, Value>, es: seq<Event>, loop: LoopFn, now: int)
      requires i < |tasks|
      reads this, ctx
    {
      var seen := vars[TICKS_MS := Int(now)];
      ctx.vars == loop(tasks[i], seen).1 && events == es + [Loop(tasks[i], i, seen)]
    }

    /**
     * What `j` passes from index `start`, context `vars` and trace `es`
     * have done: nothing when stopped or without tasks, otherwise the
     * round-robin schedule, with the context and events of `RunTrace`.
     */
    ghost predicate Passes(ran: seq<nat>, start: nat, vars: map<string, Value>, es: seq<Event>, loop: LoopFn, clock: nat -> int, j: nat)
      reads this, ctx
    {
      if running && |tasks| > 0 then
        var r := RunTrace(tasks, start, vars, loop, clock, j);
        RoundRobin(ran, index, start, |tasks|, j) && ctx.vars == r.0 && events == es + r.1
      else ran == [] && index == start && ctx.vars == vars && events == es
    }

    /** `k` passes of `run_forever`'s loop, pass `j` reading the clock as `clock(j)`. */
    method Run(loop: LoopFn, clock: nat -> int, k: nat) returns (ran: seq<nat>)
      requires Valid()
      modifies this`index, this`events, ctx
      ensures Valid()
      ensures !running || |tasks| == 0 ==>
                ran == [] && index == old(index) && ctx.vars == old(ctx.vars) && events == old(events)
      ensures running && |tasks| > 0 ==>
                var r := RunTrace(tasks, old(index), old(ctx.vars), loop, clock, k);
                RoundRobin(ran, index, old(index), |tasks|, k) && ctx.vars == r.0 && events == old(events) + r.1
    {
      ran := [];
      ghost var start := index;
      ghost var vars := ctx.vars;
      ghost var e0 := events;
      var j := 0;
      while j < k
        invariant 0 <= j <= k && Valid()
        invariant Passes(ran, start, vars, e0, loop, clock, j)
      {
        ran := Pass(loop, clock, start, vars, e0, j, ran);
        j := j + 1;
      }
      assert Passes(ran, start, vars, e0, loop, clock, k);
    }

    /** One pass of `Run`, adding the index it ran to `ran`. */
    method Pass(loop: LoopFn, clock: nat -> int, ghost start: nat, ghost vars: map<string, Value>, ghost e0: seq<Event>,
                j: nat, ran: seq<nat>) returns (ran': seq<nat>)
      requires Valid() && Passes(ran, start, vars, e0, loop, clock, j)
      modifies this`index, this`events, ctx
      ensures Valid() && Passes(ran', start, vars, e0, loop, clock, j + 1)
    {
      ghost var i0 := index;
      var r := Step(loop, clock(j));
      ran' := ran;
      if r.Some? {
        RoundRobinStep(ran, i0, start, |tasks|, j);
        ran' := ran + [r.value];
      }
    }
  }
}
