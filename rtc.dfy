/**
 * `RTCHelper` of `workSpace/rtc.py`: the real-time clock, seen as one stored
 * 8-tuple, and the `%d-%d-%d %d:%d:%d` text form of its time with a parser.
 *
 * The parser follows MicroPython's `re` module: `\d` is an ASCII digit, `\s`
 * one of the six ASCII white-space characters and `$` the end of the input.
 */
module Rtc {
  import opened Wrappers
  import opened Decimal

  /** The tuple `machine.RTC.datetime()` stores: weekday at 3, sub-seconds at 7. */
  datatype DateTime8 = DateTime8(year: int, month: int, day: int, weekday: int,
                                 hour: int, minute: int, second: int, subsecond: int)

  /** `(year, month, day, hour, minute, second)`. */
  datatype Time6 = Time6(year: int, month: int, day: int, hour: int, minute: int, second: int)

  predicate NonNegative(t: Time6) {
    t.year >= 0 && t.month >= 0 && t.day >= 0 && t.hour >= 0 && t.minute >= 0 && t.second >= 0
  }

  /** Fields 0, 1, 2, 4, 5 and 6 of the stored tuple. */
  function Tuple6Of(d: DateTime8): Time6 {
    Time6(d.year, d.month, d.day, d.hour, d.minute, d.second)
  }

  /** The RTC peripheral with its stored tuple and the static helpers that use it. */
  class RtcHelper {
    var datetime: DateTime8

    constructor (initial: DateTime8)
      ensures datetime == initial
    {
      datetime := initial;
    }

    /** `set_time`: weekday and microsecond default to 0. */
    method SetTime(year: int, month: int, dayOfMonth: int, hour: int, minute: int, second: int,
                   microsecond: int := 0, week: int := 0)
      modifies this
      ensures datetime == DateTime8(year, month, dayOfMonth, week, hour, minute, second, microsecond)
      ensures CurrentTimeTuple6() == Time6(year, month, dayOfMonth, hour, minute, second)
    {
      datetime := DateTime8(year, month, dayOfMonth, week, hour, minute, second, microsecond);
    }

    function CurrentTime(): DateTime8
      reads this
    {
      datetime
    }

    function CurrentTimeTuple6(): Time6
      reads this
    {
      Tuple6Of(CurrentTime())
    }

    /** `current_time_as_string`; for a clock with no negative field, `parse` reads it back. */
    function CurrentTimeAsString(): (s: string)
      reads this
      ensures NonNegative(CurrentTimeTuple6()) ==> Parse(s) == Some(CurrentTimeTuple6())
    {
      var t := CurrentTimeTuple6();
      if NonNegative(t) then ParseFormat(t); Format(t) else Format(t)
    }
  }

  /** The tuple read back ignores the weekday and the sub-seconds that were stored. */
  lemma Tuple6IgnoresWeekdayAndSubsecond(d: DateTime8, week: int, subsecond: int)
    ensures Tuple6Of(d.(weekday := week, subsecond := subsecond)) == Tuple6Of(d)
  {
  }

  /**
   * The text layout `<a>-<b>-<c><w><d>:<e>:<f>` of the template and of the
   * regular expression, grouped to the right.
   */
  function Shape(a: string, b: string, c: string, w: char, d: string, e: string, f: string): string {
    a + ("-" + (b + ("-" + (c + ([w] + (d + (":" + (e + (":" + f)))))))))
  }

  /** `'%d-%d-%d %d:%d:%d' % t`: unpadded decimal fields. */
  function Format(t: Time6): string {
    Shape(OfInt(t.year), OfInt(t.month), OfInt(t.day), ' ',
          OfInt(t.hour), OfInt(t.minute), OfInt(t.second))
  }

  /** A `(\d+)` group. */
  predicate IsGroup(s: string) {
    |s| > 0 && AllDigits(s)
  }

  /** `\s` in MicroPython: space, tab, line feed, carriage return, vertical tab, form feed. */
  predicate IsSpace(c: char) {
    c == ' ' || c == '\t' || c == '\n' || c == '\r' || c as int == 11 || c as int == 12
  }

  /** The length of the longest run of digits at the start of `s`. */
  function DigitRun(s: string): (n: nat)
    ensures n <= |s| && AllDigits(s[..n])
    ensures n < |s| ==> !IsDigit(s[n])
  {
    if s == [] || !IsDigit(s[0]) then 0
    else
      var n := 1 + DigitRun(s[1..]);
      assert s[..n] == [s[0]] + s[1..][..n - 1];
      n
  }

  /** Matches `(\d+)` at the start of `s`: the group's value and the rest of the text. */
  function Group(s: string): Option<(nat, string)> {
    var n := DigitRun(s);
    if n == 0 then None else Some((ValueOf(s[..n]), s[n..]))
  }

  /** Matches the literal character `c` at the start of `s`. */
  function Literal(s: string, c: char): Option<string> {
    if s != [] && s[0] == c then Some(s[1..]) else None
  }

  /** Matches `\s` at the start of `s`. */
  function Space(s: string): Option<string> {
    if s != [] && IsSpace(s[0]) then Some(s[1..]) else None
  }

  /** Matches `(\d+)<sep>(\d+)<sep>(\d+)` at the start of `s`: the three values and the rest. */
  function Groups3(s: string, sep: char): Option<(nat, nat, nat, string)> {
    var g1 :- Group(s);
    var r1 :- Literal(g1.1, sep);
    var g2 :- Group(r1);
    var r2 :- Literal(g2.1, sep);
    var g3 :- Group(r2);
    Some((g1.0, g2.0, g3.0, g3.1))
  }

  /**
   * `parse`: `^(\d+)-(\d+)-(\d+)\s(\d+):(\d+):(\d+)$`, each group read by
   * `int`. A group is greedy; since the character after it is never a digit,
   * the longest run is the only one the expression can match.
   */
  function Parse(s: string): Option<Time6> {
    var date :- Groups3(s, '-');
    var r :- Space(date.3);
    var clock :- Groups3(r, ':');
    if clock.3 != [] then None
    else Some(Time6(date.0, date.1, date.2, clock.0, clock.1, clock.2))
  }

  /** A group followed by text that does not start with a digit is read whole. */
  lemma GroupOf(a: string, rest: string)
    requires IsGroup(a)
    requires rest != [] ==> !IsDigit(rest[0])
    ensures Group(a + rest) == Some((ValueOf(a), rest))
  {
    var s := a + rest;
    DigitRunOf(a, rest);
    assert s[..|a|] == a && s[|a|..] == rest;
  }

  /** The digit run of a digit string followed by a non-digit is that string. */
  lemma {:induction false} DigitRunOf(a: string, rest: string)
    requires AllDigits(a)
    requires rest != [] ==> !IsDigit(rest[0])
    ensures DigitRun(a + rest) == |a|
    decreases |a|
  {
    if a != [] {
      assert (a + rest)[1..] == a[1..] + rest;
      DigitRunOf(a[1..], rest);
    } else {
      assert a + rest == rest;
    }
  }

  /** Three groups with their separators, followed by text that does not start with a digit. */
  lemma Groups3Of(a: string, b: string, c: string, sep: char, rest: string)
    requires IsGroup(a) && IsGroup(b) && IsGroup(c) && !IsDigit(sep)
    requires rest != [] ==> !IsDigit(rest[0])
    ensures Groups3(a + ([sep] + (b + ([sep] + (c + rest)))), sep) ==
            Some((ValueOf(a), ValueOf(b), ValueOf(c), rest))
  {
    var t2 := [sep] + (c + rest);
    var t1 := [sep] + (b + t2);
    GroupOf(c, rest);
    GroupOf(b, t2);
    GroupOf(a, t1);
    assert Literal(t1, sep) == Some(b + t2);
    assert Literal(t2, sep) == Some(c + rest);
  }

  /** Every text of the expected shape is accepted, each group giving its decimal value. */
  lemma ParseOfShape(a: string, b: string, c: string, w: char, d: string, e: string, f: string)
    requires IsGroup(a) && IsGroup(b) && IsGroup(c) && IsGroup(d) && IsGroup(e) && IsGroup(f)
    requires IsSpace(w)
    ensures Parse(Shape(a, b, c, w, d, e, f)) ==
      Some(Time6(ValueOf(a), ValueOf(b), ValueOf(c), ValueOf(d), ValueOf(e), ValueOf(f)))
  {
    var clock := d + (":" + (e + (":" + f)));
    Groups3Of(d, e, f, ':', "");
    assert f + "" == f;
    Groups3Of(a, b, c, '-', [w] + clock);
  }

  /** Splits off the group that `Group` matches. */
  lemma TakeGroup(s: string) returns (g: string, rest: string)
    requires Group(s).Some?
    ensures IsGroup(g) && s == g + rest && Group(s) == Some((ValueOf(g), rest))
    ensures rest != [] ==> !IsDigit(rest[0])
  {
    var n := DigitRun(s);
    g, rest := s[..n], s[n..];
    assert s == g + rest;
  }

  /** Splits off the three groups that `Groups3` matches. */
  lemma TakeGroups3(s: string, sep: char) returns (a: string, b: string, c: string, rest: string)
    requires Groups3(s, sep).Some?
    ensures IsGroup(a) && IsGroup(b) && IsGroup(c)
    ensures s == a + ([sep] + (b + ([sep] + (c + rest))))
    ensures Groups3(s, sep) == Some((ValueOf(a), ValueOf(b), ValueOf(c), rest))
  {
    var t: string;
    a, t := TakeGroup(s);
    assert t == [sep] + t[1..];
    b, t := TakeGroup(t[1..]);
    assert t == [sep] + t[1..];
    c, rest := TakeGroup(t[1..]);
  }

  /** Only texts of the expected shape are accepted; the result is the groups' values. */
  lemma ParseSound(s: string) returns (a: string, b: string, c: string, w: char, d: string, e: string, f: string)
    requires Parse(s).Some?
    ensures IsGroup(a) && IsGroup(b) && IsGroup(c) && IsGroup(d) && IsGroup(e) && IsGroup(f)
    ensures IsSpace(w)
    ensures s == Shape(a, b, c, w, d, e, f)
    ensures Parse(s) ==
      Some(Time6(ValueOf(a), ValueOf(b), ValueOf(c), ValueOf(d), ValueOf(e), ValueOf(f)))
  {
    var date, r, clock := ParseSteps(s);
    var rest: string;
    a, b, c, rest := TakeGroups3(s, '-');
    w := rest[0];
    assert rest == [w] + r;
    d, e, f, rest := TakeGroups3(r, ':');
    ShapeOf(s, a, b, c, w, d, e, f, r);
  }

  /** The three matches that `parse` makes on an accepted text. */
  lemma ParseSteps(s: string) returns (date: (nat, nat, nat, string), r: string, clock: (nat, nat, nat, string))
    requires Parse(s).Some?
    ensures Groups3(s, '-') == Some(date) && Space(date.3) == Some(r)
    ensures Groups3(r, ':') == Some(clock) && clock.3 == []
    ensures Parse(s) == Some(Time6(date.0, date.1, date.2, clock.0, clock.1, clock.2))
  {
    date := Groups3(s, '-').value;
    r := Space(date.3).value;
    clock := Groups3(r, ':').value;
  }

  /** Reassembles the text from the groups, the separators and the space. */
  lemma ShapeOf(s: string, a: string, b: string, c: string, w: char, d: string, e: string, f: string, r: string)
    requires s == a + ("-" + (b + ("-" + (c + ([w] + r)))))
    requires r == d + (":" + (e + (":" + (f + []))))
    ensures s == Shape(a, b, c, w, d, e, f)
  {
    assert f + [] == f;
  }

  /** `parse(format(t)) == t` for every tuple with no negative field. */
  lemma ParseFormat(t: Time6)
    requires NonNegative(t)
    ensures Parse(Format(t)) == Some(t)
  {
    ParseOfShape(OfInt(t.year), OfInt(t.month), OfInt(t.day), ' ',
                 OfInt(t.hour), OfInt(t.minute), OfInt(t.second));
    ValueOfNat(t.year);
    ValueOfNat(t.month);
    ValueOfNat(t.day);
    ValueOfNat(t.hour);
    ValueOfNat(t.minute);
    ValueOfNat(t.second);
  }
}
