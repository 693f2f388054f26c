/** One inbound remote-input command (ControlEvent.java): a `type` tag, a
    primary coordinate pair, an optional end point and duration, and a
    timestamp. Java `double` coordinates are idealised as reals. */
module ControlEvents {

  import opened Base

  const INT64_MIN: int := -0x8000_0000_0000_0000
  const INT64_MAX: int := 0x7FFF_FFFF_FFFF_FFFF

  /** Java `long`. */
  type Int64 = x: int | INT64_MIN <= x <= INT64_MAX

  /** Android key codes the sentinel coordinate pairs stand for. */
  const KEYCODE_BACK: int := 4
  const KEYCODE_HOME: int := 3
  const KEYCODE_MENU: int := 82
  /** What `getSpecialKeyCode` answers for any pair that is not a sentinel. */
  const NO_KEY: int := -1

  /** The fields of ControlEvent; `None` is a Java null (the boxed `Double`,
      `Integer` and the `String` type). */
  datatype ControlEvent = ControlEvent(
    eventType: Option<string>,
    x: real,
    y: real,
    endX: Option<real>,
    endY: Option<real>,
    duration: Option<Int32>,
    timestamp: Int64)

  /** The no-argument constructor: every reference null, every primitive zero. */
  function EmptyEvent(): (e: ControlEvent)
    ensures e.eventType.None? && e.endX.None? && e.endY.None? && e.duration.None?
    ensures e.x == 0.0 && e.y == 0.0 && e.timestamp == 0
  {
    ControlEvent(None, 0.0, 0.0, None, None, None, 0)
  }

  /** The four-argument constructor: sets type, x, y and timestamp; the end
      point and the duration stay null. */
  function NewEvent(eventType: string, x: real, y: real, timestamp: Int64): (e: ControlEvent)
    ensures e.eventType == Some(eventType) && e.x == x && e.y == y && e.timestamp == timestamp
    ensures e.endX.None? && e.endY.None? && e.duration.None?
  {
    ControlEvent(Some(eventType), x, y, None, None, None, timestamp)
  }

  /** `isSpecialKey`: both coordinates negative. The three key sentinels are
      special keys; a point with a non-negative coordinate, anywhere on the
      screen, is not. */
  predicate IsSpecialKey(e: ControlEvent): (b: bool)
    ensures (e.x == -1.0 && e.y == -1.0) || (e.x == -2.0 && e.y == -2.0) || (e.x == -3.0 && e.y == -3.0) ==> b
    ensures e.x >= 0.0 || e.y >= 0.0 ==> !b
  {
    e.x < 0.0 && e.y < 0.0
  }

  /** `getSpecialKeyCode`: the three diagonal sentinels (-1,-1), (-2,-2) and
      (-3,-3) name BACK, HOME and MENU; every other pair answers -1. */
  function SpecialKeyCode(e: ControlEvent): (k: int)
    ensures k in {KEYCODE_BACK, KEYCODE_HOME, KEYCODE_MENU, NO_KEY}
    ensures k == KEYCODE_BACK <==> e.x == -1.0 && e.y == -1.0
    ensures k == KEYCODE_HOME <==> e.x == -2.0 && e.y == -2.0
    ensures k == KEYCODE_MENU <==> e.x == -3.0 && e.y == -3.0
    ensures k != NO_KEY ==> IsSpecialKey(e)
  {
    if e.x == -1.0 && e.y == -1.0 then KEYCODE_BACK
    else if e.x == -2.0 && e.y == -2.0 then KEYCODE_HOME
    else if e.x == -3.0 && e.y == -3.0 then KEYCODE_MENU
    else NO_KEY
  }

  /** A negative pair off the diagonal, such as (-1,-2), is a special key
      whose code is -1. */
  lemma UnmappedNegativePair(e: ControlEvent)
    requires e.x < 0.0 && e.y < 0.0 && e.x != e.y
    ensures IsSpecialKey(e) && SpecialKeyCode(e) == NO_KEY
  {
  }

  /** Truncation toward zero, the rounding of Java's `(int)` on a double
      (Dafny's `Floor` rounds toward minus infinity). */
  function TruncateTowardZero(r: real): (n: int)
    ensures r >= 0.0 ==> n as real <= r < n as real + 1.0
    ensures r < 0.0 ==> n as real - 1.0 < r <= n as real
  {
    if r >= 0.0 then r.Floor else -((-r).Floor)
  }

  /** Java's `(int)` cast of a non-NaN double: truncate toward zero, then
      saturate at the bounds of `int`. */
  function JavaIntCast(r: real): (n: Int32)
    ensures (INT32_MIN - 1) as real < r < (INT32_MAX + 1) as real ==> n == TruncateTowardZero(r)
    ensures r >= (INT32_MAX + 1) as real ==> n == INT32_MAX
    ensures r <= (INT32_MIN - 1) as real ==> n == INT32_MIN
  {
    var t := TruncateTowardZero(r);
    if t > INT32_MAX then INT32_MAX else if t < INT32_MIN then INT32_MIN else t
  }
}
