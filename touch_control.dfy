/** Decoding of a control event into the one shell input command it injects
    (TouchControlService.java). The foreign `Runtime.exec` call is replaced by
    returning the command; `FormatCommand` gives the exact command line. */
module TouchControl {

  import opened Base
  import opened ControlEvents
  import Decimal

  /** The shell input commands the service can issue. A long click is a
      swipe that stays on one point for 1000 ms, as the source sends it. */
  datatype Command =
    | KeyEvent(keyCode: Int32)
    | Tap(x: Int32, y: Int32)
    | Swipe(startX: Int32, startY: Int32, endX: Int32, endY: Int32, duration: Int32)

  const LONG_CLICK_DURATION: Int32 := 1000
  const DEFAULT_SWIPE_DURATION: Int32 := 500

  /** `handleSpecialKey`. */
  function HandleSpecialKey(keyCode: Int32): (c: Command)
    ensures c.KeyEvent? && c.keyCode == keyCode
  {
    KeyEvent(keyCode)
  }

  /** `handleTouch`: click, long click or a swipe with both end coordinates;
      anything else (including a null type and a swipe missing an end
      coordinate) issues nothing. */
  function HandleTouch(e: ControlEvent): (r: Option<Command>)
    ensures e.eventType == Some("click") ==> r == Some(Tap(JavaIntCast(e.x), JavaIntCast(e.y)))
    ensures e.eventType == Some("long_click") ==>
      r == Some(Swipe(JavaIntCast(e.x), JavaIntCast(e.y), JavaIntCast(e.x), JavaIntCast(e.y), LONG_CLICK_DURATION))
    ensures e.eventType == Some("swipe") && e.endX.Some? && e.endY.Some? ==>
      r == Some(Swipe(JavaIntCast(e.x), JavaIntCast(e.y), JavaIntCast(e.endX.value), JavaIntCast(e.endY.value),
                      e.duration.GetOr(DEFAULT_SWIPE_DURATION)))
    ensures r.None? <==>
      e.eventType !in {Some("click"), Some("long_click"), Some("swipe")} ||
      (e.eventType == Some("swipe") && (e.endX.None? || e.endY.None?))
  {
    var x, y := JavaIntCast(e.x), JavaIntCast(e.y);
    if e.eventType == Some("click") then
      Some(Tap(x, y))
    else if e.eventType == Some("long_click") then
      Some(Swipe(x, y, x, y, LONG_CLICK_DURATION))
    else if e.eventType == Some("swipe") && e.endX.Some? && e.endY.Some? then
      Some(Swipe(x, y, JavaIntCast(e.endX.value), JavaIntCast(e.endY.value), e.duration.GetOr(DEFAULT_SWIPE_DURATION)))
    else
      None
  }

  /** `handleControlEvent`: a special-key event becomes a key event whatever
      its type; every other event is decoded as a touch. */
  function HandleControlEvent(e: ControlEvent): (r: Option<Command>)
    ensures IsSpecialKey(e) ==> r == Some(KeyEvent(SpecialKeyCode(e)))
    ensures !IsSpecialKey(e) ==> r == HandleTouch(e)
  {
    if IsSpecialKey(e) then Some(HandleSpecialKey(SpecialKeyCode(e))) else HandleTouch(e)
  }

  // ---- Properties of the decoding ----

  /** A sentinel pair decodes to its key whatever the type tag says; an
      unmapped negative pair still decodes, to `keyevent -1`. */
  lemma SpecialKeyIgnoresType(e: ControlEvent, t: Option<string>)
    requires IsSpecialKey(e)
    ensures HandleControlEvent(e) == HandleControlEvent(e.(eventType := t))
    ensures HandleControlEvent(e).Some? && HandleControlEvent(e).value.KeyEvent?
    ensures e.x != e.y ==> HandleControlEvent(e) == Some(KeyEvent(NO_KEY))
  {
  }

  /** A click at non-negative pixel coordinates taps exactly there (truncated). */
  lemma ClickTapsAtPoint(e: ControlEvent)
    requires e.eventType == Some("click") && e.x >= 0.0 && e.y >= 0.0
    ensures HandleControlEvent(e) == Some(Tap(JavaIntCast(e.x), JavaIntCast(e.y)))
    ensures e.x < (INT32_MAX + 1) as real && e.y < (INT32_MAX + 1) as real ==>
      HandleControlEvent(e) == Some(Tap(e.x.Floor, e.y.Floor))
  {
  }

  /** A swipe without both end coordinates is dropped, never turned into a tap. */
  lemma SwipeWithoutEndIsDropped(e: ControlEvent)
    requires e.eventType == Some("swipe") && (e.endX.None? || e.endY.None?)
    ensures !IsSpecialKey(e) ==> HandleControlEvent(e).None?
    ensures forall c :: HandleControlEvent(e) == Some(c) ==> c.KeyEvent?
  {
  }

  /** A long click starts and ends on the same point and lasts 1000 ms. */
  lemma LongClickHoldsStill(e: ControlEvent)
    requires e.eventType == Some("long_click") && !IsSpecialKey(e)
    ensures HandleControlEvent(e).Some? && HandleControlEvent(e).value.Swipe?
    ensures var c := HandleControlEvent(e).value;
      c.startX == c.endX && c.startY == c.endY && c.duration == LONG_CLICK_DURATION
  {
  }

  /** Every event that is not special issues a command only for the three touch kinds. */
  lemma OnlyTouchKindsIssueCommands(e: ControlEvent)
    requires !IsSpecialKey(e) && HandleControlEvent(e).Some?
    ensures e.eventType in {Some("click"), Some("long_click"), Some("swipe")}
    ensures HandleControlEvent(e).value.Tap? <==> e.eventType == Some("click")
  {
  }

  // ---- Command text ----

  /** The words of the command line `String.format` builds. */
  function Words(c: Command): seq<string> {
    match c
    case KeyEvent(k) => ["input", "keyevent", Decimal.IntToString(k)]
    case Tap(x, y) => ["input", "tap", Decimal.IntToString(x), Decimal.IntToString(y)]
    case Swipe(x1, y1, x2, y2, d) =>
      ["input", "swipe", Decimal.IntToString(x1), Decimal.IntToString(y1),
       Decimal.IntToString(x2), Decimal.IntToString(y2), Decimal.IntToString(d)]
  }

  /** Words joined by single spaces. */
  function Unwords(ws: seq<string>): string
    requires |ws| >= 1
  {
    if |ws| == 1 then ws[0] else ws[0] + " " + Unwords(ws[1..])
  }

  /** The command line handed to the shell: `input tap %d %d`,
      `input swipe %d %d %d %d %d` or `input keyevent %d`. It starts with
      `input `, and splitting it at its spaces gives back exactly its words. */
  function FormatCommand(c: Command): (r: string)
    ensures |r| > 6 && r[..6] == "input "
    ensures Split(r) == Words(c)
  {
    WordsHaveNoSpace(c);
    SplitUnwords(Words(c));
    var ws := Words(c);
    assert Unwords(ws) == "input" + " " + Unwords(ws[1..]);
    Unwords(ws)
  }

  /** Split at every space (adjacent spaces give empty words). */
  function Split(s: string): (r: seq<string>)
    ensures |r| >= 1
  {
    if s == [] then [[]]
    else
      var rest := Split(s[1..]);
      if s[0] == ' ' then [[]] + rest else [[s[0]] + rest[0]] + rest[1..]
  }

  function ParseInt32(w: string): Option<Int32> {
    match Decimal.ParseInt(w)
    case Some(n) => if INT32_MIN <= n <= INT32_MAX then Some(n) else None
    case None => None
  }

  /** Reads the words of a command line back into the command they name. */
  function ParseWords(ws: seq<string>): Option<Command> {
    if |ws| == 3 && ws[0] == "input" && ws[1] == "keyevent" then
      match ParseInt32(ws[2])
      case Some(k) => Some(KeyEvent(k))
      case None => None
    else if |ws| == 4 && ws[0] == "input" && ws[1] == "tap" then
      match (ParseInt32(ws[2]), ParseInt32(ws[3]))
      case (Some(x), Some(y)) => Some(Tap(x, y))
      case _ => None
    else if |ws| == 7 && ws[0] == "input" && ws[1] == "swipe" then
      match (ParseInt32(ws[2]), ParseInt32(ws[3]), ParseInt32(ws[4]), ParseInt32(ws[5]), ParseInt32(ws[6]))
      case (Some(x1), Some(y1), Some(x2), Some(y2), Some(d)) => Some(Swipe(x1, y1, x2, y2, d))
      case _ => None
    else None
  }

  /** Reads a command line back into the command it names. */
  function ParseCommand(s: string): Option<Command> {
    ParseWords(Split(s))
  }

  lemma {:induction false} SplitWordThenSpace(w: string, t: string)
    requires ' ' !in w
    ensures Split(w + " " + t) == [w] + Split(t)
    decreases |w|
  {
    if w == [] {
      assert w + " " + t == " " + t;
      assert (" " + t)[1..] == t;
    } else {
      var s := w + " " + t;
      assert s[0] == w[0] && s[1..] == w[1..] + " " + t;
      SplitWordThenSpace(w[1..], t);
      assert [w[0]] + w[1..] == w;
    }
  }

  lemma {:induction false} SplitWord(w: string)
    requires ' ' !in w
    ensures Split(w) == [w]
    decreases |w|
  {
    if w != [] {
      SplitWord(w[1..]);
      assert [w[0]] + w[1..] == w;
    }
  }

  lemma {:induction false} SplitUnwords(ws: seq<string>)
    requires |ws| >= 1
    requires forall i :: 0 <= i < |ws| ==> ' ' !in ws[i]
    ensures Split(Unwords(ws)) == ws
    decreases |ws|
  {
    if |ws| == 1 {
      SplitWord(ws[0]);
    } else {
      SplitUnwords(ws[1..]);
      SplitWordThenSpace(ws[0], Unwords(ws[1..]));
      assert [ws[0]] + ws[1..] == ws;
    }
  }

  lemma NumberHasNoSpace(n: int)
    ensures ' ' !in Decimal.IntToString(n)
    ensures ParseInt32(Decimal.IntToString(n)) == (if INT32_MIN <= n <= INT32_MAX then Some(n) else None)
  {
    Decimal.IntRoundTrip(n);
  }

  /** The fixed words of a command line contain no space; a helper of
      `WordsHaveNoSpace`. */
  lemma KeywordsHaveNoSpace()
    ensures ' ' !in "input" && ' ' !in "keyevent" && ' ' !in "tap" && ' ' !in "swipe"
  {
  }

  /** Every word of a command line is free of spaces. */
  lemma WordsHaveNoSpace(c: Command)
    ensures forall i :: 0 <= i < |Words(c)| ==> ' ' !in Words(c)[i]
  {
    KeywordsHaveNoSpace();
    match c
    case KeyEvent(k) =>
      NumberHasNoSpace(k);
    case Tap(x, y) =>
      NumberHasNoSpace(x); NumberHasNoSpace(y);
    case Swipe(x1, y1, x2, y2, d) =>
      NumberHasNoSpace(x1); NumberHasNoSpace(y1); NumberHasNoSpace(x2); NumberHasNoSpace(y2);
      NumberHasNoSpace(d);
  }

  lemma SwipeWordsRoundTrip(x1: Int32, y1: Int32, x2: Int32, y2: Int32, d: Int32)
    ensures ParseWords(Words(Swipe(x1, y1, x2, y2, d))) == Some(Swipe(x1, y1, x2, y2, d))
  {
    NumberHasNoSpace(x1); NumberHasNoSpace(y1); NumberHasNoSpace(x2); NumberHasNoSpace(y2);
    NumberHasNoSpace(d);
    var ws := Words(Swipe(x1, y1, x2, y2, d));
    assert |ws| == 7 && ws[0] == "input" && ws[1] == "swipe";
  }

  /** The words of a command read back as that command. */
  lemma WordsRoundTrip(c: Command)
    ensures forall i :: 0 <= i < |Words(c)| ==> ' ' !in Words(c)[i]
    ensures ParseWords(Words(c)) == Some(c)
  {
    WordsHaveNoSpace(c);
    match c
    case KeyEvent(k) =>
      NumberHasNoSpace(k);
    case Tap(x, y) =>
      NumberHasNoSpace(x); NumberHasNoSpace(y);
    case Swipe(x1, y1, x2, y2, d) =>
      SwipeWordsRoundTrip(x1, y1, x2, y2, d);
  }

  /** The command line names the command unambiguously: parsing it gives back
      the command. */
  lemma FormatRoundTrip(c: Command)
    ensures ParseCommand(FormatCommand(c)) == Some(c)
  {
    WordsRoundTrip(c);
  }

  /** The shell command an event causes, if any. */
  function ShellCommand(e: ControlEvent): (r: Option<string>)
    ensures r.Some? <==> HandleControlEvent(e).Some?
    ensures r.Some? ==> ParseCommand(r.value) == HandleControlEvent(e)
  {
    match HandleControlEvent(e)
    case Some(c) => FormatRoundTrip(c); Some(FormatCommand(c))
    case None => None
  }
}
