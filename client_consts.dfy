/**
 * The constants shared by the forms of the web client
 * (web/src/consts/validation.js): length bounds, the hex-colour
 * pattern, the event types and the default calendar colour.
 */
module ClientConsts {
  import opened Wrappers

  /** An inclusive length range `{ min, max }`. */
  datatype Bounds = Bounds(min: nat, max: nat) {
    predicate Contains(n: nat) { min <= n <= max }
  }

  const LoginLength := Bounds(4, 20)
  const PasswordLength := Bounds(8, 20)
  const EventNameLength := Bounds(5, 20)
  const CalendarNameLength := Bounds(5, 100)

  lemma LengthBoundsAreRanges()
    ensures LoginLength.min <= LoginLength.max && LoginLength == Bounds(4, 20)
    ensures PasswordLength.min <= PasswordLength.max && PasswordLength == Bounds(8, 20)
    ensures EventNameLength.min <= EventNameLength.max && EventNameLength == Bounds(5, 20)
    ensures CalendarNameLength.min <= CalendarNameLength.max && CalendarNameLength == Bounds(5, 100)
  {
  }

  // ---------------------------------------------------------------------------
  // COLOR_PATTERN = /^#([a-fA-F0-9]{6}|[a-fA-F0-9]{3})$/
  // ---------------------------------------------------------------------------

  /** The character class `[a-fA-F0-9]`. */
  predicate IsHexDigit(c: char) {
    'a' <= c <= 'f' || 'A' <= c <= 'F' || '0' <= c <= '9'
  }

  /** `[a-fA-F0-9]{n}` matching the whole of `s`. */
  predicate HexRun(s: string, n: nat)
    decreases n
  {
    if n == 0 then s == []
    else |s| > 0 && IsHexDigit(s[0]) && HexRun(s[1..], n - 1)
  }

  /** The anchored pattern: `#`, then the alternation `{6}` | `{3}`, then the end of input. */
  predicate MatchesColorPattern(s: string) {
    |s| > 0 && s[0] == '#' && (HexRun(s[1..], 6) || HexRun(s[1..], 3))
  }

  /** All characters of `s` from index `from` on are hex digits. */
  predicate AllHexFrom(s: string, from: nat) {
    forall i | from <= i < |s| :: IsHexDigit(s[i])
  }

  /** A counted run of the character class is exactly a hex string of that length. */
  lemma {:induction false} HexRunMeaning(s: string, n: nat)
    ensures HexRun(s, n) <==> |s| == n && AllHexFrom(s, 0)
    decreases n
  {
    if n > 0 && |s| > 0 {
      HexRunMeaning(s[1..], n - 1);
      if AllHexFrom(s, 0) {
        assert AllHexFrom(s[1..], 0) by {
          forall i | 0 <= i < |s[1..]| ensures IsHexDigit(s[1..][i]) {
            assert s[1..][i] == s[i + 1];
          }
        }
      }
      if IsHexDigit(s[0]) && AllHexFrom(s[1..], 0) {
        forall i | 0 <= i < |s| ensures IsHexDigit(s[i]) {
          if i > 0 { assert s[i] == s[1..][i - 1]; }
        }
      }
    }
  }

  /**
   * What the pattern accepts, stated without the regular-expression structure:
   * a `#` followed by exactly three or exactly six hex digits of either case.
   */
  lemma ColorPatternMeaning(s: string)
    ensures MatchesColorPattern(s) <==> (|s| == 4 || |s| == 7) && s[0] == '#' && AllHexFrom(s, 1)
  {
    if |s| > 0 {
      HexRunMeaning(s[1..], 6);
      HexRunMeaning(s[1..], 3);
      assert AllHexFrom(s[1..], 0) <==> AllHexFrom(s, 1) by {
        if AllHexFrom(s, 1) {
          forall i | 0 <= i < |s[1..]| ensures IsHexDigit(s[1..][i]) {
            assert s[1..][i] == s[i + 1];
          }
        }
        if AllHexFrom(s[1..], 0) {
          forall i | 1 <= i < |s| ensures IsHexDigit(s[i]) {
            assert s[i] == s[1..][i - 1];
          }
        }
      }
    }
  }

  /** Every accepted colour has length 4 or 7. */
  lemma ColorPatternLength(s: string)
    requires MatchesColorPattern(s)
    ensures |s| == 4 || |s| == 7
  {
    ColorPatternMeaning(s);
  }

  /** Both anchors hold: a valid prefix or a valid prefix with extra digits is rejected. */
  lemma ColorPatternIsAnchored()
    ensures MatchesColorPattern("#abc") && MatchesColorPattern("#A0b1C2")
    ensures !MatchesColorPattern("#1234") && !MatchesColorPattern("#12345")
    ensures !MatchesColorPattern("#1234567") && !MatchesColorPattern("abc")
    ensures !MatchesColorPattern("#12g") && !MatchesColorPattern("")
  {
    ColorPatternMeaning("#1234");
    ColorPatternMeaning("#12345");
    ColorPatternMeaning("#1234567");
    ColorPatternMeaning("#12g");
    assert !IsHexDigit("#12g"[3]);
  }

  /** COLOR_DEFAULTS.calendar */
  const DefaultCalendarColor: string := "#7399F2"

  lemma DefaultCalendarColorIsValid()
    ensures MatchesColorPattern(DefaultCalendarColor)
  {
  }

  // ---------------------------------------------------------------------------
  // EVENT_TYPE_ENUM
  // ---------------------------------------------------------------------------

  datatype EventType = Arrangement | Reminder | Task

  /** EVENT_TYPE_ENUM as the object literal it is: key to value. */
  const EventTypeEnum: map<string, string> :=
    map["arrangement" := "arrangement", "reminder" := "reminder", "task" := "task"]

  /** The string that stands for an event type. */
  function EventTypeName(t: EventType): string {
    match t
    case Arrangement => "arrangement"
    case Reminder => "reminder"
    case Task => "task"
  }

  /** The event type a string stands for, if any. */
  function ParseEventType(s: string): (r: Option<EventType>)
    ensures r.Some? ==> EventTypeName(r.value) == s
  {
    if s == "arrangement" then Some(Arrangement)
    else if s == "reminder" then Some(Reminder)
    else if s == "task" then Some(Task)
    else None
  }

  /** The enum has exactly three entries, each equal to its key, and they are the three types. */
  lemma EventTypeEnumMeaning()
    ensures EventTypeEnum.Keys == {"arrangement", "reminder", "task"}
    ensures forall k | k in EventTypeEnum :: EventTypeEnum[k] == k
    ensures forall t: EventType :: EventTypeName(t) in EventTypeEnum
    ensures forall k | k in EventTypeEnum :: ParseEventType(k).Some?
  {
  }

  /** Naming then parsing an event type gives it back. */
  lemma EventTypeRoundTrip(t: EventType)
    ensures ParseEventType(EventTypeName(t)) == Some(t)
  {
  }
}
