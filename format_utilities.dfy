/**
 * The game's display formatting. A float is modelled as an exact real, so
 * Mathf.FloorToInt is the real floor and the float remainder t % 60f of a
 * positive t is t - 60 * floor(t / 60). Strings are C# strings with null
 * read as the empty string; both map null and "" to themselves.
 */
module FormatUtilities {
  import opened Wrappers
  import opened Text

  /** C#'s x % d for x > 0 and the divisors used here: what is left after the whole multiples of d. */
  function Remainder(x: real, d: real): (r: real)
    requires x > 0.0 && (d == 60.0 || d == 3600.0)
    ensures 0.0 <= r < d
  {
    x - d * (x / d).Floor as real
  }

  /** Subtracting a whole number moves the floor by exactly that number. */
  lemma FloorShift(x: real, k: int)
    ensures (x - k as real).Floor == x.Floor - k
  {
  }

  /** The minutes and seconds FormatTime and FormatTimeWithLabels compute for t > 0. */
  function Minutes(t: real): (m: int)
    requires t > 0.0
    ensures m >= 0
  {
    (t / 60.0).Floor
  }

  function Seconds(t: real): (s: int)
    requires t > 0.0
    ensures 0 <= s < 60
  {
    Remainder(t, 60.0).Floor
  }

  /** Minutes and seconds together are the whole seconds of t. */
  lemma ClockPartsAreWholeSeconds(t: real)
    requires t > 0.0
    ensures Minutes(t) * 60 + Seconds(t) == t.Floor
  {
    FloorShift(t, 60 * Minutes(t));
    assert Remainder(t, 60.0) == t - (60 * Minutes(t)) as real;
  }

  /** FormatTime: "MM:SS", or "00:00" for a time that is not positive. */
  function FormatTime(t: real): (r: string)
    ensures t <= 0.0 ==> r == "00:00"
  {
    if t <= 0.0 then "00:00"
    else ZeroPad2(Minutes(t)) + ":" + ZeroPad2(Seconds(t))
  }

  /** Below 100, the "00" format is exactly two digits. */
  lemma ZeroPad2IsTwoDigits(n: nat)
    requires n < 100
    ensures |ZeroPad2(n)| == 2
  {
    if n >= 10 {
      assert NatToString(n) == NatToString(n / 10) + [DigitChar(n % 10)];
    }
  }

  /**
   * Reading FormatTime back: the text after the last colon is two digits
   * under 60, the text before it at least two digits, and together they
   * denote the whole seconds of t.
   */
  predicate ReadsAsMinutesSeconds(r: string, total: int)
  {
    var k := |r| - 3;
    k >= 2 && r[k] == ':'
    && AllDigits(r[..k]) && AllDigits(r[k + 1..])
    && DigitsValue(r[k + 1..]) < 60
    && DigitsValue(r[..k]) * 60 + DigitsValue(r[k + 1..]) == total
  }

  lemma FormatTimeReadsBack(t: real)
    requires t > 0.0
    ensures ReadsAsMinutesSeconds(FormatTime(t), t.Floor)
  {
    var mm := ZeroPad2(Minutes(t));
    var ss := ZeroPad2(Seconds(t));
    ZeroPad2IsTwoDigits(Seconds(t));
    var r := FormatTime(t);
    assert r == mm + ":" + ss;
    var k := |r| - 3;
    assert r[..k] == mm;
    assert r[k + 1..] == ss;
    ClockPartsAreWholeSeconds(t);
  }

  /** The hours, and the minutes within the hour, FormatTimeWithHours computes for t > 0. */
  function Hours(t: real): (h: int)
    requires t > 0.0
    ensures h >= 0
  {
    (t / 3600.0).Floor
  }

  function MinutesOfHour(t: real): (m: int)
    requires t > 0.0
    ensures 0 <= m < 60
  {
    (Remainder(t, 3600.0) / 60.0).Floor
  }

  /** Hours, minutes and seconds together are the whole seconds of t. */
  lemma HourPartsAreWholeSeconds(t: real)
    requires t > 0.0
    ensures Hours(t) * 3600 + MinutesOfHour(t) * 60 + Seconds(t) == t.Floor
  {
    var h := Hours(t);
    assert Remainder(t, 3600.0) / 60.0 == t / 60.0 - (60 * h) as real;
    FloorShift(t / 60.0, 60 * h);
    ClockPartsAreWholeSeconds(t);
  }

  /** FormatTimeWithHours: "HH:MM:SS", or "00:00:00" for a time that is not positive. */
  function FormatTimeWithHours(t: real): (r: string)
    ensures t <= 0.0 ==> r == "00:00:00"
  {
    if t <= 0.0 then "00:00:00"
    else ZeroPad2(Hours(t)) + ":" + ZeroPad2(MinutesOfHour(t)) + ":" + ZeroPad2(Seconds(t))
  }

  /**
   * Reading FormatTimeWithHours back: two colons at fixed distances from
   * the end, minutes and seconds under 60, and the three numbers denote the
   * whole seconds of t.
   */
  predicate ReadsAsHoursMinutesSeconds(r: string, total: int)
  {
    var j := |r| - 6;
    var k := |r| - 3;
    j >= 2 && r[j] == ':' && r[k] == ':'
    && AllDigits(r[..j]) && AllDigits(r[j + 1..k]) && AllDigits(r[k + 1..])
    && DigitsValue(r[j + 1..k]) < 60 && DigitsValue(r[k + 1..]) < 60
    && DigitsValue(r[..j]) * 3600 + DigitsValue(r[j + 1..k]) * 60 + DigitsValue(r[k + 1..]) == total
  }

  lemma FormatTimeWithHoursReadsBack(t: real)
    requires t > 0.0
    ensures ReadsAsHoursMinutesSeconds(FormatTimeWithHours(t), t.Floor)
  {
    var hh := ZeroPad2(Hours(t));
    var mm := ZeroPad2(MinutesOfHour(t));
    var ss := ZeroPad2(Seconds(t));
    ZeroPad2IsTwoDigits(MinutesOfHour(t));
    ZeroPad2IsTwoDigits(Seconds(t));
    var r := FormatTimeWithHours(t);
    assert r == hh + ":" + mm + ":" + ss;
    var j := |r| - 6;
    var k := |r| - 3;
    assert r[..j] == hh;
    assert r[j + 1..k] == mm;
    assert r[k + 1..] == ss;
    HourPartsAreWholeSeconds(t);
  }

  /** The parts FormatTimeWithLabels shows: a count of minutes ("Nm"), of seconds ("Ns"), or both. */
  datatype Labels = Labels(minutes: Nullable<nat>, seconds: Nullable<nat>)

  /** The interpolated text: "Mm Ss", "Mm" or "Ss". */
  function Render(l: Labels): string
  {
    match (l.minutes, l.seconds)
    case (Some(m), Some(s)) => NatToString(m) + "m " + NatToString(s) + "s"
    case (Some(m), Null) => NatToString(m) + "m"
    case (Null, Some(s)) => NatToString(s) + "s"
    case (Null, Null) => ""
  }

  /** The branches of FormatTimeWithLabels. */
  function ChooseLabels(t: real, includeSeconds: bool): Labels
  {
    if t <= 0.0 then
      if includeSeconds then Labels(Null, Some(0)) else Labels(Some(0), Null)
    else
      var minutes := Minutes(t);
      var seconds := Seconds(t);
      if minutes > 0 then
        if includeSeconds && seconds > 0 then Labels(Some(minutes), Some(seconds)) else Labels(Some(minutes), Null)
      else if includeSeconds then Labels(Null, Some(seconds))
      else Labels(Some(0), Null)
  }

  /** FormatTimeWithLabels. */
  function FormatTimeWithLabels(t: real, includeSeconds: bool): (r: string)
    ensures |r| >= 2
  {
    Render(ChooseLabels(t, includeSeconds))
  }

  /** The number of seconds the labels stand for. */
  function ShownSeconds(l: Labels): nat
  {
    (if l.minutes.Some? then l.minutes.value * 60 else 0) + (if l.seconds.Some? then l.seconds.value else 0)
  }

  /**
   * The labels never come out empty; a seconds label next to a minutes
   * label is between 1 and 59; no seconds label appears when seconds are
   * excluded; and the labels stand for the whole seconds of t, or for its
   * whole minutes when seconds are excluded (nothing for t <= 0).
   */
  lemma LabelsShowWholeTime(t: real, includeSeconds: bool)
    ensures var l := ChooseLabels(t, includeSeconds);
            (l.minutes.Some? || l.seconds.Some?)
            && (l.minutes.Some? && l.seconds.Some? ==> 1 <= l.seconds.value < 60)
            && (!includeSeconds ==> l.seconds.Null?)
            && ShownSeconds(l) == (if t <= 0.0 then 0 else if includeSeconds then t.Floor else Minutes(t) * 60)
  {
    if t > 0.0 {
      ClockPartsAreWholeSeconds(t);
    }
  }

  /** What FormatNumber shows: a value scaled to a suffix, printed with one decimal, or the plain digits. */
  datatype NumberText = Scaled(value: real, suffix: char) | Plain(digits: string)

  /** FormatNumber's choice of suffix. */
  function FormatNumber(number: int): (r: NumberText)
  {
    if number >= 1000000000 then Scaled(number as real / 1000000000.0, 'B')
    else if number >= 1000000 then Scaled(number as real / 1000000.0, 'M')
    else if number >= 1000 then Scaled(number as real / 1000.0, 'K')
    else Plain(IntToString(number))
  }

  /** The power of ten a suffix stands for. */
  function SuffixScale(suffix: char): real
  {
    if suffix == 'B' then 1000000000.0 else if suffix == 'M' then 1000000.0 else 1000.0
  }

  /**
   * The largest suffix that fits is chosen: a scaled value times its
   * suffix's power of ten gives the number back, it is at least 1, and
   * below 1000 except for billions; below a thousand the number is shown
   * as its own digits.
   */
  lemma FormatNumberPicksLargestSuffix(number: int)
    ensures var r := FormatNumber(number);
            match r
            case Scaled(v, c) =>
              c in {'K', 'M', 'B'} && v * SuffixScale(c) == number as real
              && v >= 1.0 && (c != 'B' ==> v < 1000.0)
            case Plain(d) => number < 1000 && d == IntToString(number)
  {
  }

  /** FormatEntityState: the state alone, or the remaining time before it in parentheses. */
  function FormatEntityState(state: string, timeRemaining: real): (r: string)
  {
    if timeRemaining <= 0.0 then state else FormatTime(timeRemaining) + " (" + state + ")"
  }

  /** A text followed by a state in parentheses: where each piece sits. */
  predicate OpensThenParenthesises(r: string, head: string, state: string)
  {
    |r| == |head| + |state| + 3 && r[..|head|] == head
    && r[|head|..|head| + 2] == " (" && r[|head| + 2..|r| - 1] == state && r[|r| - 1] == ')'
  }

  lemma ParenthesisedState(head: string, state: string)
    ensures OpensThenParenthesises(head + " (" + state + ")", head, state)
  {
    var r := head + " (" + state + ")";
    assert r[..|head|] == head;
    assert r[|head|..|head| + 2] == " (";
    assert r[|head| + 2..|r| - 1] == state;
  }

  /**
   * With time left the text opens with FormatTime of that time and closes
   * with the state in parentheses; without, it is the state.
   */
  lemma EntityStateShowsTimeThenState(state: string, timeRemaining: real)
    ensures timeRemaining <= 0.0 ==> FormatEntityState(state, timeRemaining) == state
    ensures timeRemaining > 0.0 ==>
              OpensThenParenthesises(FormatEntityState(state, timeRemaining), FormatTime(timeRemaining), state)
  {
    if timeRemaining > 0.0 {
      ParenthesisedState(FormatTime(timeRemaining), state);
    }
  }

  /** TruncateText either returns a string or throws from Substring when maxLength - 3 is negative. */
  datatype Outcome = Returns(text: string) | SubstringOutOfRange

  /** TruncateText. */
  function TruncateText(text: string, maxLength: int): (r: Outcome)
  {
    if |text| == 0 || |text| <= maxLength then Returns(text)
    else if maxLength - 3 < 0 then SubstringOutOfRange
    else Returns(text[..maxLength - 3] + "...")
  }

  /**
   * Text that fits is returned unchanged; longer text comes back exactly
   * maxLength long, a prefix of the text followed by "..."; it throws only
   * for non-empty text longer than a maxLength below 3.
   */
  lemma TruncateTextFitsOrThrows(text: string, maxLength: int)
    ensures var r := TruncateText(text, maxLength);
            (r.SubstringOutOfRange? <==> |text| > 0 && |text| > maxLength && maxLength < 3)
            && (|text| <= maxLength ==> r == Returns(text))
            && (r.Returns? && |text| > maxLength && |text| > 0 ==>
                  |r.text| == maxLength && r.text[..maxLength - 3] == text[..maxLength - 3]
                  && r.text[maxLength - 3..] == "...")
  {
  }

  /** The ASCII letters; other characters have no case here. */
  predicate IsUpper(c: char) { 'A' <= c <= 'Z' }
  predicate IsLower(c: char) { 'a' <= c <= 'z' }

  function ToUpper(c: char): (u: char)
    ensures !IsLower(u)
  {
    if IsLower(c) then (c as int - 32) as char else c
  }

  function ToLower(c: char): (l: char)
    ensures !IsUpper(l)
  {
    if IsUpper(c) then (c as int + 32) as char else c
  }

  /** string.ToLower: every character lowered. */
  function LowerAll(s: string): (r: string)
    ensures |r| == |s|
    ensures forall i :: 0 <= i < |s| ==> r[i] == ToLower(s[i])
  {
    seq(|s|, i requires 0 <= i < |s| => ToLower(s[i]))
  }

  /** Capitalize: the first character upper-cased and the rest lower-cased. */
  function Capitalize(text: string): (r: string)
  {
    if |text| == 0 then text else [ToUpper(text[0])] + LowerAll(text[1..])
  }

  /** Capitalising keeps the length, leaves no lower-case first letter and no upper-case letter after it. */
  lemma CapitalizeShape(text: string)
    ensures var r := Capitalize(text);
            |r| == |text|
            && (|text| > 0 ==> r[0] == ToUpper(text[0]) && !IsLower(r[0]))
            && (forall i :: 1 <= i < |r| ==> r[i] == ToLower(text[i]) && !IsUpper(r[i]))
  {
    var r := Capitalize(text);
    if |text| > 0 {
      var rest := LowerAll(text[1..]);
      assert r == [ToUpper(text[0])] + rest;
      forall i | 1 <= i < |r|
        ensures r[i] == ToLower(text[i])
      {
        assert r[i] == rest[i - 1];
        assert text[1..][i - 1] == text[i];
      }
    }
  }

  /** Capitalising twice changes nothing more. */
  lemma CapitalizeIsIdempotent(text: string)
    ensures Capitalize(Capitalize(text)) == Capitalize(text)
  {
    var r := Capitalize(text);
    if |text| > 0 {
      assert ToUpper(r[0]) == r[0];
      assert LowerAll(r[1..]) == r[1..];
    }
  }
}
