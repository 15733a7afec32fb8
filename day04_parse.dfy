/** Day 4, reading the guard log: one line such as
    `[1518-04-12 00:03] Guard #677 begins shift` becomes an event made of
    its decoded date and time and its decoded event information. */
module Day04Parse {
  import opened Results
  import opened JsText

  /** The date and time fields as `parseInt` reads them. */
  datatype TimeDate = TimeDate(year: Num, month: Num, day: Num, hour: Num, minute: Num)

  datatype EventType = ShiftStart | FallAsleep | WakeUp

  /** The `EventType` and `guardID` properties of a decoded event: either may
      be missing. */
  datatype EventInfo = EventInfo(kind: Option<EventType>, guardId: Option<int>)

  datatype ParsedEvent = ParsedEvent(timeDate: TimeDate, info: EventInfo)

  /** The ways the whole solver fails: the two errors it throws, a wake-up
      with no sleep start to measure from, and no guard to report. */
  datatype Day4Error = InvalidGuardId | MalformedTimestamp | UnmatchedWake | NoSleeper

  /** An event whose five fields are all numbers. */
  datatype Timestamp = Timestamp(year: int, month: int, day: int, hour: int, minute: int)

  datatype Event = Event(time: Timestamp, kind: Option<EventType>, guard: Option<int>)

  // ---------------------------------------------------------------------
  // The date and time section

  /** `decodeEventTimeDateText`: the five fields between `[`, the two dashes,
      the space, the colon and `]`. */
  function DecodeEventTimeDateText(text: string): TimeDate
  {
    var open := IndexOf(text, '[');
    var dash1 := IndexOf(text, '-');
    var dash2 := IndexOfFrom(text, '-', dash1 + 1);
    var space := IndexOf(text, ' ');
    var colon := IndexOf(text, ':');
    var close := IndexOf(text, ']');
    TimeDate(
      ParseInt(Slice(text, open + 1, dash1)),
      ParseInt(Slice(text, dash1 + 1, dash2)),
      ParseInt(Slice(text, dash2 + 1, space)),
      ParseInt(Slice(text, space + 1, colon)),
      ParseInt(Slice(text, colon + 1, close)))
  }

  /** The text of a date and time section with the given decimal fields. */
  function StampText(y: string, mo: string, d: string, h: string, mi: string): string
  {
    "[" + y + "-" + mo + "-" + d + " " + h + ":" + mi + "]"
  }

  /** Fields of digits come back as their values. */
  lemma StampRoundTrip(y: string, mo: string, d: string, h: string, mi: string)
    requires y != [] && AllDigits(y) && mo != [] && AllDigits(mo) && d != [] && AllDigits(d)
    requires h != [] && AllDigits(h) && mi != [] && AllDigits(mi)
    ensures DecodeEventTimeDateText(StampText(y, mo, d, h, mi))
         == TimeDate(Int(DigitsValue(y)), Int(DigitsValue(mo)), Int(DigitsValue(d)),
                     Int(DigitsValue(h)), Int(DigitsValue(mi)))
  {
    StampYear(y, mo, d, h, mi);
    StampMonth(y, mo, d, h, mi);
    StampDay(y, mo, d, h, mi);
    StampHour(y, mo, d, h, mi);
    StampMinute(y, mo, d, h, mi);
  }

  lemma StampYear(y: string, mo: string, d: string, h: string, mi: string)
    requires y != [] && AllDigits(y)
    ensures DecodeEventTimeDateText(StampText(y, mo, d, h, mi)).year == Int(DigitsValue(y))
  {
    YearValue(y, mo, d, h, mi);
  }

  lemma StampMonth(y: string, mo: string, d: string, h: string, mi: string)
    requires AllDigits(y) && mo != [] && AllDigits(mo)
    ensures DecodeEventTimeDateText(StampText(y, mo, d, h, mi)).month == Int(DigitsValue(mo))
  {
    MonthValue(y, mo, d, h, mi);
  }

  lemma StampDay(y: string, mo: string, d: string, h: string, mi: string)
    requires AllDigits(y) && AllDigits(mo) && d != [] && AllDigits(d)
    ensures DecodeEventTimeDateText(StampText(y, mo, d, h, mi)).day == Int(DigitsValue(d))
  {
    DayValue(y, mo, d, h, mi);
  }

  lemma StampHour(y: string, mo: string, d: string, h: string, mi: string)
    requires AllDigits(y) && AllDigits(mo) && AllDigits(d) && h != [] && AllDigits(h)
    ensures DecodeEventTimeDateText(StampText(y, mo, d, h, mi)).hour == Int(DigitsValue(h))
  {
    HourValue(y, mo, d, h, mi);
  }

  lemma StampMinute(y: string, mo: string, d: string, h: string, mi: string)
    requires AllDigits(y) && AllDigits(mo) && AllDigits(d) && AllDigits(h) && mi != [] && AllDigits(mi)
    ensures DecodeEventTimeDateText(StampText(y, mo, d, h, mi)).minute == Int(DigitsValue(mi))
  {
    MinuteValue(y, mo, d, h, mi);
  }

  lemma YearValue(y: string, mo: string, d: string, h: string, mi: string)
    requires y != [] && AllDigits(y)
    ensures var t := StampText(y, mo, d, h, mi);
      ParseInt(Slice(t, IndexOf(t, '[') + 1, IndexOf(t, '-'))) == Int(DigitsValue(y))
  {
    YearSlice(y, mo, d, h, mi);
    ParseIntOfDigits(y);
  }

  lemma YearSlice(y: string, mo: string, d: string, h: string, mi: string)
    requires AllDigits(y)
    ensures var t := StampText(y, mo, d, h, mi);
      Slice(t, IndexOf(t, '[') + 1, IndexOf(t, '-')) == y
  {
    var t := StampText(y, mo, d, h, mi);
    DigitsExclude(y, '-');
    assert t == [] + ['['] + y + ['-'] + (mo + "-" + d + " " + h + ":" + mi + "]");
    Between(t, [], '[', y, '-', mo + "-" + d + " " + h + ":" + mi + "]");
  }

  lemma MonthValue(y: string, mo: string, d: string, h: string, mi: string)
    requires AllDigits(y) && mo != [] && AllDigits(mo)
    ensures var t := StampText(y, mo, d, h, mi);
      var dash1 := IndexOf(t, '-');
      ParseInt(Slice(t, dash1 + 1, IndexOfFrom(t, '-', dash1 + 1))) == Int(DigitsValue(mo))
  {
    MonthSlice(y, mo, d, h, mi);
    ParseIntOfDigits(mo);
  }

  lemma MonthSlice(y: string, mo: string, d: string, h: string, mi: string)
    requires AllDigits(y) && AllDigits(mo)
    ensures var t := StampText(y, mo, d, h, mi);
      var dash1 := IndexOf(t, '-');
      dash1 == |y| + 1 && Slice(t, dash1 + 1, IndexOfFrom(t, '-', dash1 + 1)) == mo
  {
    var t := StampText(y, mo, d, h, mi);
    DigitsExclude(y, '-'); DigitsExclude(mo, '-');
    assert t == ("[" + y) + ['-'] + (mo + "-" + d + " " + h + ":" + mi + "]");
    IndexOfSplit("[" + y, '-', mo + "-" + d + " " + h + ":" + mi + "]");
    assert t == ("[" + y + "-") + mo + ['-'] + (d + " " + h + ":" + mi + "]");
    BetweenSame(t, "[" + y + "-", '-', mo, d + " " + h + ":" + mi + "]");
  }

  lemma DayValue(y: string, mo: string, d: string, h: string, mi: string)
    requires AllDigits(y) && AllDigits(mo) && d != [] && AllDigits(d)
    ensures var t := StampText(y, mo, d, h, mi);
      var dash1 := IndexOf(t, '-');
      ParseInt(Slice(t, IndexOfFrom(t, '-', dash1 + 1) + 1, IndexOf(t, ' '))) == Int(DigitsValue(d))
  {
    DaySlice(y, mo, d, h, mi);
    ParseIntOfDigits(d);
  }

  lemma DaySlice(y: string, mo: string, d: string, h: string, mi: string)
    requires AllDigits(y) && AllDigits(mo) && AllDigits(d)
    ensures var t := StampText(y, mo, d, h, mi);
      var dash1 := IndexOf(t, '-');
      Slice(t, IndexOfFrom(t, '-', dash1 + 1) + 1, IndexOf(t, ' ')) == d
  {
    var t := StampText(y, mo, d, h, mi);
    MonthSlice(y, mo, d, h, mi);
    var pre := "[" + y + "-" + mo;
    DaySplit(y, mo, d, h, mi);
    BetweenFrom(t, pre, '-', d, ' ', h + ":" + mi + "]", |y| + 2);
  }

  /** Around the day field: the month part before it holds no space and no
      `-` after the first, and the day holds no space. */
  lemma DaySplit(y: string, mo: string, d: string, h: string, mi: string)
    requires AllDigits(y) && AllDigits(mo) && AllDigits(d)
    ensures var pre := "[" + y + "-" + mo;
      StampText(y, mo, d, h, mi) == pre + ['-'] + d + [' '] + (h + ":" + mi + "]")
      && |y| + 2 <= |pre| && '-' !in pre[|y| + 2..] && ' ' !in pre && ' ' !in d
  {
    DigitsExclude(y, ' '); DigitsExclude(mo, ' '); DigitsExclude(mo, '-'); DigitsExclude(d, ' ');
    var pre := "[" + y + "-" + mo;
    assert pre[|y| + 2..] == mo;
  }

  lemma HourValue(y: string, mo: string, d: string, h: string, mi: string)
    requires AllDigits(y) && AllDigits(mo) && AllDigits(d) && h != [] && AllDigits(h)
    ensures var t := StampText(y, mo, d, h, mi);
      ParseInt(Slice(t, IndexOf(t, ' ') + 1, IndexOf(t, ':'))) == Int(DigitsValue(h))
  {
    HourSlice(y, mo, d, h, mi);
    ParseIntOfDigits(h);
  }

  lemma HourSlice(y: string, mo: string, d: string, h: string, mi: string)
    requires AllDigits(y) && AllDigits(mo) && AllDigits(d) && AllDigits(h)
    ensures var t := StampText(y, mo, d, h, mi);
      Slice(t, IndexOf(t, ' ') + 1, IndexOf(t, ':')) == h
  {
    var t := StampText(y, mo, d, h, mi);
    DigitsExclude(y, ' '); DigitsExclude(mo, ' '); DigitsExclude(d, ' ');
    DigitsExclude(y, ':'); DigitsExclude(mo, ':'); DigitsExclude(d, ':'); DigitsExclude(h, ':');
    var pre := "[" + y + "-" + mo + "-" + d;
    assert t == pre + [' '] + h + [':'] + (mi + "]");
    Between(t, pre, ' ', h, ':', mi + "]");
  }

  lemma MinuteValue(y: string, mo: string, d: string, h: string, mi: string)
    requires AllDigits(y) && AllDigits(mo) && AllDigits(d) && AllDigits(h) && mi != [] && AllDigits(mi)
    ensures var t := StampText(y, mo, d, h, mi);
      ParseInt(Slice(t, IndexOf(t, ':') + 1, IndexOf(t, ']'))) == Int(DigitsValue(mi))
  {
    MinuteSlice(y, mo, d, h, mi);
    ParseIntOfDigits(mi);
  }

  lemma MinuteSlice(y: string, mo: string, d: string, h: string, mi: string)
    requires AllDigits(y) && AllDigits(mo) && AllDigits(d) && AllDigits(h) && AllDigits(mi)
    ensures var t := StampText(y, mo, d, h, mi);
      Slice(t, IndexOf(t, ':') + 1, IndexOf(t, ']')) == mi
  {
    var t := StampText(y, mo, d, h, mi);
    DigitsExclude(y, ':'); DigitsExclude(mo, ':'); DigitsExclude(d, ':'); DigitsExclude(h, ':');
    DigitsExclude(y, ']'); DigitsExclude(mo, ']'); DigitsExclude(d, ']'); DigitsExclude(h, ']');
    DigitsExclude(mi, ']');
    var pre := "[" + y + "-" + mo + "-" + d + " " + h;
    assert t == pre + [':'] + mi + [']'] + [];
    Between(t, pre, ':', mi, ']', []);
  }

  // ---------------------------------------------------------------------
  // The event information section

  /** The guard number's text as the code cuts it: up to the first space,
      `slice(0, -1)` when there is none. */
  function GuardIdTextAsWritten(rhs: string): (r: string)
    ensures ' ' in rhs ==> r == GuardIdText(rhs)
    ensures ' ' !in rhs && rhs != [] ==> r == rhs[..|rhs| - 1]
  {
    Slice(rhs, 0, IndexOf(rhs, ' '))
  }

  /** The guard number's text as intended: the characters after `#` up to the
      first space, or to the end when there is none. */
  function GuardIdText(rhs: string): (r: string)
    ensures r <= rhs && ' ' !in r
    ensures |r| == |rhs| || rhs[|r|] == ' '
  {
    var end := IndexOf(rhs, ' ');
    if end == -1 then rhs else rhs[..end]
  }

  /** `decodeEventInfo`, with the guard number cut as written or as intended. */
  function DecodeEventInfoWith(text: string, asWritten: bool): (r: Result<EventInfo, Day4Error>)
    ensures var lower := ToLower(text);
      && ('#' in lower <==> r.Err? || r.value.kind == Some(ShiftStart))
      && (r.Ok? ==> (r.value.guardId.Some? <==> r.value.kind == Some(ShiftStart)))
      && (r.Ok? && r.value.guardId.Some? ==> r.value.guardId.value > 0)
      && (r.Err? ==> r.error == InvalidGuardId)
    ensures var lower := ToLower(text);
      '#' !in lower ==>
        && r.Ok?
        && (r.value.kind == Some(FallAsleep) <==> Contains(lower, "asleep") && !Contains(lower, "wakes"))
        && (r.value.kind == Some(WakeUp) <==> Contains(lower, "wakes") && !Contains(lower, "asleep"))
        && (r.value.kind == None <==> Contains(lower, "asleep") == Contains(lower, "wakes"))
  {
    DecodeLowered(ToLower(text), asWritten)
  }

  /** The decoding once the text is lower-cased. */
  function DecodeLowered(lower: string, asWritten: bool): (r: Result<EventInfo, Day4Error>)
    ensures && ('#' in lower <==> r.Err? || r.value.kind == Some(ShiftStart))
      && (r.Ok? ==> (r.value.guardId.Some? <==> r.value.kind == Some(ShiftStart)))
      && (r.Ok? && r.value.guardId.Some? ==> r.value.guardId.value > 0)
      && (r.Err? ==> r.error == InvalidGuardId)
    ensures '#' !in lower ==>
        && r.Ok?
        && (r.value.kind == Some(FallAsleep) <==> Contains(lower, "asleep") && !Contains(lower, "wakes"))
        && (r.value.kind == Some(WakeUp) <==> Contains(lower, "wakes") && !Contains(lower, "asleep"))
        && (r.value.kind == None <==> Contains(lower, "asleep") == Contains(lower, "wakes"))
  {
    var hash := IndexOf(lower, '#');
    if hash >= 0 then
      var rhs := Slice(lower, hash + 1, |lower|);
      var idText := if asWritten then GuardIdTextAsWritten(rhs) else GuardIdText(rhs);
      var guardId := ParseInt(idText);
      if guardId.Int? && guardId.value > 0 then Ok(EventInfo(Some(ShiftStart), Some(guardId.value)))
      else Err(InvalidGuardId)
    else
      IndexOfNoneIff(lower, '#');
      var asleep := Contains(lower, "asleep");
      var wakes := Contains(lower, "wakes");
      var kind := if asleep then Some(FallAsleep) else if wakes then Some(WakeUp) else None;
      Ok(EventInfo(if asleep && wakes then None else kind, None))
  }

  lemma IndexOfNoneIff(s: string, c: char)
    ensures IndexOf(s, c) >= 0 <==> c in s
  {
    if c in s {
      var k :| 0 <= k < |s| && s[k] == c;
      assert IndexOf(s, c) != -1;
    } else {
      IndexOfNone(s, c);
    }
  }

  function DecodeEventInfo(text: string): Result<EventInfo, Day4Error>
  {
    DecodeEventInfoWith(text, false)
  }

  function DecodeEventInfoAsWritten(text: string): Result<EventInfo, Day4Error>
  {
    DecodeEventInfoWith(text, true)
  }

  /** Only the letters' case is ignored. */
  lemma DecodeEventInfoCaseInsensitive(text: string, asWritten: bool)
    ensures DecodeEventInfoWith(ToLower(text), asWritten) == DecodeEventInfoWith(text, asWritten)
  {
    ToLowerIdempotent(text);
  }

  /** A shift start: the digits after the first `#`, up to a space or the end
      of the text, are the guard's number. */
  lemma ShiftStartText(pre: string, d: string, rest: string)
    requires '#' !in ToLower(pre)
    requires d != [] && AllDigits(d) && DigitsValue(d) > 0
    requires rest == [] || rest[0] == ' '
    ensures DecodeEventInfo(pre + "#" + d + rest) == Ok(EventInfo(Some(ShiftStart), Some(DigitsValue(d))))
    ensures rest != [] ==> DecodeEventInfoAsWritten(pre + "#" + d + rest) == DecodeEventInfo(pre + "#" + d + rest)
  {
    var text := pre + "#" + d + rest;
    ShiftLower(pre, d, rest);
    HashSplit(ToLower(pre), d + ToLower(rest));
    GuardIdOfDigits(d, ToLower(rest));
    ParseIntOfDigits(d);
  }

  lemma ShiftLower(pre: string, d: string, rest: string)
    requires AllDigits(d)
    ensures ToLower(pre + "#" + d + rest) == ToLower(pre) + ['#'] + (d + ToLower(rest))
  {
    ToLowerConcat(pre + "#" + d, rest);
    ToLowerConcat(pre + "#", d);
    ToLowerConcat(pre, "#");
    ToLowerKeeps(d);
    ToLowerKeeps("#");
  }

  /** A text with its first `#` at the end of `lp`: what follows the `#`. */
  lemma HashSplit(lp: string, after: string)
    requires '#' !in lp
    ensures IndexOf(lp + ['#'] + after, '#') == |lp|
    ensures Slice(lp + ['#'] + after, |lp| + 1, |lp + ['#'] + after|) == after
  {
    IndexOfSplit(lp, '#', after);
    assert lp + ['#'] + after == (lp + ['#']) + after + [];
    SliceSplit(lp + ['#'], after, []);
  }

  /** Digits followed by nothing or by a space: the guard number's text is the
      digits, whichever way it is cut when the space is there. */
  lemma GuardIdOfDigits(d: string, rest: string)
    requires AllDigits(d)
    requires rest == [] || rest[0] == ' '
    ensures GuardIdText(d + rest) == d
    ensures rest != [] ==> GuardIdTextAsWritten(d + rest) == d
  {
    DigitsExclude(d, ' ');
    if rest == [] {
      assert d + rest == d;
      IndexOfNone(d, ' ');
    } else {
      assert d + rest == d + [' '] + rest[1..];
      IndexOfSplit(d, ' ', rest[1..]);
    }
  }


  /** The guard number read from the text after the first `#`, with the
      number's text cut as written or as intended. */
  function GuardNumberAfter(after: string, asWritten: bool): Num
  {
    var rhs := ToLower(after);
    ParseInt(if asWritten then GuardIdTextAsWritten(rhs) else GuardIdText(rhs))
  }

  /** A text whose first `#` is followed by `after` is rejected as an invalid
      guard number exactly when the number read from `after` is NaN, zero or
      negative; otherwise it is a shift start carrying that number. */
  lemma ShiftStartGuard(pre: string, after: string, asWritten: bool)
    requires '#' !in ToLower(pre)
    ensures var n := GuardNumberAfter(after, asWritten);
      && (DecodeEventInfoWith(pre + "#" + after, asWritten) == Err(InvalidGuardId) <==> !(n.Int? && n.value > 0))
      && (n.Int? && n.value > 0 ==>
            DecodeEventInfoWith(pre + "#" + after, asWritten) == Ok(EventInfo(Some(ShiftStart), Some(n.value))))
  {
    HashLower(pre, after);
    HashSplit(ToLower(pre), ToLower(after));
  }

  lemma HashLower(pre: string, after: string)
    ensures ToLower(pre + "#" + after) == ToLower(pre) + ['#'] + ToLower(after)
  {
    ToLowerConcat(pre + "#", after);
    ToLowerConcat(pre, "#");
    ToLowerKeeps("#");
  }

  /** Guard number 0 and a guard "number" that is not a number are both
      invalid, however the number's text is cut. */
  lemma RejectedExamples(asWritten: bool)
    ensures DecodeEventInfoWith("Guard #0 begins shift", asWritten) == Err(InvalidGuardId)
    ensures DecodeEventInfoWith("Guard #x begins shift", asWritten) == Err(InvalidGuardId)
  {
    RejectedZero(asWritten);
    RejectedNotANumber(asWritten);
  }

  lemma RejectedZero(asWritten: bool)
    ensures DecodeEventInfoWith("Guard #0 begins shift", asWritten) == Err(InvalidGuardId)
  {
    GuardPrefix();
    assert "Guard #0 begins shift" == "Guard " + "#" + "0 begins shift";
    GuardZero(asWritten);
    ShiftStartGuard("Guard ", "0 begins shift", asWritten);
  }

  lemma RejectedNotANumber(asWritten: bool)
    ensures DecodeEventInfoWith("Guard #x begins shift", asWritten) == Err(InvalidGuardId)
  {
    GuardPrefix();
    assert "Guard #x begins shift" == "Guard " + "#" + "x begins shift";
    GuardNotANumber(asWritten);
    ShiftStartGuard("Guard ", "x begins shift", asWritten);
  }

  lemma GuardPrefix()
    ensures '#' !in ToLower("Guard ")
  {
    assert ToLower("Guard ") == "guard ";
  }

  lemma GuardZero(asWritten: bool)
    ensures GuardNumberAfter("0 begins shift", asWritten) == Int(0)
  {
    ToLowerKeeps("0 begins shift");
    assert "0 begins shift" == "0" + " begins shift";
    GuardIdOfDigits("0", " begins shift");
    ParseIntOfDigits("0");
    assert DigitsValue("0") == 0 by { assert "0"[..0] == ""; }
  }

  lemma GuardNotANumber(asWritten: bool)
    ensures GuardNumberAfter("x begins shift", asWritten) == NaN
  {
    AlreadyLower("x begins shift");
    assert "x begins shift" == "x" + [' '] + "begins shift";
    WordCut("x", "begins shift");
    ParseIntNoDigit("x");
  }

  lemma AlreadyLower(t: string)
    requires t == "x begins shift"
    ensures ToLower(t) == t
  {
    ToLowerKeeps(t);
  }

  /** A word followed by a space: both cuts of the guard number's text give
      the word. */
  lemma WordCut(w: string, rest: string)
    requires ' ' !in w
    ensures GuardIdText(w + [' '] + rest) == w
    ensures GuardIdTextAsWritten(w + [' '] + rest) == w
  {
    var t := w + [' '] + rest;
    IndexOfSplit(w, ' ', rest);
    assert t[..|w|] == w;
    assert t[|w|] == ' ';
  }

  /** The log's three kinds of line. */
  lemma KindExamples()
    ensures DecodeEventInfo("Guard #677 begins shift") == Ok(EventInfo(Some(ShiftStart), Some(677)))
    ensures DecodeEventInfo("falls asleep") == Ok(EventInfo(Some(FallAsleep), None))
    ensures DecodeEventInfo("wakes up") == Ok(EventInfo(Some(WakeUp), None))
  {
    ShiftExample();
    AsleepExample();
    WakesExample();
  }

  lemma ShiftExample()
    ensures DecodeEventInfo("Guard #677 begins shift") == Ok(EventInfo(Some(ShiftStart), Some(677)))
  {
    assert "Guard #677 begins shift" == "Guard " + "#" + "677" + " begins shift";
    assert ToLower("Guard ") == "guard ";
    assert DigitsValue("677") == 677 by {
      assert "677"[..2] == "67" && "67"[..1] == "6" && "6"[..0] == "";
    }
    ShiftStartText("Guard ", "677", " begins shift");
  }

  lemma AsleepExample()
    ensures DecodeEventInfo("falls asleep") == Ok(EventInfo(Some(FallAsleep), None))
  {
    var t := "falls asleep";
    ToLowerKeeps(t);
    assert '#' !in t;
    assert Contains(t, "asleep") by {
      assert t[6..12] == "asleep";
      assert OccursAt(t, "asleep", 6);
    }
    NotContains(t, "wakes", 0);
    PlainInfo(t);
  }

  lemma WakesExample()
    ensures DecodeEventInfo("wakes up") == Ok(EventInfo(Some(WakeUp), None))
  {
    var t := "wakes up";
    ToLowerKeeps(t);
    assert OccursAt(t, "wakes", 0) by { assert t[0..5] == "wakes"; }
    NotContains(t, "asleep", 2);
    PlainInfo(t);
  }

  /** Without a `#`, the kind follows from which of the two words occur. */
  lemma PlainInfo(text: string)
    requires '#' !in ToLower(text)
    ensures var lower := ToLower(text);
      && (Contains(lower, "asleep") && !Contains(lower, "wakes") ==> DecodeEventInfo(text) == Ok(EventInfo(Some(FallAsleep), None)))
      && (Contains(lower, "wakes") && !Contains(lower, "asleep") ==> DecodeEventInfo(text) == Ok(EventInfo(Some(WakeUp), None)))
  {
    var r := DecodeEventInfo(text);
    assert r.Ok? && r.value.guardId.None?;
  }

  /** With nothing after the digits, the code drops the last digit. */
  lemma GuardAtEndOfText()
    ensures DecodeEventInfoAsWritten("Guard #10") == Ok(EventInfo(Some(ShiftStart), Some(1)))
    ensures DecodeEventInfo("Guard #10") == Ok(EventInfo(Some(ShiftStart), Some(10)))
  {
    GuardAtEndLower();
    HashSplit("guard ", "10");
    GuardAtEndDigits();
  }

  lemma GuardAtEndLower()
    ensures ToLower("Guard #10") == "guard " + ['#'] + "10"
    ensures '#' !in "guard "
  {
    ToLowerKeeps("#10");
    assert ToLower("Guard ") == "guard ";
    ToLowerConcat("Guard ", "#10");
    assert "Guard #10" == "Guard " + "#10";
  }

  /** The two cuts of "10" and the numbers they read as. */
  lemma GuardAtEndDigits()
    ensures GuardIdTextAsWritten("10") == "1" && ParseInt("1") == Int(1)
    ensures GuardIdText("10") == "10" && ParseInt("10") == Int(10)
  {
    assert ' ' !in "10";
    assert GuardIdText("10") == "10" by { IndexOfNone("10", ' '); }
    ParseIntOfDigits("1");
    ParseIntOfDigits("10");
    assert DigitsValue("10") == 10 by { assert "10"[..1] == "1" && "1"[..0] == ""; }
    assert DigitsValue("1") == 1 by { assert "1"[..0] == ""; }
  }

  // ---------------------------------------------------------------------
  // A whole line

  /** `getEventFromEventText`: the text up to and including the first `]` is
      the date and time; the rest, trimmed, is the event information. An
      invalid guard number is an error the whole solver stops on. */
  function GetEventFromEventText(line: string): (r: Result<ParsedEvent, Day4Error>)
    ensures r.Err? ==> r.error == InvalidGuardId
    ensures r.Ok? ==> (r.value.info.guardId.Some? <==> r.value.info.kind == Some(ShiftStart))
    ensures r.Ok? && r.value.info.guardId.Some? ==> r.value.info.guardId.value > 0
  {
    var close := IndexOf(line, ']');
    var timeDateSection := Slice(line, 0, close + 1);
    var infoSection := Trim(Slice(line, close + 1, |line| + 1));
    var info :- DecodeEventInfo(infoSection);
    Ok(ParsedEvent(DecodeEventTimeDateText(timeDateSection), info))
  }

  /** A line splits at its first `]`. */
  lemma EventTextSplit(stamp: string, rest: string)
    requires ']' !in stamp
    ensures GetEventFromEventText(stamp + "]" + rest)
         == match DecodeEventInfo(Trim(rest))
            case Ok(info) => Ok(ParsedEvent(DecodeEventTimeDateText(stamp + "]"), info))
            case Err(e) => Err(e)
  {
    var line := stamp + "]" + rest;
    IndexOfSplit(stamp, ']', rest);
    SliceSplit([], stamp + "]", rest);
    assert line == [] + (stamp + "]") + rest;
    assert Slice(line, |stamp| + 1, |line| + 1) == rest by {
      assert line[|stamp| + 1..] == rest;
    }
  }

  /** A well-formed log line reads back as its timestamp and its event. */
  lemma EventLineRoundTrip(y: string, mo: string, d: string, h: string, mi: string, info: string)
    requires y != [] && AllDigits(y) && mo != [] && AllDigits(mo) && d != [] && AllDigits(d)
    requires h != [] && AllDigits(h) && mi != [] && AllDigits(mi)
    requires DecodeEventInfo(Trim(info)).Ok?
    ensures GetEventFromEventText(StampText(y, mo, d, h, mi) + info)
         == Ok(ParsedEvent(TimeDate(Int(DigitsValue(y)), Int(DigitsValue(mo)), Int(DigitsValue(d)),
                                    Int(DigitsValue(h)), Int(DigitsValue(mi))),
                           DecodeEventInfo(Trim(info)).value))
  {
    var stamp := "[" + y + "-" + mo + "-" + d + " " + h + ":" + mi;
    StampHasNoClose(y, mo, d, h, mi);
    assert StampText(y, mo, d, h, mi) + info == stamp + "]" + info;
    EventTextSplit(stamp, info);
    StampRoundTrip(y, mo, d, h, mi);
  }

  /** The only `]` of a date and time section is its last character. */
  lemma StampHasNoClose(y: string, mo: string, d: string, h: string, mi: string)
    requires AllDigits(y) && AllDigits(mo) && AllDigits(d) && AllDigits(h) && AllDigits(mi)
    ensures ']' !in "[" + y + "-" + mo + "-" + d + " " + h + ":" + mi
    ensures StampText(y, mo, d, h, mi) == "[" + y + "-" + mo + "-" + d + " " + h + ":" + mi + "]"
  {
    DigitsExclude(y, ']'); DigitsExclude(mo, ']'); DigitsExclude(d, ']'); DigitsExclude(h, ']');
    DigitsExclude(mi, ']');
  }

  /** `eventsTextArray.map(getEventFromEventText)`: every line read, and the
      first invalid guard number aborts the lot. */
  function ParseEvents(lines: seq<string>): (r: Result<seq<ParsedEvent>, Day4Error>)
    ensures r.Ok? ==> (|r.value| == |lines|
      && forall i | 0 <= i < |lines| :: GetEventFromEventText(lines[i]) == Ok(r.value[i]))
    ensures r.Err? ==> r.error == InvalidGuardId
  {
    MapAll(lines, GetEventFromEventText)
  }

  /** `f` applied to each line in turn, stopping at the first error. */
  function MapAll<T>(lines: seq<string>, f: string -> Result<T, Day4Error>): (r: Result<seq<T>, Day4Error>)
    ensures r.Ok? ==> (|r.value| == |lines| && forall i | 0 <= i < |lines| :: f(lines[i]) == Ok(r.value[i]))
    ensures r.Err? ==> exists i | 0 <= i < |lines| :: f(lines[i]) == Err(r.error)
  {
    if lines == [] then Ok([])
    else
      var first :- f(lines[0]);
      var rest :- MapAll(lines[1..], f);
      assert forall i | 1 <= i < |lines| :: lines[i] == lines[1..][i - 1];
      Ok([first] + rest)
  }

  /** The event with its timestamp, when every field of it is a number. */
  function Stamped(p: ParsedEvent): (r: Option<Event>)
    ensures r.Some? <==> p.timeDate.year.Int? && p.timeDate.month.Int? && p.timeDate.day.Int?
                         && p.timeDate.hour.Int? && p.timeDate.minute.Int?
    ensures r.Some? ==> r.value.kind == p.info.kind && r.value.guard == p.info.guardId
                        && r.value.time.minute == p.timeDate.minute.value
  {
    var td := p.timeDate;
    if td.year.Int? && td.month.Int? && td.day.Int? && td.hour.Int? && td.minute.Int? then
      Some(Event(Timestamp(td.year.value, td.month.value, td.day.value, td.hour.value, td.minute.value),
                 p.info.kind, p.info.guardId))
    else None
  }

  /** All the events stamped, or an error when any timestamp has a field that
      is not a number. */
  function StampAll(parsed: seq<ParsedEvent>): (r: Result<seq<Event>, Day4Error>)
    ensures r.Ok? <==> forall i | 0 <= i < |parsed| :: Stamped(parsed[i]).Some?
    ensures r.Ok? ==> (|r.value| == |parsed|
      && forall i | 0 <= i < |parsed| :: Stamped(parsed[i]) == Some(r.value[i]))
    ensures r.Err? ==> r.error == MalformedTimestamp
  {
    if parsed == [] then Ok([])
    else
      var rest := StampAll(parsed[1..]);
      match Stamped(parsed[0])
      case None => Err(MalformedTimestamp)
      case Some(e) =>
        if rest.Err? then
          ghost var k :| 0 <= k < |parsed[1..]| && Stamped(parsed[1..][k]).None?;
          assert Stamped(parsed[k + 1]).None?;
          Err(MalformedTimestamp)
        else
          Ok([e] + rest.value)
  }
}
