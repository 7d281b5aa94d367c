/** The parts of nlu/nlu.py that need no parser or tagger: the token
    classifiers `is_iata`, `is_numeral` and `seems_like_airport`, the
    date and time parsers behind the time tagger, and the number and
    cabin-class detectors. The regular expressions are modelled by their
    match semantics: `^` anchors at the start, `$` at the end or just before
    a final newline, `\W` is a non-word character, `\d` a digit. */
module Nlu {
  import opened Wrappers
  import opened Text
  import opened Calendar

  // ---------------------------------------------------------------------
  // Token classifiers
  // ---------------------------------------------------------------------

  /** Characters matched by `\w`: the ASCII letters, digits and the underscore,
      and every character outside ASCII (Python's `\w` accepts only the Unicode
      letters and digits among those, so the model rejects `\W` matches such as
      '€' or a no-break space). */
  predicate IsWordChar(c: char) {
    IsUpperAscii(c) || IsLowerAscii(c) || IsDigit(c) || c == '_' || c as int >= 128
  }

  /** `$` at position i: the end of the string, or just before a final newline. */
  predicate AtEnd(s: string, i: int) {
    i == |s| || (0 <= i == |s| - 1 && s[i] == '\n')
  }

  /** `\W?$` from position i: the engine first tries to consume a non-word character, then nothing. */
  predicate OptionalNonWordAtEnd(s: string, i: nat)
    requires i <= |s|
  {
    (i < |s| && !IsWordChar(s[i]) && AtEnd(s, i + 1)) || AtEnd(s, i)
  }

  /** The strings `\W?$` accepts as the remainder of the input: nothing, or one
      non-word character, optionally followed by one final newline. */
  predicate AllowedTail(t: string) {
    |t| == 0 || (|t| == 1 && !IsWordChar(t[0])) || (|t| == 2 && !IsWordChar(t[0]) && t[1] == '\n')
  }

  lemma TailMatch(s: string, i: nat)
    requires i <= |s|
    ensures OptionalNonWordAtEnd(s, i) <==> AllowedTail(s[i..])
  {
  }

  /** `re.search(r'^[A-Z]{3}\W?$', word)`. */
  function IsIata(word: string): (r: bool)
    ensures r <==> |word| >= 3 && IsUpperAscii(word[0]) && IsUpperAscii(word[1]) && IsUpperAscii(word[2])
                   && AllowedTail(word[3..])
  {
    if |word| >= 3 && IsUpperAscii(word[0]) && IsUpperAscii(word[1]) && IsUpperAscii(word[2]) then
      TailMatch(word, 3);
      OptionalNonWordAtEnd(word, 3)
    else
      false
  }

  /** Number of leading digits of s: the greedy `\d+`. */
  function LeadingDigits(s: string): (k: nat)
    ensures k <= |s| && AllDigits(s[..k])
    ensures k < |s| ==> !IsDigit(s[k])
  {
    if |s| == 0 || !IsDigit(s[0]) then 0
    else
      var k := 1 + LeadingDigits(s[1..]);
      assert s[..k] == [s[0]] + s[1..][..k - 1];
      k
  }

  /** `re.search(r'^\d+\W?$', word)`: one or more digits, then the same tail as `is_iata`. */
  function IsNumeral(word: string): (r: bool)
    ensures r <==> exists k :: 1 <= k <= |word| && AllDigits(word[..k]) && AllowedTail(word[k..])
  {
    var k := LeadingDigits(word);
    TailMatch(word, k);
    if k >= 1 && OptionalNonWordAtEnd(word, k) then
      true
    else
      assert forall k' :: 1 <= k' <= |word| && AllDigits(word[..k']) && AllowedTail(word[k'..]) ==> k' == k by {
        forall k' | 1 <= k' <= |word| && AllDigits(word[..k']) && AllowedTail(word[k'..]) ensures k' == k {
          if k' < k { assert false; }
          if k < k' { assert false; }
        }
      }
      false
  }

  const AirportWords: seq<string> := ["AIRPORT", "AIRFIELD", "INTERNATIONAL", "MUNICIPAL", "REGIONAL"]

  /** `re.search('(AIRPORT|AIRFIELD|INTERNATIONAL|MUNICIPAL|REGIONAL)', name.upper())`:
      a name is airport-like only if it holds one of those words, so it has at least
      the seven letters of the shortest, and any name holding "airport" in any case is. */
  function SeemsLikeAirport(name: string): (r: bool)
    ensures r ==> |name| >= 7
    ensures Occurs("AIRPORT", Upper(name)) ==> r
  {
    assert forall w :: w in AirportWords ==> |w| >= 7;
    assert AirportWords[0] == "AIRPORT";
    exists w | w in AirportWords :: Occurs(w, Upper(name))
  }

  /** An airport word keeps a name airport-like wherever the name is embedded. */
  lemma SeemsLikeAirportInContext(prefix: string, name: string, suffix: string)
    requires SeemsLikeAirport(name)
    ensures SeemsLikeAirport(prefix + name + suffix)
  {
    var w :| w in AirportWords && Occurs(w, Upper(name));
    UpperAppend(prefix + name, suffix);
    UpperAppend(prefix, name);
    OccursInContext(w, Upper(prefix), Upper(name), Upper(suffix));
  }

  lemma UpperOfLower(s: string)
    ensures Upper(Lower(s)) == Upper(s)
  {
    assert forall i :: 0 <= i < |s| ==> Upper(Lower(s))[i] == Upper(s)[i];
  }

  /** The test ignores letter case. */
  lemma SeemsLikeAirportIgnoresCase(name: string)
    ensures SeemsLikeAirport(Lower(name)) == SeemsLikeAirport(name)
  {
    UpperOfLower(name);
  }

  // ---------------------------------------------------------------------
  // Times
  // ---------------------------------------------------------------------

  /** A `datetime.time` without seconds. */
  datatype TimeOfDay = TimeOfDay(hour: nat, minute: nat)

  /** What `parse_time` returns. `Period` holds two `datetime.time` values;
      `Around` holds two `datetime.datetime` values on strptime's default date,
      as minutes from 1900-01-01 00:00 (negative on the day before). */
  datatype TimeWindow =
    | NoTime
    | Period(earliest: TimeOfDay, latest: TimeOfDay)
    | Around(low: int, high: int)
    | Unparsed

  const TimeOfDayIndicators: set<string> := {"MO", "AF", "EV", "NI"}

  /** strptime's `%H`: `2[0-3]|[0-1]\d|\d`. */
  function HourField(h: string): (r: Option<nat>)
    ensures r.Some? ==> r.value < 24
  {
    if |h| == 1 && IsDigit(h[0]) then Some(DigitValue(h[0]))
    else if |h| == 2 && IsDigit(h[0]) && IsDigit(h[1]) && (h[0] <= '1' || (h[0] == '2' && h[1] <= '3')) then
      Some(10 * DigitValue(h[0]) + DigitValue(h[1]))
    else None
  }

  /** strptime's `%M`: `[0-5]\d|\d`. */
  function MinuteField(m: string): (r: Option<nat>)
    ensures r.Some? ==> r.value < 60
  {
    if |m| == 1 && IsDigit(m[0]) then Some(DigitValue(m[0]))
    else if |m| == 2 && IsDigit(m[0]) && IsDigit(m[1]) && m[0] <= '5' then
      Some(10 * DigitValue(m[0]) + DigitValue(m[1]))
    else None
  }

  /** `datetime.strptime(s, '%H:%M')` as (hour, minute); `None` for a ValueError.
      The hour is the one or two digits before the colon, the minute all the rest. */
  function ParseClock(s: string): (r: Option<(nat, nat)>)
    ensures r.Some? ==> r.value.0 < 24 && r.value.1 < 60
  {
    var colon := if |s| >= 2 && s[1] == ':' then 1 else 2;
    if |s| <= colon || s[colon] != ':' then None
    else match (HourField(s[..colon]), MinuteField(s[colon + 1..]))
      case (Some(h), Some(m)) => Some((h, m))
      case _ => None
  }

  function TwoDigits(n: nat): string
    requires n < 100
  {
    [DigitChar(n / 10), DigitChar(n % 10)]
  }

  /** Reading back a zero-padded "HH:MM" gives the same hour and minute. */
  lemma ParseClockRoundTrip(h: nat, m: nat)
    requires h < 24 && m < 60
    ensures ParseClock(TwoDigits(h) + ":" + TwoDigits(m)) == Some((h, m))
  {
    var s := TwoDigits(h) + ":" + TwoDigits(m);
    assert s[..2] == TwoDigits(h) && s[3..] == TwoDigits(m);
  }

  /** `parse_time`: "" gives None; MO, AF, EV and NI give fixed periods of the
      day; a valid "%H:%M" time gives the two hours around it; anything else
      gives (None, None). */
  function ParseTime(time: string): (r: TimeWindow)
    ensures r == NoTime <==> time == ""
    ensures r.Period? <==> time in TimeOfDayIndicators
    ensures r.Period? ==> r.earliest.hour < r.latest.hour
    ensures time == "MO" ==> r == Period(TimeOfDay(0, 0), TimeOfDay(12, 0))
    ensures time == "AF" ==> r == Period(TimeOfDay(12, 0), TimeOfDay(18, 0))
    ensures time == "EV" || time == "NI" ==> r == Period(TimeOfDay(18, 0), TimeOfDay(23, 59))
    ensures r.Around? <==> time != "" && time !in TimeOfDayIndicators && ParseClock(time).Some?
    ensures r.Around? ==> r.high - r.low == 120
                          && r.low + 60 == 60 * ParseClock(time).value.0 + ParseClock(time).value.1
  {
    if |time| < 1 then NoTime
    else if time in TimeOfDayIndicators then
      if time == "MO" then Period(TimeOfDay(0, 0), TimeOfDay(12, 0))
      else if time == "AF" then Period(TimeOfDay(12, 0), TimeOfDay(18, 0))
      else Period(TimeOfDay(18, 0), TimeOfDay(23, 59))
    else
      match ParseClock(time)
      case Some((h, m)) => Around(60 * h + m - 60, 60 * h + m + 60)
      case None => Unparsed
  }

  /** The window around a clock reading is centred on it and spans two hours,
      crossing into the neighbouring days near midnight. */
  lemma AroundWindow(h: nat, m: nat)
    requires h < 24 && m < 60
    ensures var time := TwoDigits(h) + ":" + TwoDigits(m);
            ParseTime(time) == Around(60 * h + m - 60, 60 * h + m + 60)
  {
    var time := TwoDigits(h) + ":" + TwoDigits(m);
    ParseClockRoundTrip(h, m);
    assert |time| == 5;
    assert time !in TimeOfDayIndicators;
  }

  // ---------------------------------------------------------------------
  // Dates
  // ---------------------------------------------------------------------

  /** strptime's `%m`: `1[0-2]|0[1-9]|[1-9]`. */
  function MonthField(m: string): (r: Option<int>)
    ensures r.Some? ==> 1 <= r.value <= 12
  {
    if |m| == 1 && '1' <= m[0] <= '9' then Some(DigitValue(m[0]))
    else if |m| == 2 && ((m[0] == '1' && '0' <= m[1] <= '2') || (m[0] == '0' && '1' <= m[1] <= '9')) then
      Some(10 * DigitValue(m[0]) + DigitValue(m[1]))
    else None
  }

  /** strptime's `%d`: `3[01]|[12]\d|0[1-9]|[1-9]| [1-9]` (note the space-padded form). */
  function DayField(d: string): (r: Option<int>)
    ensures r.Some? ==> 1 <= r.value <= 31
  {
    if |d| == 1 && '1' <= d[0] <= '9' then Some(DigitValue(d[0]))
    else if |d| == 2 && d[0] == ' ' && '1' <= d[1] <= '9' then Some(DigitValue(d[1]))
    else if |d| == 2 && ((d[0] == '3' && '0' <= d[1] <= '1') || ('1' <= d[0] <= '2' && IsDigit(d[1]))
                         || (d[0] == '0' && '1' <= d[1] <= '9')) then
      Some(10 * DigitValue(d[0]) + DigitValue(d[1]))
    else None
  }

  /** `datetime.strptime(s, '%Y-%m-%d')` turned into a date; `None` for a
      ValueError (a malformed string, year 0, or a day past the month's end). */
  function ParseIsoDate(s: string): (r: Option<Date>)
    ensures r.Some? ==> ValidDate(r.value) && r.value.year <= 9999
  {
    if |s| < 5 || !AllDigits(s[..4]) || s[4] != '-' then None
    else
      var rest := s[5..];
      var dash := if |rest| >= 2 && rest[1] == '-' then 1 else 2;
      if |rest| <= dash || rest[dash] != '-' then None
      else match (MonthField(rest[..dash]), DayField(rest[dash + 1..]))
        case (Some(m), Some(d)) =>
          var date := Date(NumberValue(s[..4]), m, d);
          assert NumberValue(s[..4]) <= 9999 by { NumberBound(s[..4]); }
          if ValidDate(date) then Some(date) else None
        case _ => None
  }

  lemma {:induction false} NumberBound(s: string)
    requires AllDigits(s)
    ensures NumberValue(s) < Pow10(|s|)
    decreases |s|
  {
    if |s| > 0 {
      NumberBound(s[..|s| - 1]);
    }
  }

  function Pow10(n: nat): nat {
    if n == 0 then 1 else 10 * Pow10(n - 1)
  }

  /** The year as four zero-padded digits. */
  function YearDigits(y: nat): string
    requires y <= 9999
  {
    [DigitChar(y / 1000), DigitChar(y / 100 % 10), DigitChar(y / 10 % 10), DigitChar(y % 10)]
  }

  /** `date.isoformat()` for a year of at most four digits. */
  function FormatIsoDate(d: Date): string
    requires ValidDate(d) && d.year <= 9999
  {
    YearDigits(d.year) + "-" + TwoDigits(d.month) + "-" + TwoDigits(d.day)
  }

  /** The four decimal digits of a year recombine to the year. */
  lemma DecimalDigits(y: nat)
    requires y <= 9999
    ensures y / 1000 < 10
    ensures ((y / 1000 * 10 + y / 100 % 10) * 10 + y / 10 % 10) * 10 + y % 10 == y
  {
    assert y / 10 / 10 == y / 100;
    assert y / 100 / 10 == y / 1000;
  }

  lemma YearDigitsValue(y: nat)
    requires y <= 9999
    ensures AllDigits(YearDigits(y)) && NumberValue(YearDigits(y)) == y
  {
    DecimalDigits(y);
    var s := YearDigits(y);
    var a, b, c, e := y / 1000, y / 100 % 10, y / 10 % 10, y % 10;
    assert DigitValue(s[0]) == a && DigitValue(s[1]) == b && DigitValue(s[2]) == c && DigitValue(s[3]) == e;
    assert s[..1][..0] == [] && s[..2][..1] == s[..1] && s[..3][..2] == s[..2] && s[..4] == s;
    assert NumberValue(s[..1]) == a;
    assert NumberValue(s[..2]) == a * 10 + b;
    assert NumberValue(s[..3]) == (a * 10 + b) * 10 + c;
  }

  lemma TwoDigitFields(n: nat)
    requires 1 <= n
    ensures n <= 12 ==> MonthField(TwoDigits(n)) == Some(n)
    ensures n <= 31 ==> DayField(TwoDigits(n)) == Some(n)
  {
  }

  /** Parsing an ISO-formatted date gives the date back. */
  lemma ParseIsoDateRoundTrip(d: Date)
    requires ValidDate(d) && d.year <= 9999
    ensures ParseIsoDate(FormatIsoDate(d)) == Some(d)
  {
    var s := FormatIsoDate(d);
    YearDigitsValue(d.year);
    TwoDigitFields(d.month);
    TwoDigitFields(d.day);
    assert s[..4] == YearDigits(d.year) && s[4] == '-';
    var rest := s[5..];
    assert rest == TwoDigits(d.month) + "-" + TwoDigits(d.day);
    assert rest[..2] == TwoDigits(d.month) && rest[3..] == TwoDigits(d.day);
  }

  /** `parse_date(date)` with `today` standing for the clock's current date:
      empty or malformed input gives None; a date before today is moved one week
      later (the tagger resolves weekday names to the past week); any other date is
      returned as parsed. */
  function ParseDate(date: string, today: Date): (r: Option<Date>)
    ensures date == "" ==> r == None
    ensures ParseIsoDate(date).None? ==> r == None
  {
    if |date| < 1 then None
    else match ParseIsoDate(date)
      case None => None
      case Some(d) => if Before(d, today) then Some(AddDays(d, 7)) else Some(d)
  }

  /** A parsed date earlier than today comes back exactly seven days later; any
      other parsed date comes back unchanged. */
  lemma ParseDateShift(date: string, today: Date)
    requires ParseIsoDate(date).Some? && ValidDate(today)
    ensures var d := ParseIsoDate(date).value;
            var r := ParseDate(date, today);
            r.Some? && ValidDate(r.value)
            && (Ordinal(d) < Ordinal(today) ==> Ordinal(r.value) == Ordinal(d) + 7)
            && (Ordinal(today) <= Ordinal(d) ==> r.value == d)
  {
    var d := ParseIsoDate(date).value;
    BeforeIsOrdinalOrder(d, today);
    AddDaysOrdinal(d, 7);
  }

  // ---------------------------------------------------------------------
  // Numbers
  // ---------------------------------------------------------------------

  /** `start <= number < end` for one (start, end) pair of the exclusion list. */
  predicate InSpan(n: int, span: (int, int)) {
    span.0 <= n < span.1
  }

  /** How many entries of the exclusion list contain n (repeated entries count twice). */
  function CoverCount(n: int, spans: seq<(int, int)>): nat {
    if |spans| == 0 then 0
    else CoverCount(n, spans[..|spans| - 1]) + (if InSpan(n, spans[|spans| - 1]) then 1 else 0)
  }

  lemma {:induction false} CoverCountZero(n: int, spans: seq<(int, int)>)
    ensures CoverCount(n, spans) == 0 <==> forall i :: 0 <= i < |spans| ==> !InSpan(n, spans[i])
  {
    if |spans| > 0 {
      CoverCountZero(n, spans[..|spans| - 1]);
    }
  }

  /** The result dictionary: `{'numbers': [...]}` or `{}`. */
  datatype NumberSlots = NoNumbers | Numbers(values: set<int>)

  function Slots(values: set<int>): NumberSlots {
    if values == {} then NoNumbers else Numbers(values)
  }

  /** The candidates that no exclusion entry contains. */
  function KeptNumbers(candidates: set<int>, exclude: seq<(int, int)>): set<int> {
    set n | n in candidates && CoverCount(n, exclude) == 0
  }

  /** `detect_numbers` on the integers already read from the utterance: every
      candidate inside an exclusion entry is removed from the copy; a candidate
      inside two entries makes the second `remove` raise a KeyError, reported as
      `Failure` with that candidate. */
  method DetectNumbers(candidates: set<int>, exclude: seq<(int, int)>) returns (r: Result<NumberSlots, int>)
    ensures r.Failure? <==> exists n :: n in candidates && CoverCount(n, exclude) >= 2
    ensures r.Failure? ==> r.error in candidates && CoverCount(r.error, exclude) >= 2
    ensures r.Success? ==> r.value == Slots(KeptNumbers(candidates, exclude))
  {
    var remaining := candidates;
    var pending := candidates;
    while pending != {}
      invariant pending <= candidates
      invariant forall n :: n in candidates - pending ==> CoverCount(n, exclude) <= 1
      invariant remaining == (candidates - (candidates - pending)) + KeptNumbers(candidates - pending, exclude)
      decreases pending
    {
      assert exists x :: x in pending by {
        if forall x :: x !in pending { assert false; }
      }
      var number :| number in pending;
      var j := 0;
      while j < |exclude|
        invariant 0 <= j <= |exclude|
        invariant CoverCount(number, exclude[..j]) <= 1
        invariant remaining == (candidates - (candidates - pending)) - (if CoverCount(number, exclude[..j]) == 1 then {number} else {})
                               + KeptNumbers(candidates - pending, exclude)
      {
        assert exclude[..j + 1][..j] == exclude[..j];
        if InSpan(number, exclude[j]) {
          if number !in remaining {
            assert CoverCount(number, exclude[..j + 1]) == 2;
            CoverCountGrows(number, exclude, j + 1);
            return Failure(number);
          }
          remaining := remaining - {number};
        }
        j := j + 1;
      }
      assert exclude[..j] == exclude;
      pending := pending - {number};
    }
    assert candidates - pending == candidates;
    if remaining != {} {
      r := Success(Numbers(remaining));
    } else {
      r := Success(NoNumbers);
    }
  }

  lemma {:induction false} CoverCountGrows(n: int, spans: seq<(int, int)>, j: nat)
    requires j <= |spans|
    ensures CoverCount(n, spans[..j]) <= CoverCount(n, spans)
    decreases |spans|
  {
    if j < |spans| {
      assert spans[..|spans| - 1][..j] == spans[..j];
      CoverCountGrows(n, spans[..|spans| - 1], j);
    } else {
      assert spans[..j] == spans;
    }
  }

  /** Every number that is kept lies outside every exclusion entry, and the
      'numbers' key is present exactly when one is kept. */
  lemma KeptNumbersOutsideSpans(candidates: set<int>, exclude: seq<(int, int)>)
    ensures forall n :: n in KeptNumbers(candidates, exclude) ==>
              n in candidates && forall i :: 0 <= i < |exclude| ==> !InSpan(n, exclude[i])
    ensures Slots(KeptNumbers(candidates, exclude)).Numbers? <==> KeptNumbers(candidates, exclude) != {}
  {
    forall n | n in KeptNumbers(candidates, exclude)
      ensures forall i :: 0 <= i < |exclude| ==> !InSpan(n, exclude[i])
    {
      CoverCountZero(n, exclude);
    }
  }

  /** A number found in the utterance together with the offset where its text starts. */
  datatype NumberMatch = NumberMatch(value: int, start: int)

  /** Intended behaviour: the exclusion entries are the character spans of the
      date and time expressions, so a number is dropped when its text starts
      inside such a span, whatever its value. */
  function NumbersOutsideTaggedText(found: seq<NumberMatch>, spans: seq<(int, int)>): (r: NumberSlots)
  {
    Slots(set k | 0 <= k < |found| && (forall i :: 0 <= i < |spans| ==> !InSpan(found[k].start, spans[i])) :: found[k].value)
  }

  /** The values of the numbers found, whatever their offsets. */
  function FoundValues(found: seq<NumberMatch>): set<int> {
    set k | 0 <= k < |found| :: found[k].value
  }

  /** Where every number's text starts at the offset equal to its value, the
      corrected detector keeps what the code keeps: the correction changes only
      what is compared with the spans, offsets instead of values. */
  lemma OffsetsAsValues(found: seq<NumberMatch>, spans: seq<(int, int)>)
    requires forall k :: 0 <= k < |found| ==> found[k].start == found[k].value
    ensures NumbersOutsideTaggedText(found, spans) == Slots(KeptNumbers(FoundValues(found), spans))
  {
    forall k | 0 <= k < |found| {
      CoverCountZero(found[k].value, spans);
    }
    var outside := set k | 0 <= k < |found| && (forall i :: 0 <= i < |spans| ==> !InSpan(found[k].start, spans[i])) :: found[k].value;
    forall n | n in KeptNumbers(FoundValues(found), spans) ensures n in outside {
      var k :| 0 <= k < |found| && found[k].value == n;
    }
  }

  /** A value all of whose occurrences start inside tagged text is never
      reported, however small it is. */
  lemma NumbersInsideTaggedTextDropped(found: seq<NumberMatch>, spans: seq<(int, int)>, v: int)
    requires forall k :: 0 <= k < |found| && found[k].value == v ==>
               exists i :: 0 <= i < |spans| && InSpan(found[k].start, spans[i])
    ensures NumbersOutsideTaggedText(found, spans) == NoNumbers || v !in NumbersOutsideTaggedText(found, spans).values
  {
  }

  /** "2 passengers on December 5": the date expression covers characters 16 to 26.
      The code compares the number values 2 and 5 with those offsets, keeps both,
      and so reports the day of the date as a number; the corrected detector keeps only 2. */
  lemma DetectNumbersComparesValuesWithOffsets()
    ensures KeptNumbers({2, 5}, [(16, 26)]) == {2, 5}
    ensures NumbersOutsideTaggedText([NumberMatch(2, 0), NumberMatch(5, 25)], [(16, 26)]) == Numbers({2})
  {
    assert CoverCount(2, [(16, 26)]) == 0 && CoverCount(5, [(16, 26)]) == 0;
    var found := [NumberMatch(2, 0), NumberMatch(5, 25)];
    var kept := set k | 0 <= k < |found| && (forall i :: 0 <= i < 1 ==> !InSpan(found[k].start, [(16, 26)][i])) :: found[k].value;
    assert !InSpan(found[0].start, (16, 26));
    assert InSpan(found[1].start, (16, 26));
    assert kept == {2};
  }

  // ---------------------------------------------------------------------
  // Cabin class
  // ---------------------------------------------------------------------

  /** CABIN_CLASS_WORDS, in the dictionary's order. */
  const CabinClassWords: seq<(string, string)> :=
    [("coach", "COACH"), ("economy", "COACH"), ("deluxe", "PREMIUM_COACH"),
     ("premium", "PREMIUM_COACH"), ("business", "BUSINESS"), ("first", "FIRST")]

  /** The cabin values of the table, which are the flight-search API's cabin names. */
  const CabinValues: set<string> := {"COACH", "PREMIUM_COACH", "BUSINESS", "FIRST"}

  /** The value of the last table entry whose keyword occurs in text. */
  function LastMatch(table: seq<(string, string)>, text: string): (r: Option<string>)
    ensures r.Some? ==> exists i :: 0 <= i < |table| && table[i].1 == r.value && Occurs(table[i].0, text)
    ensures r.None? ==> forall i :: 0 <= i < |table| ==> !Occurs(table[i].0, text)
  {
    if |table| == 0 then None
    else if Occurs(table[|table| - 1].0, text) then Some(table[|table| - 1].1)
    else LastMatch(table[..|table| - 1], text)
  }

  /** What `detect_cabin_class` stores under 'cabin_class', as written. */
  function CabinClassOf(text: string): Option<string> {
    var lower := Lower(text);
    if Occurs("premium", lower) || Occurs("deluxe", lower) then Some("PREMIUM COACH")
    else LastMatch(CabinClassWords, lower)
  }

  /** `detect_cabin_class` on the utterance text: "premium" or "deluxe" returns
      at once; otherwise every keyword found overwrites the entry, so the last one
      in table order wins. */
  method DetectCabinClass(text: string) returns (cabin: Option<string>)
    ensures cabin == CabinClassOf(text)
  {
    var lower := Lower(text);
    if Occurs("premium", lower) || Occurs("deluxe", lower) {
      return Some("PREMIUM COACH");
    }
    cabin := None;
    for i := 0 to |CabinClassWords|
      invariant cabin == LastMatch(CabinClassWords[..i], lower)
    {
      assert CabinClassWords[..i + 1][..i] == CabinClassWords[..i];
      if Occurs(CabinClassWords[i].0, lower) {
        cabin := Some(CabinClassWords[i].1);
      }
    }
    assert CabinClassWords[..|CabinClassWords|] == CabinClassWords;
  }

  /** The priority the table order gives: premium/deluxe, then first, then
      business, then economy or coach, else nothing. */
  lemma CabinClassPriority(text: string)
    ensures var lower := Lower(text);
            CabinClassOf(text) ==
              if Occurs("premium", lower) || Occurs("deluxe", lower) then Some("PREMIUM COACH")
              else if Occurs("first", lower) then Some("FIRST")
              else if Occurs("business", lower) then Some("BUSINESS")
              else if Occurs("economy", lower) || Occurs("coach", lower) then Some("COACH")
              else None
  {
    var t, l := CabinClassWords, Lower(text);
    assert t[..1][..0] == [];
    var m1 := if Occurs("coach", l) then Some("COACH") else None;
    assert LastMatch(t[..1], l) == m1;
    var m2 := if Occurs("economy", l) then Some("COACH") else m1;
    assert t[..2][..1] == t[..1];
    assert LastMatch(t[..2], l) == m2;
    var m3 := if Occurs("deluxe", l) then Some("PREMIUM_COACH") else m2;
    assert t[..3][..2] == t[..2];
    assert LastMatch(t[..3], l) == m3;
    var m4 := if Occurs("premium", l) then Some("PREMIUM_COACH") else m3;
    assert t[..4][..3] == t[..3];
    assert LastMatch(t[..4], l) == m4;
    var m5 := if Occurs("business", l) then Some("BUSINESS") else m4;
    assert t[..5][..4] == t[..4];
    assert LastMatch(t[..5], l) == m5;
    assert t[..6][..5] == t[..5] && t[..6] == t;
    assert LastMatch(t, l) == if Occurs("first", l) then Some("FIRST") else m5;
  }

  /** Intended behaviour: the premium branch stores the table's own value. */
  function CabinClassCorrected(text: string): Option<string> {
    var lower := Lower(text);
    if Occurs("premium", lower) || Occurs("deluxe", lower) then Some("PREMIUM_COACH")
    else LastMatch(CabinClassWords, lower)
  }

  /** With the correction, every detected cabin class is one of the API's cabin values. */
  lemma CabinClassCorrectedInTable(text: string)
    ensures CabinClassCorrected(text).Some? ==> CabinClassCorrected(text).value in CabinValues
  {
    var r := LastMatch(CabinClassWords, Lower(text));
    if r.Some? {
      var i :| 0 <= i < |CabinClassWords| && CabinClassWords[i].1 == r.value && Occurs(CabinClassWords[i].0, Lower(text));
      assert i in {0, 1, 2, 3, 4, 5};
    }
  }

  /** As written, "premium" yields "PREMIUM COACH", which is none of the table's values. */
  lemma CabinClassPremiumMisspelt()
    ensures CabinClassOf("premium economy") == Some("PREMIUM COACH")
    ensures "PREMIUM COACH" !in CabinValues
  {
    var lower := Lower("premium economy");
    assert lower == "premium economy";
    assert OccursAt("premium", lower, 0);
  }
}
