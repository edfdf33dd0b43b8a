/**
 * The dosing-instruction parser of add_medication.php
 * (`generarHorariosDesdeInstrucciones`) and the 24-hour to 12-hour formatter
 * of its page script (`convertirHora12Horas`).
 *
 * The parser lower-cases the text and tries three rules, the first that
 * matches wins:
 *   1. an interval phrase `/(\d+)\s*(hora|hr|h)/` (first match only), looked up
 *      in a table of five intervals, otherwise expanded by a loop from 00:00;
 *   2. every clock time `/(\d{1,2}):?(\d{2})?\s*(am|pm)?/`;
 *   3. Spanish keyword heuristics.
 * The collected "HH:MM" strings are then deduplicated, sorted and cut to six.
 */
module ScheduleParser {
  import opened Wrappers
  import opened Text
  import opened PhpArrays

  /** `24 / 0` raises DivisionByZeroError for the phrase "0 horas". */
  datatype ParseError = DivisionByZero

  // ---------------------------------------------------------------------------
  // Scanning helpers
  // ---------------------------------------------------------------------------

  /** End of the run of digits that starts at `i`. */
  function DigitRunEnd(t: string, i: nat): (j: nat)
    requires i <= |t|
    ensures i <= j <= |t| && (j == |t| || !IsDigit(t[j]))
    ensures forall k :: i <= k < j ==> IsDigit(t[k])
    decreases |t| - i
  {
    if i < |t| && IsDigit(t[i]) then DigitRunEnd(t, i + 1) else i
  }

  /** End of the run of `\s` characters that starts at `i`. */
  function SpacesEnd(t: string, i: nat): (j: nat)
    requires i <= |t|
    ensures i <= j <= |t| && (j == |t| || !IsRegexSpace(t[j]))
    ensures forall k :: i <= k < j ==> IsRegexSpace(t[k])
    decreases |t| - i
  {
    if i < |t| && IsRegexSpace(t[i]) then SpacesEnd(t, i + 1) else i
  }

  lemma {:induction false} DigitRunEndInside(t: string, i: nat, q: nat)
    requires i <= |t| && i <= q <= DigitRunEnd(t, i)
    ensures DigitRunEnd(t, q) == DigitRunEnd(t, i)
    decreases q - i
  {
    if i < q {
      DigitRunEndInside(t, i + 1, q);
    }
  }

  // ---------------------------------------------------------------------------
  // "HH:MM" strings
  // ---------------------------------------------------------------------------

  /** `sprintf('%02d:%02d', $hora, $minutos)`. */
  function ClockText(h: nat, m: nat): string
  {
    Pad2(h) + ":" + Pad2(m)
  }

  predicate IsClockString(s: string)
  {
    |s| == 5 && IsDigit(s[0]) && IsDigit(s[1]) && s[2] == ':' && IsDigit(s[3]) && IsDigit(s[4])
  }

  function HourOf(s: string): nat
    requires IsClockString(s)
  {
    DecimalValue(s[..2])
  }

  function MinuteOf(s: string): nat
    requires IsClockString(s)
  {
    DecimalValue(s[3..])
  }

  /** Printing two numbers below 100 gives a clock string that reads back as them ... */
  lemma ClockTextReads(h: nat, m: nat)
    requires h < 100 && m < 100
    ensures IsClockString(ClockText(h, m))
    ensures HourOf(ClockText(h, m)) == h && MinuteOf(ClockText(h, m)) == m
  {
    Pad2Value(h);
    Pad2Value(m);
    var s := ClockText(h, m);
    assert s[..2] == Pad2(h);
    assert s[3..] == Pad2(m);
  }

  /** ... and every clock string is the printing of what it reads as. */
  lemma ClockTextOfString(s: string)
    requires IsClockString(s)
    ensures HourOf(s) < 100 && MinuteOf(s) < 100 && ClockText(HourOf(s), MinuteOf(s)) == s
  {
    Pad2OfDigits(s[..2]);
    Pad2OfDigits(s[3..]);
    assert s == s[..2] + ":" + s[3..];
  }

  lemma TwoDigitLess(a: nat, b: nat)
    requires a < 100 && b < 100
    ensures Less(Pad2(a), Pad2(b)) <==> a < b
  {
    Pad2Digits(a);
    Pad2Digits(b);
    LessAppend([DigitChar(a / 10)], [DigitChar(b / 10)], [DigitChar(a % 10)], [DigitChar(b % 10)]);
    assert [DigitChar(a / 10)] + [DigitChar(a % 10)] == Pad2(a);
    assert [DigitChar(b / 10)] + [DigitChar(b % 10)] == Pad2(b);
    assert Less([DigitChar(a / 10)], [DigitChar(b / 10)]) <==> a / 10 < b / 10;
    assert Less([DigitChar(a % 10)], [DigitChar(b % 10)]) <==> a % 10 < b % 10;
  }

  /**
   * `sort` compares the strings byte by byte, which on clock strings is the
   * order of the times they denote: hours first, then minutes.
   */
  lemma ClockOrder(h1: nat, m1: nat, h2: nat, m2: nat)
    requires h1 < 100 && m1 < 100 && h2 < 100 && m2 < 100
    ensures Less(ClockText(h1, m1), ClockText(h2, m2)) <==> h1 < h2 || (h1 == h2 && m1 < m2)
  {
    assert ClockText(h1, m1) == Pad2(h1) + (":" + Pad2(m1));
    assert ClockText(h2, m2) == Pad2(h2) + (":" + Pad2(m2));
    LessAppend(Pad2(h1), Pad2(h2), ":" + Pad2(m1), ":" + Pad2(m2));
    LessAppend(":", ":", Pad2(m1), Pad2(m2));
    LessIrreflexive(":");
    TwoDigitLess(h1, h2);
    TwoDigitLess(m1, m2);
    Pad2Value(h1);
    Pad2Value(h2);
  }

  // ---------------------------------------------------------------------------
  // Rule 1: the interval phrase /(\d+)\s*(hora|hr|h)/
  // ---------------------------------------------------------------------------

  /**
   * The pattern matches with its match starting at `p`: digits from `p`, then
   * `\s*`, then an `h` (each of "hora", "hr", "h" starts with it). The greedy
   * `\d+` always takes the whole digit run, since a shorter run is followed
   * by a digit, which is neither a space nor `h`.
   */
  predicate IntervalMatchAt(t: string, p: nat)
  {
    p < |t| && IsDigit(t[p]) &&
    var k := SpacesEnd(t, DigitRunEnd(t, p));
    k < |t| && t[k] == 'h'
  }

  /** The number spelled by the run of digits that starts at `p`. */
  function RunValue(t: string, p: nat): nat
    requires p <= |t|
  {
    DecimalValue(t[p..DigitRunEnd(t, p)])
  }

  /** The captured number of the leftmost match at or after `i`, if any. */
  function IntervalFrom(t: string, i: nat): Option<nat>
    requires i <= |t|
    decreases |t| - i
  {
    if i == |t| then None
    else if !IsDigit(t[i]) then IntervalFrom(t, i + 1)
    else
      var j := DigitRunEnd(t, i);
      var k := SpacesEnd(t, j);
      if k < |t| && t[k] == 'h' then Some(RunValue(t, i)) else IntervalFrom(t, j)
  }

  /**
   * The scan finds PCRE's match: the leftmost start position where the
   * pattern matches, and `None` exactly when there is none.
   */
  lemma {:induction false} IntervalFromSpec(t: string, i: nat)
    requires i <= |t|
    ensures IntervalFrom(t, i).None? <==> forall p :: i <= p < |t| ==> !IntervalMatchAt(t, p)
    ensures IntervalFrom(t, i).Some? ==>
              exists p :: i <= p < |t| && IntervalMatchAt(t, p) &&
                (forall q :: i <= q < p ==> !IntervalMatchAt(t, q)) &&
                IntervalFrom(t, i).value == RunValue(t, p)
    decreases |t| - i
  {
    if i < |t| {
      if !IsDigit(t[i]) {
        assert !IntervalMatchAt(t, i);
        IntervalFromSpec(t, i + 1);
      } else {
        var j := DigitRunEnd(t, i);
        var k := SpacesEnd(t, j);
        if k < |t| && t[k] == 'h' {
          assert IntervalMatchAt(t, i);
        } else {
          forall q | i <= q < j ensures !IntervalMatchAt(t, q) {
            DigitRunEndInside(t, i, q);
          }
          IntervalFromSpec(t, j);
        }
      }
    }
  }

  /** `preg_match('/(\d+)\s*(hora|hr|h)/', $texto, $matches)` and `intval($matches[1])`. */
  function IntervalPhrase(t: string): Option<nat>
  {
    IntervalFrom(t, 0)
  }

  /** Rule 1 can only fire on a text with an `h` in it. */
  lemma NoHourLetterNoInterval(t: string)
    requires forall i :: 0 <= i < |t| ==> t[i] != 'h'
    ensures IntervalPhrase(t) == None
  {
    IntervalFromSpec(t, 0);
  }

  /** Rule 1 can only fire on a text with a digit in it. */
  lemma NoDigitNoInterval(t: string)
    requires !HasDigit(t)
    ensures IntervalPhrase(t) == None
  {
    IntervalFromSpec(t, 0);
  }

  /** The switch on the interval: five fixed lists, anchored at 08:00, in the order the source writes them. */
  function IntervalTable(n: nat): Option<seq<string>>
  {
    if n == 24 then Some(["08:00"])
    else if n == 12 then Some(["08:00", "20:00"])
    else if n == 8 then Some(["08:00", "16:00", "00:00"])
    else if n == 6 then Some(["08:00", "14:00", "20:00", "02:00"])
    else if n == 4 then Some(["08:00", "12:00", "16:00", "20:00", "00:00", "04:00"])
    else None
  }

  /** What the default loop appends once its hour has reached `h`: "%02d:00" of h, h + n, ... below 24. */
  function HoursFrom(h: nat, n: nat): seq<string>
    requires n > 0
    decreases 24 - h
  {
    if h >= 24 then [] else [ClockText(h, 0)] + HoursFrom(h + n, n)
  }

  /**
   * The default branch emits ceil(24 / n) entries (not floor): the count c is
   * the least with c * n >= 24 ...
   */
  lemma {:induction false} HoursFromCount(h: nat, n: nat)
    requires n > 0
    ensures h + |HoursFrom(h, n)| * n >= 24
    ensures |HoursFrom(h, n)| == 0 || h + (|HoursFrom(h, n)| - 1) * n < 24
    decreases 24 - h
  {
    if h < 24 {
      HoursFromCount(h + n, n);
      var c := |HoursFrom(h + n, n)|;
      assert |HoursFrom(h, n)| == c + 1;
      ShiftOne(h, n, c);
      if c > 0 {
        ShiftOne(h, n, c - 1);
      }
    }
  }

  /** ... and entry i is "%02d:00" of h + i * n, an hour of the day. */
  lemma {:induction false} HoursFromEntry(h: nat, n: nat, i: nat)
    requires n > 0 && i < |HoursFrom(h, n)|
    ensures h + i * n < 24 && HoursFrom(h, n)[i] == ClockText(h + i * n, 0)
    decreases i
  {
    if i > 0 {
      HoursFromEntry(h + n, n, i - 1);
      ShiftOne(h, n, i - 1);
    }
  }

  lemma HoursFromEntries(h: nat, n: nat)
    requires n > 0
    ensures forall i :: 0 <= i < |HoursFrom(h, n)| ==>
              h + i * n < 24 && HoursFrom(h, n)[i] == ClockText(h + i * n, 0)
  {
    forall i | 0 <= i < |HoursFrom(h, n)|
      ensures h + i * n < 24 && HoursFrom(h, n)[i] == ClockText(h + i * n, 0)
    {
      HoursFromEntry(h, n, i);
    }
  }

  /** Every entry is a "dd:00" string of an hour of the day. */
  lemma {:induction false} HoursFromClockStrings(h: nat, n: nat)
    requires n > 0
    ensures forall x :: x in HoursFrom(h, n) ==> IsClockString(x) && HourOf(x) < 24
    decreases 24 - h
  {
    if h < 24 {
      HoursFromClockStrings(h + n, n);
      ClockTextReads(h, 0);
    }
  }

  /** Every entry comes after the time g:00 when g is an earlier hour. */
  lemma {:induction false} HoursFromAfter(h: nat, n: nat, g: nat)
    requires n > 0 && g < h
    ensures forall x :: x in HoursFrom(h, n) ==> Less(ClockText(g, 0), x)
    decreases 24 - h
  {
    if h < 24 {
      HoursFromAfter(h + n, n, g);
      ClockOrder(g, 0, h, 0);
    }
  }

  lemma ShiftOne(h: int, n: int, c: int)
    ensures h + (c + 1) * n == (h + n) + c * n
  {
  }

  // ---------------------------------------------------------------------------
  // Rule 2: clock times /(\d{1,2}):?(\d{2})?\s*(am|pm)?/
  // ---------------------------------------------------------------------------

  datatype Period = NoPeriod | Am | Pm

  /** One match: the hour digits, the minutes (0 when the group is absent) and the period. */
  datatype ClockMatch = ClockMatch(hour: nat, minutes: nat, period: Period)

  /**
   * The match that starts at the digit `t[i]` and where it ends. Every part
   * after the hour is optional and taken greedily, so PCRE never backtracks.
   */
  function MatchClockAt(t: string, i: nat): (res: (ClockMatch, nat))
    requires i < |t| && IsDigit(t[i])
    ensures i < res.1 <= |t|
    ensures res.0.hour < 100 && res.0.minutes < 100
  {
    var hEnd := HourEnd(t, i);
    var hourDigits := t[i..hEnd];
    var hour := DecimalValue(hourDigits);
    assert hour < 100 by {
      ShortDecimal(hourDigits);
    }
    var colonEnd := ColonEnd(t, hEnd);
    var hasMinutes := HasMinutes(t, colonEnd);
    var minutes := if hasMinutes then DecimalValue(t[colonEnd..colonEnd + 2]) else 0;
    assert minutes < 100 by {
      if hasMinutes { ShortDecimal(t[colonEnd..colonEnd + 2]); }
    }
    var p := SpacesEnd(t, if hasMinutes then colonEnd + 2 else colonEnd);
    var period := PeriodAt(t, p);
    (ClockMatch(hour, minutes, period), if period == NoPeriod then p else p + 2)
  }

  /** `\d{1,2}`: one or two digits from the digit at `i`. */
  function HourEnd(t: string, i: nat): (j: nat)
    requires i < |t|
    ensures i < j <= |t| && j <= i + 2
  {
    if i + 1 < |t| && IsDigit(t[i + 1]) then i + 2 else i + 1
  }

  /** `:?`: an optional colon at `j`. */
  function ColonEnd(t: string, j: nat): (k: nat)
    requires j <= |t|
    ensures j <= k <= |t| && k <= j + 1
  {
    if j < |t| && t[j] == ':' then j + 1 else j
  }

  /** `(\d{2})?`: two digits at `k`. */
  predicate HasMinutes(t: string, k: nat)
  {
    k + 1 < |t| && IsDigit(t[k]) && IsDigit(t[k + 1])
  }

  /** `(am|pm)?` at `p`. */
  function PeriodAt(t: string, p: nat): (r: Period)
    requires p <= |t|
    ensures r != NoPeriod ==> p + 1 < |t|
  {
    if p + 1 < |t| && t[p..p + 2] == "am" then Am
    else if p + 1 < |t| && t[p..p + 2] == "pm" then Pm
    else NoPeriod
  }

  /** `preg_match_all` with PREG_SET_ORDER, from position `i` on. */
  function ClockMatchesFrom(t: string, i: nat): (ms: seq<ClockMatch>)
    requires i <= |t|
    ensures forall k :: 0 <= k < |ms| ==> ms[k].hour < 100 && ms[k].minutes < 100
    decreases |t| - i
  {
    if i == |t| then []
    else if !IsDigit(t[i]) then ClockMatchesFrom(t, i + 1)
    else [MatchClockAt(t, i).0] + ClockMatchesFrom(t, MatchClockAt(t, i).1)
  }

  /** `preg_match_all` finds a match exactly when the text holds a digit. */
  lemma {:induction false} ClockMatchesFromNonEmpty(t: string, i: nat)
    requires i <= |t|
    ensures |ClockMatchesFrom(t, i)| > 0 <==> exists k :: i <= k < |t| && IsDigit(t[k])
    decreases |t| - i
  {
    if i < |t| && !IsDigit(t[i]) {
      ClockMatchesFromNonEmpty(t, i + 1);
    }
  }

  function ClockMatches(t: string): seq<ClockMatch>
  {
    ClockMatchesFrom(t, 0)
  }

  /** "pm" below 12 adds 12, "12 am" becomes 0; nothing checks the range. */
  function Hour24(m: ClockMatch): nat
  {
    if m.period == Pm && m.hour < 12 then m.hour + 12
    else if m.period == Am && m.hour == 12 then 0
    else m.hour
  }

  function ClockTime(m: ClockMatch): string
  {
    ClockText(Hour24(m), m.minutes)
  }

  function ClockTimes(ms: seq<ClockMatch>): seq<string>
  {
    seq(|ms|, k requires 0 <= k < |ms| => ClockTime(ms[k]))
  }

  // ---------------------------------------------------------------------------
  // Rule 3: keywords
  // ---------------------------------------------------------------------------

  const ThreeMeals: seq<string> := ["08:00", "13:00", "20:00"]

  function KeywordTimes(t: string): seq<string>
  {
    if Contains(t, "mañana") && Contains(t, "noche") then ["08:00", "20:00"]
    else if Contains(t, "desayuno") && Contains(t, "cena") then ["08:00", "20:00"]
    else if Contains(t, "desayuno") && Contains(t, "almuerzo") && Contains(t, "cena") then ThreeMeals
    else if Contains(t, "una vez") || Contains(t, "al día") then ["08:00"]
    else []
  }

  /** The three-meal branch can never be taken: its condition implies the one before it. */
  lemma ThreeMealBranchUnreachable(t: string)
    ensures KeywordTimes(t) != ThreeMeals
  {
  }

  // ---------------------------------------------------------------------------
  // The parser
  // ---------------------------------------------------------------------------

  /** The list `$horarios` holds before post-processing, for an already lower-cased text. */
  function RawTimes(t: string): Result<seq<string>, ParseError>
  {
    match IntervalPhrase(t)
    case Some(n) =>
      if IntervalTable(n).Some? then Success(IntervalTable(n).value)
      else if n == 0 then Failure(DivisionByZero)
      else Success(HoursFrom(0, n))
    case None =>
      if |ClockMatches(t)| > 0 then Success(ClockTimes(ClockMatches(t)))
      else Success(KeywordTimes(t))
  }

  /** The function's result: the collected times, deduplicated, sorted and cut to six. */
  function Schedule(instructions: string): Result<seq<string>, ParseError>
  {
    match RawTimes(Lower(instructions))
    case Success(h) => Success(Normalize(h))
    case Failure(e) => Failure(e)
  }

  /** The default branch's loop: "%02d:00" of i * n while i * n < 24. */
  method DefaultHours(n: nat) returns (horarios: seq<string>)
    requires n > 0
    ensures horarios == HoursFrom(0, n)
  {
    ghost var hs := HoursFrom(0, n);
    horarios := [];
    var i := 0;
    while i * n < 24
      invariant 0 <= i <= |hs|
      invariant horarios == hs[..i]
      decreases |hs| - i
    {
      HoursFromLength(n, i);
      HoursFromEntry(0, n, i);
      var hora := i * n;
      assert hs[i] == ClockText(hora, 0);
      assert hs[..i + 1] == hs[..i] + [hs[i]];
      horarios := horarios + [ClockText(hora, 0)];
      i := i + 1;
    }
    HoursFromLength(n, i);
    assert hs[..i] == hs;
  }

  /** The loop's test `$i < 24 / $intervalo_horas` holds exactly for the indices of the list. */
  lemma HoursFromLength(n: nat, i: nat)
    requires n > 0
    ensures i * n < 24 <==> i < |HoursFrom(0, n)|
  {
    HoursFromCount(0, n);
    var c := |HoursFrom(0, n)|;
    if i < c {
      MulMonotone(i, c - 1, n);
    } else {
      MulMonotone(c, i, n);
    }
  }

  lemma MulMonotone(a: nat, b: nat, n: nat)
    requires a <= b
    ensures a * n <= b * n
  {
  }

  /** The loop over the clock-time matches. */
  method CollectClockTimes(matches: seq<ClockMatch>) returns (horarios: seq<string>)
    ensures horarios == ClockTimes(matches)
  {
    horarios := [];
    var k := 0;
    while k < |matches|
      invariant 0 <= k <= |matches|
      invariant horarios == ClockTimes(matches[..k])
    {
      assert ClockTimes(matches[..k + 1]) == ClockTimes(matches[..k]) + [ClockTime(matches[k])] by {
        var prefix := matches[..k + 1];
        assert forall j :: 0 <= j < k ==> prefix[j] == matches[..k][j];
      }
      horarios := horarios + [ClockTime(matches[k])];
      k := k + 1;
    }
    assert matches[..k] == matches;
  }

  /** `generarHorariosDesdeInstrucciones`. */
  method GenerateSchedule(instructions: string) returns (r: Result<seq<string>, ParseError>)
    ensures r == Schedule(instructions)
    ensures r.Success? ==> |r.value| <= MaxTimes && StrictlyIncreasing(r.value)
  {
    var horarios: seq<string>;
    var texto := Lower(instructions);
    var interval := IntervalPhrase(texto);
    if interval.Some? {
      var n := interval.value;
      var table := IntervalTable(n);
      if table.Some? {
        horarios := table.value;
      } else if n == 0 {
        return Failure(DivisionByZero);
      } else {
        horarios := DefaultHours(n);
      }
    } else {
      var matches := ClockMatches(texto);
      if |matches| > 0 {
        horarios := CollectClockTimes(matches);
      } else {
        horarios := KeywordTimes(texto);
      }
    }
    assert RawTimes(texto) == Success(horarios);
    NormalizeSpec(horarios);
    r := Success(Normalize(horarios));
  }

  // ---------------------------------------------------------------------------
  // Properties of the parser
  // ---------------------------------------------------------------------------

  lemma {:induction false} HoursFromStrict(h: nat, n: nat)
    requires n > 0
    ensures StrictlyIncreasing(HoursFrom(h, n))
    decreases 24 - h
  {
    if h < 24 {
      HoursFromStrict(h + n, n);
      HoursFromAfter(h + n, n, h);
      var s := HoursFrom(h, n);
      var rest := HoursFrom(h + n, n);
      forall i, j | 0 <= i < j < |s| ensures Less(s[i], s[j]) {
        assert s[j] == rest[j - 1];
        if i > 0 {
          assert s[i] == rest[i - 1];
        }
      }
    }
  }

  lemma TabledList(raw: seq<string>, sorted: seq<string>)
    requires forall x :: x in raw <==> x in sorted
    requires StrictlyIncreasing(sorted) && |sorted| <= MaxTimes
    ensures Normalize(raw) == sorted
  {
    NormalizeSameValues(raw, sorted);
    NormalizeOfStrict(sorted);
  }

  /** An hour of the day printed on the hour: its two digits and ":00". */
  lemma OnTheHour(h: nat)
    requires h < 24
    ensures ClockText(h, 0) == [DigitChar(h / 10), DigitChar(h % 10), ':', '0', '0']
  {
    Pad2Digits(h);
    Pad2Digits(0);
  }

  // Each table, once sorted, is a run of hours spaced by its interval.

  lemma Run24()
    ensures HoursFrom(8, 24) == ["08:00"]
  {
    OnTheHour(8);
    assert HoursFrom(32, 24) == [];
  }

  lemma Run12()
    ensures HoursFrom(8, 12) == ["08:00", "20:00"]
  {
    OnTheHour(8); OnTheHour(20);
    assert HoursFrom(32, 12) == [];
    assert HoursFrom(20, 12) == ["20:00"];
  }

  lemma Run8()
    ensures HoursFrom(0, 8) == ["00:00", "08:00", "16:00"]
  {
    OnTheHour(0); OnTheHour(8); OnTheHour(16);
    assert HoursFrom(24, 8) == [];
    assert HoursFrom(16, 8) == ["16:00"];
    assert HoursFrom(8, 8) == ["08:00", "16:00"];
  }

  lemma Run6()
    ensures HoursFrom(2, 6) == ["02:00", "08:00", "14:00", "20:00"]
  {
    OnTheHour(2); OnTheHour(8);
    OnTheHour(14); OnTheHour(20);
    assert HoursFrom(26, 6) == [];
    assert HoursFrom(20, 6) == ["20:00"];
    assert HoursFrom(14, 6) == ["14:00", "20:00"];
    assert HoursFrom(8, 6) == ["08:00", "14:00", "20:00"];
  }

  lemma Run4()
    ensures HoursFrom(0, 4) == ["00:00", "04:00", "08:00", "12:00", "16:00", "20:00"]
  {
    OnTheHour(0); OnTheHour(4); OnTheHour(8);
    OnTheHour(12); OnTheHour(16); OnTheHour(20);
    assert HoursFrom(24, 4) == [];
    assert HoursFrom(20, 4) == ["20:00"];
    assert HoursFrom(16, 4) == ["16:00", "20:00"];
    assert HoursFrom(12, 4) == ["12:00", "16:00", "20:00"];
    assert HoursFrom(8, 4) == ["08:00", "12:00", "16:00", "20:00"];
    assert HoursFrom(4, 4) == ["04:00", "08:00", "12:00", "16:00", "20:00"];
  }

  lemma TabledSchedule(text: string, n: nat, h: nat)
    requires n > 0 && IntervalPhrase(Lower(text)) == Some(n) && IntervalTable(n).Some?
    requires forall x :: x in IntervalTable(n).value <==> x in HoursFrom(h, n)
    requires |HoursFrom(h, n)| <= MaxTimes
    ensures Schedule(text) == Success(HoursFrom(h, n))
  {
    HoursFromStrict(h, n);
    TabledList(IntervalTable(n).value, HoursFrom(h, n));
  }

  /** The five tabled intervals, in the order `sort` leaves them. */
  lemma IntervalTables(text: string)
    ensures IntervalPhrase(Lower(text)) == Some(24) ==> Schedule(text) == Success(["08:00"])
    ensures IntervalPhrase(Lower(text)) == Some(12) ==> Schedule(text) == Success(["08:00", "20:00"])
    ensures IntervalPhrase(Lower(text)) == Some(8) ==> Schedule(text) == Success(["00:00", "08:00", "16:00"])
    ensures IntervalPhrase(Lower(text)) == Some(6) ==>
              Schedule(text) == Success(["02:00", "08:00", "14:00", "20:00"])
    ensures IntervalPhrase(Lower(text)) == Some(4) ==>
              Schedule(text) == Success(["00:00", "04:00", "08:00", "12:00", "16:00", "20:00"])
  {
    var interval := IntervalPhrase(Lower(text));
    if interval == Some(24) {
      Run24();
      TabledSchedule(text, 24, 8);
    } else if interval == Some(12) {
      Run12();
      TabledSchedule(text, 12, 8);
    } else if interval == Some(8) {
      Run8();
      TabledSchedule(text, 8, 0);
    } else if interval == Some(6) {
      Run6();
      TabledSchedule(text, 6, 2);
    } else if interval == Some(4) {
      Run4();
      TabledSchedule(text, 4, 0);
    }
  }

  /**
   * Any other positive interval n: the first six of 00:00, n:00, 2n:00, ...
   * below 24:00 (ceil(24 / n) of them before the cut, by HoursFromCount).
   */
  lemma DefaultInterval(text: string, n: nat)
    requires IntervalPhrase(Lower(text)) == Some(n) && n > 0 && IntervalTable(n).None?
    ensures Schedule(text) == Success(Take(HoursFrom(0, n), MaxTimes))
  {
    HoursFromStrict(0, n);
    NormalizeOfStrict(HoursFrom(0, n));
  }

  /** Entry i of such a schedule is "%02d:00" of i * n. */
  lemma DefaultIntervalEntries(text: string, n: nat)
    requires IntervalPhrase(Lower(text)) == Some(n) && n > 0 && IntervalTable(n).None?
    ensures Schedule(text).Success?
    ensures forall i :: 0 <= i < |Schedule(text).value| ==>
              i * n < 24 && Schedule(text).value[i] == ClockText(i * n, 0)
  {
    DefaultInterval(text, n);
    HoursFromEntries(0, n);
  }

  lemma Run5()
    ensures HoursFrom(0, 5) == ["00:00", "05:00", "10:00", "15:00", "20:00"]
  {
    assert HoursFrom(25, 5) == [];
    OnTheHour(0); OnTheHour(5); OnTheHour(10);
    OnTheHour(15); OnTheHour(20);
    assert HoursFrom(20, 5) == ["20:00"];
    assert HoursFrom(15, 5) == ["15:00", "20:00"];
    assert HoursFrom(10, 5) == ["10:00", "15:00", "20:00"];
    assert HoursFrom(5, 5) == ["05:00", "10:00", "15:00", "20:00"];
  }

  /** "cada 5 horas" gives five times (ceil(24 / 5)), the last at 20:00. */
  lemma FiveHourInterval(text: string)
    requires IntervalPhrase(Lower(text)) == Some(5)
    ensures Schedule(text) == Success(["00:00", "05:00", "10:00", "15:00", "20:00"])
  {
    DefaultInterval(text, 5);
    Run5();
  }

  /** The only error: an interval phrase with the number 0. */
  lemma ScheduleFailsOnlyOnZero(text: string)
    ensures Schedule(text).Failure? <==> IntervalPhrase(Lower(text)) == Some(0)
  {
  }

  /**
   * The keyword rule is reached exactly when the text holds no digit: a digit
   * anywhere starts a clock-time match, even when the digits were meant as
   * a quantity ("2 tabletas en la mañana y noche").
   */
  lemma KeywordsOnlyWithoutDigits(text: string)
    ensures (IntervalPhrase(Lower(text)).None? && ClockMatches(Lower(text)) == []) <==> !HasDigit(Lower(text))
  {
    ClockMatchesFromNonEmpty(Lower(text), 0);
    if !HasDigit(Lower(text)) {
      NoDigitNoInterval(Lower(text));
    }
  }

  /** On a text without digits the parser's result is the keyword rules' list, post-processed. */
  lemma KeywordSchedule(text: string)
    requires !HasDigit(Lower(text))
    ensures Schedule(text) == Success(Normalize(KeywordTimes(Lower(text))))
  {
    KeywordsOnlyWithoutDigits(text);
  }

  /** A text without upper-case letters is its own lower-case form. */
  lemma LowerOfLower(s: string)
    requires forall i :: 0 <= i < |s| ==> !('A' <= s[i] <= 'Z')
    ensures Lower(s) == s
  {
  }

  lemma TwoDoses()
    ensures Normalize(["08:00", "20:00"]) == ["08:00", "20:00"]
  {
    OnTheHour(8); OnTheHour(20);
    ClockOrder(8, 0, 20, 0);
    assert StrictlyIncreasing(["08:00", "20:00"]);
    NormalizeOfStrict(["08:00", "20:00"]);
  }

  lemma OneDose()
    ensures Normalize(["08:00"]) == ["08:00"]
  {
    NormalizeOfStrict(["08:00"]);
  }

  /** "mañana" and "noche": 08:00 and 20:00. */
  lemma MorningAndNightRule(text: string)
    requires !HasDigit(Lower(text))
    requires Contains(Lower(text), "mañana") && Contains(Lower(text), "noche")
    ensures Schedule(text) == Success(["08:00", "20:00"])
  {
    KeywordSchedule(text);
    TwoDoses();
  }

  /** Otherwise "desayuno" and "cena": 08:00 and 20:00. */
  lemma BreakfastAndDinnerRule(text: string)
    requires !HasDigit(Lower(text))
    requires !(Contains(Lower(text), "mañana") && Contains(Lower(text), "noche"))
    requires Contains(Lower(text), "desayuno") && Contains(Lower(text), "cena")
    ensures Schedule(text) == Success(["08:00", "20:00"])
  {
    KeywordSchedule(text);
    TwoDoses();
  }

  /** Otherwise "una vez" or "al día": 08:00. */
  lemma OnceADayRule(text: string)
    requires !HasDigit(Lower(text))
    requires !(Contains(Lower(text), "mañana") && Contains(Lower(text), "noche"))
    requires !(Contains(Lower(text), "desayuno") && Contains(Lower(text), "cena"))
    requires Contains(Lower(text), "una vez") || Contains(Lower(text), "al día")
    ensures Schedule(text) == Success(["08:00"])
  {
    KeywordSchedule(text);
    OneDose();
  }

  /** No digit and no keyword rule fires: no times at all. */
  lemma NoRuleRule(text: string)
    requires !HasDigit(Lower(text))
    requires !(Contains(Lower(text), "mañana") && Contains(Lower(text), "noche"))
    requires !(Contains(Lower(text), "desayuno") && Contains(Lower(text), "cena"))
    requires !Contains(Lower(text), "una vez") && !Contains(Lower(text), "al día")
    ensures Schedule(text) == Success([])
  {
    KeywordSchedule(text);
    NormalizeOfStrict([]);
  }

  /** "mañana y noche" gives 08:00 and 20:00. */
  lemma MorningAndNight()
    ensures Schedule("mañana y noche") == Success(["08:00", "20:00"])
  {
    var t := "mañana y noche";
    LowerOfLower(t);
    assert OccursAt(t, "mañana", 0);
    assert OccursAt(t, "noche", 9);
    MorningAndNightRule(t);
  }

  /** "desayuno y cena" gives the same two doses. */
  lemma BreakfastAndDinner()
    ensures Schedule("desayuno y cena") == Success(["08:00", "20:00"])
  {
    var t := "desayuno y cena";
    LowerOfLower(t);
    NotContainsWithout(t, "mañana", 2);
    assert OccursAt(t, "desayuno", 0);
    assert OccursAt(t, "cena", 11);
    BreakfastAndDinnerRule(t);
  }

  /** "una vez al día" gives one dose at 08:00. */
  lemma OnceADay()
    ensures Schedule("una vez al día") == Success(["08:00"])
  {
    var t := "una vez al día";
    LowerOfLower(t);
    NotContainsWithout(t, "mañana", 2);
    NotContainsWithout(t, "desayuno", 2);
    assert OccursAt(t, "una vez", 0);
    OnceADayRule(t);
  }

  /** A text with no digit and no keyword gives no times. */
  lemma NoKeywordNoTimes()
    ensures Schedule("según indicación") == Success([])
  {
    var t := "según indicación";
    LowerOfLower(t);
    NotContainsWithout(t, "mañana", 2);
    NotContainsWithout(t, "desayuno", 4);
    NotContainsWithout(t, "una vez", 4);
    NotContainsWithout(t, "al día", 4);
    NoRuleRule(t);
  }

  /** A clock-time match is printed as its 24-hour reading, with no range check. */
  lemma ClockTimeMeaning(m: ClockMatch)
    requires m.hour < 100 && m.minutes < 100
    ensures IsClockString(ClockTime(m))
    ensures HourOf(ClockTime(m)) == Hour24(m) && MinuteOf(ClockTime(m)) == m.minutes
  {
    ClockTextReads(Hour24(m), m.minutes);
  }

  /** Whatever the text, a result is at most six distinct "dd:dd" strings in ascending order. */
  lemma ScheduleShape(text: string)
    ensures Schedule(text).Success? ==>
              |Schedule(text).value| <= MaxTimes && StrictlyIncreasing(Schedule(text).value) &&
              forall x :: x in Schedule(text).value ==> IsClockString(x)
  {
    var t := Lower(text);
    match RawTimes(t)
    case Failure(_) =>
    case Success(raw) =>
      assert forall x :: x in raw ==> IsClockString(x) by {
        if IntervalPhrase(t).Some? && IntervalTable(IntervalPhrase(t).value).None? && IntervalPhrase(t).value > 0 {
          HoursFromClockStrings(0, IntervalPhrase(t).value);
        } else if IntervalPhrase(t).None? && |ClockMatches(t)| > 0 {
          var ms := ClockMatches(t);
          forall x | x in raw ensures IsClockString(x) {
            var i :| 0 <= i < |raw| && raw[i] == x;
            ClockTimeMeaning(ms[i]);
          }
        }
      }
      NormalizeSpec(raw);
  }

  // ---------------------------------------------------------------------------
  // convertirHora12Horas
  // ---------------------------------------------------------------------------

  /** The hour as the page shows it: 12 for midnight and noon, 1 to 11 otherwise. */
  function Hour12(h: nat): nat
  {
    var h12 := if h > 12 then h - 12 else h;
    if h12 == 0 then 12 else h12
  }

  /** "HH:MM" to "h:MM AM" / "h:MM PM", with no leading zero on the hour. */
  function To12Hour(s: string): string
    requires IsClockString(s)
  {
    NatToString(Hour12(HourOf(s))) + ":" + s[3..] + " " + (if HourOf(s) >= 12 then "PM" else "AM")
  }

  /** The parser reads "h:MM am" / "h:MM pm" as one clock-time match covering the whole text. */
  lemma SpokenTimeMatch(digits: string, mm: string, per: string)
    requires AllDigits(digits) && 1 <= |digits| <= 2
    requires AllDigits(mm) && |mm| == 2
    requires per == "am" || per == "pm"
    ensures ClockMatches(digits + ":" + mm + " " + per) ==
              [ClockMatch(DecimalValue(digits), DecimalValue(mm), if per == "pm" then Pm else Am)]
  {
    var l := digits + ":" + mm + " " + per;
    var m := ClockMatch(DecimalValue(digits), DecimalValue(mm), if per == "pm" then Pm else Am);
    SpokenMatchAt(digits, mm, per);
    assert ClockMatchesFrom(l, |l|) == [];
    assert ClockMatches(l) == [m] + ClockMatchesFrom(l, |l|);
  }

  lemma SpokenMatchAt(digits: string, mm: string, per: string)
    requires AllDigits(digits) && 1 <= |digits| <= 2
    requires AllDigits(mm) && |mm| == 2
    requires per == "am" || per == "pm"
    ensures var l := digits + ":" + mm + " " + per;
            IsDigit(l[0]) &&
            MatchClockAt(l, 0) ==
              (ClockMatch(DecimalValue(digits), DecimalValue(mm), if per == "pm" then Pm else Am), |l|)
  {
    SpokenLayout(digits, mm, per);
    MatchOfLayout(digits + ":" + mm + " " + per, digits, mm, per);
  }

  /** The match over any text laid out as "h:MM am". */
  lemma MatchOfLayout(l: string, digits: string, mm: string, per: string)
    requires AllDigits(digits) && 1 <= |digits| <= 2
    requires AllDigits(mm) && |mm| == 2
    requires per == "am" || per == "pm"
    requires var d := |digits|;
             && |l| == d + 6 && IsDigit(l[0]) && (IsDigit(l[1]) <==> d == 2) && l[0..d] == digits && l[d] == ':'
             && IsDigit(l[d + 1]) && IsDigit(l[d + 2]) && l[d + 1..d + 3] == mm
             && l[d + 3] == ' ' && !IsRegexSpace(l[d + 4]) && l[d + 4..d + 6] == per
    ensures MatchClockAt(l, 0) == (ClockMatch(DecimalValue(digits), DecimalValue(mm), if per == "pm" then Pm else Am), |l|)
  {
    var d := |digits|;
    assert HourEnd(l, 0) == d;
    assert ColonEnd(l, d) == d + 1;
    assert HasMinutes(l, d + 1);
    assert SpacesEnd(l, d + 4) == d + 4;
    assert SpacesEnd(l, d + 3) == d + 4;
    assert PeriodAt(l, d + 4) == if per == "pm" then Pm else Am;
  }

  /** Where the parts of "h:MM am" sit: the hour digits, the colon, the minutes, one space, the period. */
  lemma SpokenLayout(digits: string, mm: string, per: string)
    requires AllDigits(digits) && 1 <= |digits| <= 2
    requires AllDigits(mm) && |mm| == 2
    requires per == "am" || per == "pm"
    ensures var l := digits + ":" + mm + " " + per;
            var d := |digits|;
            && |l| == d + 6 && IsDigit(l[0]) && (IsDigit(l[1]) <==> d == 2) && l[0..d] == digits && l[d] == ':'
            && IsDigit(l[d + 1]) && IsDigit(l[d + 2]) && l[d + 1..d + 3] == mm
            && l[d + 3] == ' ' && !IsRegexSpace(l[d + 4]) && l[d + 4..d + 6] == per
  {
    var l := digits + ":" + mm + " " + per;
    var d := |digits|;
    assert l[0] == digits[0];
    if d == 1 { assert l[1] == ':'; } else { assert l[1] == digits[1]; }
    assert l[0..d] == digits;
    assert l[d + 1] == mm[0] && l[d + 2] == mm[1];
    assert l[d + 1..d + 3] == mm;
    assert l[d + 3] == ' ' && l[d + 4] == per[0] && l[d + 5] == per[1];
    assert l[d + 4..d + 6] == per;
  }

  lemma LowerTo12Hour(s: string)
    requires IsClockString(s)
    ensures Lower(To12Hour(s)) ==
              NatToString(Hour12(HourOf(s))) + ":" + s[3..] + " " + (if HourOf(s) >= 12 then "pm" else "am")
    ensures forall i :: 0 <= i < |To12Hour(s)| ==> Lower(To12Hour(s))[i] != 'h'
  {
    var digits := NatToString(Hour12(HourOf(s)));
    var d := |digits|;
    var upper := if HourOf(s) >= 12 then "PM" else "AM";
    var per := if HourOf(s) >= 12 then "pm" else "am";
    var u := To12Hour(s);
    var l := digits + ":" + s[3..] + " " + per;
    assert u == digits + ":" + s[3..] + " " + upper;
    forall i | 0 <= i < |l| ensures LowerChar(u[i]) == l[i] && l[i] != 'h' {
      if i < d {
        assert u[i] == digits[i] == l[i];
      } else if i < d + 4 {
        assert u[i] == l[i];
      } else {
        assert u[i] == upper[i - d - 4] && l[i] == per[i - d - 4];
      }
    }
  }

  /** Typing the 12-hour form of a time of day back as instructions gives exactly that time. */
  lemma To12HourRoundTrip(s: string)
    requires IsClockString(s) && HourOf(s) < 24
    ensures Schedule(To12Hour(s)) == Success([s])
  {
    var h := HourOf(s);
    var l := Lower(To12Hour(s));
    LowerTo12Hour(s);
    NoHourLetterNoInterval(l);
    Pad2OfDigits(s[3..]);
    SpokenTimeMatch(NatToString(Hour12(h)), s[3..], if h >= 12 then "pm" else "am");
    NatToStringValue(Hour12(h));
    var m := ClockMatch(Hour12(h), MinuteOf(s), if h >= 12 then Pm else Am);
    assert ClockMatches(l) == [m];
    assert Hour24(m) == h;
    ClockTextOfString(s);
    assert ClockTimes([m]) == [s];
    NormalizeOfStrict([s]);
  }
}
