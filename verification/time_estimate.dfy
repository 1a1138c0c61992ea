/** `formatTimeEstimate`: a whole number of days as a phrase of months,
    weeks and days ("1 month and 2 weeks", "3 weeks and 1 day", "5 days"). */
module TimeEstimate {
  import opened Numerics

  datatype Unit = Day | Week | Month

  /** One "count unit" term of the phrase. */
  datatype Part = Part(count: nat, unit: Unit)

  function UnitName(u: Unit): string {
    match u
    case Day => "day"
    case Week => "week"
    case Month => "month"
  }

  function UnitDays(u: Unit): nat {
    match u
    case Day => 1
    case Week => 7
    case Month => 30
  }

  // ---------------------------------------------------------------------
  // Decimal numerals

  predicate IsDigit(c: char) {
    '0' <= c <= '9'
  }

  function DigitChar(d: nat): (c: char)
    requires d < 10
    ensures IsDigit(c)
  {
    ['0', '1', '2', '3', '4', '5', '6', '7', '8', '9'][d]
  }

  function DigitValue(c: char): nat
    requires IsDigit(c)
  {
    (c as int - '0' as int) as nat
  }

  /** The decimal numeral of `n`, as a template literal prints it. */
  function NatToString(n: nat): (s: string)
    ensures 0 < |s| && forall i :: 0 <= i < |s| ==> IsDigit(s[i])
  {
    if n < 10 then [DigitChar(n)] else NatToString(n / 10) + [DigitChar(n % 10)]
  }

  /** The value of a string of digits. */
  function DigitsValue(s: string): nat
    requires forall i :: 0 <= i < |s| ==> IsDigit(s[i])
  {
    if |s| == 0 then 0 else DigitsValue(s[..|s| - 1]) * 10 + DigitValue(s[|s| - 1])
  }

  /** Reading a numeral back gives the number. */
  lemma {:induction false} NumeralRoundTrip(n: nat)
    ensures DigitsValue(NatToString(n)) == n
  {
    var s := NatToString(n);
    assert DigitValue(DigitChar(n % 10)) == n % 10;
    if n >= 10 {
      NumeralRoundTrip(n / 10);
      assert s[..|s| - 1] == NatToString(n / 10);
    }
  }

  /** The number of digits `s` starts with. */
  function LeadingDigits(s: string): (k: nat)
    ensures k <= |s|
    ensures forall i :: 0 <= i < k ==> IsDigit(s[i])
    ensures k < |s| ==> !IsDigit(s[k])
  {
    if |s| == 0 || !IsDigit(s[0]) then 0 else 1 + LeadingDigits(s[1..])
  }

  /** A numeral followed by a non-digit is read up to its end. */
  lemma {:induction false} LeadingDigitsOfNumeral(digits: string, rest: string)
    requires forall i :: 0 <= i < |digits| ==> IsDigit(digits[i])
    requires |rest| == 0 || !IsDigit(rest[0])
    ensures LeadingDigits(digits + rest) == |digits|
  {
    if |digits| > 0 {
      assert (digits + rest)[1..] == digits[1..] + rest;
      LeadingDigitsOfNumeral(digits[1..], rest);
    }
  }

  // ---------------------------------------------------------------------
  // The phrase

  /** "s" unless the count is exactly one. */
  function Plural(n: nat): string {
    if n != 1 then "s" else ""
  }

  function PartText(p: Part): string {
    NatToString(p.count) + " " + UnitName(p.unit) + Plural(p.count)
  }

  /** The terms joined by " and ". */
  function Render(parts: seq<Part>): string {
    if |parts| == 0 then ""
    else if |parts| == 1 then PartText(parts[0])
    else PartText(parts[0]) + " and " + Render(parts[1..])
  }

  /** The terms `formatTimeEstimate` shows for `days`: days alone below a
      week; weeks and the remaining days below 30 days; otherwise months
      and then either the remaining whole weeks or, when there are none,
      the remaining days. */
  function Breakdown(days: nat): (parts: seq<Part>)
    ensures 1 <= |parts| <= 2
    ensures days < 7 ==> parts == [Part(days, Day)]
    ensures 7 <= days < 30 ==> parts[0] == Part(days / 7, Week)
    ensures 30 <= days ==> parts[0] == Part(days / 30, Month)
  {
    if days < 7 then [Part(days, Day)]
    else if days < 30 then
      [Part(days / 7, Week)] + (if days % 7 > 0 then [Part(days % 7, Day)] else [])
    else
      var rest := days % 30;
      [Part(days / 30, Month)]
      + (if rest / 7 > 0 then [Part(rest / 7, Week)] else if rest % 7 > 0 then [Part(rest % 7, Day)] else [])
  }

  /** The days the terms stand for. */
  function Value(parts: seq<Part>): nat {
    if |parts| == 0 then 0 else parts[0].count * UnitDays(parts[0].unit) + Value(parts[1..])
  }

  /** `formatTimeEstimate(days)`. */
  function FormatTimeEstimate(days: nat): string {
    if days == 0 then
      "0 days"
    else if days < 7 then
      NatToString(days) + " day" + Plural(days)
    else if days < 30 then
      var weeks := days / 7;
      var remainingDays := days % 7;
      var text := NatToString(weeks) + " week" + Plural(weeks);
      if remainingDays > 0 then text + " and " + NatToString(remainingDays) + " day" + Plural(remainingDays)
      else text
    else
      var months := days / 30;
      var remainingDays := days % 30;
      var text := NatToString(months) + " month" + Plural(months);
      if remainingDays > 0 then
        var weeks := remainingDays / 7;
        var d := remainingDays % 7;
        if weeks > 0 then text + " and " + NatToString(weeks) + " week" + Plural(weeks)
        else if d > 0 then text + " and " + NatToString(d) + " day" + Plural(d)
        else text
      else text
  }

  /** The text is the breakdown's terms joined by " and ". */
  lemma FormatIsRendered(days: nat)
    ensures FormatTimeEstimate(days) == Render(Breakdown(days))
  {
    if days == 0 {
      assert NatToString(0) == "0";
    } else if days < 7 {
      Term(days, Day);
    } else if days < 30 {
      WeeksRendered(days);
    } else {
      MonthsRendered(days);
    }
  }

  lemma WeeksRendered(days: nat)
    requires 7 <= days < 30
    ensures FormatTimeEstimate(days) == Render(Breakdown(days))
  {
    var week := Part(days / 7, Week);
    Term(days / 7, Week);
    var text := NatToString(days / 7) + " week" + Plural(days / 7);
    assert text == PartText(week);
    if days % 7 > 0 {
      var day := Part(days % 7, Day);
      Term(days % 7, Day);
      assert FormatTimeEstimate(days) == text + " and " + NatToString(days % 7) + " day" + Plural(days % 7);
      assert Breakdown(days) == [week, day];
      Joined(week, day);
    } else {
      assert FormatTimeEstimate(days) == text;
      assert Breakdown(days) == [week];
    }
  }

  lemma MonthsRendered(days: nat)
    requires 30 <= days
    ensures FormatTimeEstimate(days) == Render(Breakdown(days))
  {
    if (days % 30) / 7 > 0 {
      MonthsAndWeeks(days);
    } else if (days % 30) % 7 > 0 {
      MonthsAndDays(days);
    } else {
      Term(days / 30, Month);
      assert Breakdown(days) == [Part(days / 30, Month)];
    }
  }

  lemma MonthsAndWeeks(days: nat)
    requires 30 <= days && (days % 30) / 7 > 0
    ensures FormatTimeEstimate(days) == Render(Breakdown(days))
  {
    var month := Part(days / 30, Month);
    var week := Part((days % 30) / 7, Week);
    Term(days / 30, Month);
    Term((days % 30) / 7, Week);
    var text := NatToString(days / 30) + " month" + Plural(days / 30);
    assert FormatTimeEstimate(days) == text + " and " + NatToString((days % 30) / 7) + " week" + Plural((days % 30) / 7);
    assert Breakdown(days) == [month, week];
    Joined(month, week);
  }

  lemma MonthsAndDays(days: nat)
    requires 30 <= days && (days % 30) / 7 == 0 && (days % 30) % 7 > 0
    ensures FormatTimeEstimate(days) == Render(Breakdown(days))
  {
    var month := Part(days / 30, Month);
    var day := Part((days % 30) % 7, Day);
    Term(days / 30, Month);
    Term((days % 30) % 7, Day);
    var text := NatToString(days / 30) + " month" + Plural(days / 30);
    assert FormatTimeEstimate(days) == text + " and " + NatToString((days % 30) % 7) + " day" + Plural((days % 30) % 7);
    assert Breakdown(days) == [month, day];
    Joined(month, day);
  }

  lemma Term(n: nat, u: Unit)
    ensures PartText(Part(n, u)) == NatToString(n) + (" " + UnitName(u)) + Plural(n)
  {
  }

  lemma Joined(first: Part, second: Part)
    ensures Render([first, second]) == PartText(first) + " and " + PartText(second)
  {
    assert [first, second][1..] == [second];
  }

  /** The phrase is exact below 30 days and when no weeks are shown; when
      months and weeks are shown, the days left over (fewer than 7) are
      dropped. Every term but a lone "0 days" has a positive count, and a
      second term is smaller than one of the first term's unit. */
  lemma BreakdownValue(days: nat)
    ensures Value(Breakdown(days)) <= days < Value(Breakdown(days)) + 7
    ensures days < 30 ==> Value(Breakdown(days)) == days
    ensures 30 <= days && (days % 30) / 7 == 0 ==> Value(Breakdown(days)) == days
    ensures 0 < days ==> forall i :: 0 <= i < |Breakdown(days)| ==> 0 < Breakdown(days)[i].count
    ensures |Breakdown(days)| == 2 ==>
              Breakdown(days)[1].count * UnitDays(Breakdown(days)[1].unit) < UnitDays(Breakdown(days)[0].unit)
  {
    var parts := Breakdown(days);
    if |parts| == 2 {
      assert parts == [parts[0], parts[1]];
      ValuePair(parts[0], parts[1]);
    } else {
      assert parts == [parts[0]];
      ValuePair(parts[0], Part(0, Day));
    }
  }

  lemma ValuePair(a: Part, b: Part)
    ensures Value([a]) == a.count * UnitDays(a.unit)
    ensures Value([a, b]) == a.count * UnitDays(a.unit) + b.count * UnitDays(b.unit)
  {
    assert [a][1..] == [];
    assert [a, b][1..] == [b];
    assert [b][1..] == [];
  }

  /** The plural "s" is written exactly when the count is not one. */
  lemma PluralUnlessOne(p: Part)
    ensures PartText(p) == NatToString(p.count) + " " + UnitName(p.unit) + "s" <==> p.count != 1
    ensures PartText(p) == NatToString(p.count) + " " + UnitName(p.unit) <==> p.count == 1
  {
    var stem := NatToString(p.count) + " " + UnitName(p.unit);
    assert |stem + "s"| != |stem|;
  }

  // ---------------------------------------------------------------------
  // Reading a phrase back

  function ParseUnit(s: string): Option<(Unit, string)> {
    if 3 <= |s| && s[..3] == "day" then Some((Day, s[3..]))
    else if 4 <= |s| && s[..4] == "week" then Some((Week, s[4..]))
    else if 5 <= |s| && s[..5] == "month" then Some((Month, s[5..]))
    else None
  }

  /** Reads "N unit" with an optional plural "s". */
  function ParsePart(s: string): Option<(Part, string)> {
    var k := LeadingDigits(s);
    if k == 0 || |s| <= k || s[k] != ' ' then None
    else
      match ParseUnit(s[k + 1..])
      case None => None
      case Some((u, rest)) =>
        var rest' := if 0 < |rest| && rest[0] == 's' then rest[1..] else rest;
        Some((Part(DigitsValue(s[..k]), u), rest'))
  }

  /** Reads terms separated by " and " up to the end of the string. */
  function ParseParts(s: string): Option<seq<Part>>
    decreases |s|
  {
    match ParsePart(s)
    case None => None
    case Some((p, rest)) =>
      if |rest| == 0 then Some([p])
      else if 5 <= |rest| && rest[..5] == " and " && |rest| < |s| then
        match ParseParts(rest[5..])
        case None => None
        case Some(ps) => Some([p] + ps)
      else None
  }

  lemma ParseUnitOf(u: Unit, rest: string)
    ensures ParseUnit(UnitName(u) + rest) == Some((u, rest))
  {
    var s := UnitName(u) + rest;
    assert s[..|UnitName(u)|] == UnitName(u);
    assert s[|UnitName(u)|..] == rest;
    match u
    case Day =>
    case Week =>
      assert s[0] == 'w';
    case Month =>
      assert s[0] == 'm';
  }

  /** A term followed by nothing or by " and ..." is read back. */
  lemma ParsePartOf(p: Part, rest: string)
    requires |rest| == 0 || rest[0] == ' '
    ensures ParsePart(PartText(p) + rest) == Some((p, rest))
  {
    var digits := NatToString(p.count);
    var after := Plural(p.count) + rest;
    var tail := " " + (UnitName(p.unit) + after);
    assert PartText(p) + rest == digits + tail;
    LeadingDigitsOfNumeral(digits, tail);
    NumeralRoundTrip(p.count);
    SplitAt(digits, tail);
    assert tail[1..] == UnitName(p.unit) + after;
    ParseUnitOf(p.unit, after);
    if p.count != 1 {
      assert after[1..] == rest;
    }
  }

  lemma SplitAt(a: string, b: string)
    ensures (a + b)[..|a|] == a && (a + b)[|a|..] == b
  {
  }

  /** Rendering then reading gives the terms back. */
  lemma {:induction false} ParseRender(parts: seq<Part>)
    requires 0 < |parts|
    ensures ParseParts(Render(parts)) == Some(parts)
  {
    if |parts| == 1 {
      ParsePartOf(parts[0], "");
      assert PartText(parts[0]) + "" == PartText(parts[0]);
      assert Render(parts) == PartText(parts[0]);
      assert [parts[0]] == parts;
    } else {
      var rest := " and " + Render(parts[1..]);
      ParsePartOf(parts[0], rest);
      assert Render(parts) == PartText(parts[0]) + rest;
      ParseRender(parts[1..]);
      assert rest[..5] == " and " && rest[5..] == Render(parts[1..]);
      assert [parts[0]] + parts[1..] == parts;
    }
  }

  /** The phrase determines the breakdown: reading the text of `days`
      gives back its terms, so different breakdowns never print alike. */
  lemma FormatDeterminesBreakdown(days: nat)
    ensures ParseParts(FormatTimeEstimate(days)) == Some(Breakdown(days))
  {
    FormatIsRendered(days);
    ParseRender(Breakdown(days));
  }
}
