/** Weekly periods written in the OpenStreetMap `opening_hours` grammar, and what
    the text means when read back: rules in order, each replacing the hours of
    its days. */
module OpeningHours {
  import opened Basics

  /** One weekly period; `day` is none when it is no whole number, else 1 for Monday to 7 for Sunday. */
  datatype Period = Period(day: Option<int>, from: string, to: string)

  // --- reading a period ---

  predicate IsDigit(c: char) { '0' <= c <= '9' }

  /** `HH:MM` with hours 00 to 24. */
  predicate IsClock(s: string) {
    && |s| == 5 && IsDigit(s[0]) && IsDigit(s[1]) && s[2] == ':' && IsDigit(s[3]) && IsDigit(s[4])
    && s[3] <= '5' && (s[0] <= '1' || (s[0] == '2' && s[1] <= '4'))
  }

  predicate IsReadable(p: Period) {
    p.day.Some? && 1 <= p.day.value <= 7 && IsClock(p.from) && IsClock(p.to)
  }

  function SpanOf(p: Period): string { p.from + "-" + p.to }

  predicate IsSpan(s: string) { |s| == 11 && ',' !in s && ' ' !in s && ';' !in s }

  /** The distinct spans of a day in the order first given. */
  function SpansOn(periods: seq<Period>, day: int): (spans: seq<string>)
    ensures forall s :: s in spans ==> IsSpan(s)
  {
    if periods == [] then []
    else
      var n := |periods| - 1;
      var (before, p) := (SpansOn(periods[..n], day), periods[n]);
      if IsReadable(p) && p.day == Some(day) && SpanOf(p) !in before then before + [SpanOf(p)] else before
  }

  type Week = map<int, seq<string>>

  ghost predicate IsWeekOf(byDay: Week, periods: seq<Period>) {
    forall d :: if d in byDay then 1 <= d <= 7 && byDay[d] != [] && byDay[d] == SpansOn(periods, d) else SpansOn(periods, d) == []
  }

  const WEEKDAYS := {1, 2, 3, 4, 5, 6, 7}

  function WeekOf(periods: seq<Period>): Week {
    map d | d in WEEKDAYS && SpansOn(periods, d) != [] :: SpansOn(periods, d)
  }

  lemma {:induction false} NoOtherDays(periods: seq<Period>, day: int)
    requires day !in WEEKDAYS
    ensures SpansOn(periods, day) == []
  {
    if periods != [] { NoOtherDays(periods[..|periods| - 1], day); }
  }

  lemma {:induction false} WeekOfIs(byDay: Week, periods: seq<Period>)
    ensures IsWeekOf(byDay, periods) <==> byDay == WeekOf(periods)
  {
    hide SpansOn;
    forall d | d !in WEEKDAYS ensures SpansOn(periods, d) == [] {
      NoOtherDays(periods, d);
    }
    if IsWeekOf(byDay, periods) {
      assert forall d :: d in byDay <==> d in WeekOf(periods);
    }
  }

  method ByDay(periods: seq<Period>) returns (byDay: Week)
    ensures byDay == WeekOf(periods)
  {
    byDay := map[];
    for i := 0 to |periods|
      invariant IsWeekOf(byDay, periods[..i])
    {
      var p := periods[i];
      assert periods[..i + 1][..i] == periods[..i];
      if !IsReadable(p) {
        continue;
      }
      var day := p.day.value;
      var spans := if day in byDay then byDay[day] else [];
      if SpanOf(p) !in spans {
        spans := spans + [SpanOf(p)];
      }
      byDay := byDay[day := spans];
    }
    assert periods[..|periods|] == periods;
    WeekOfIs(byDay, periods);
  }

  // --- writing days ---

  function DayName(d: int): (name: string)
    ensures |name| == 2 && forall c :: c in name ==> c != ',' && c != '-' && c != ' ' && c != ';'
  {
    if d == 1 then "Mo" else if d == 2 then "Tu" else if d == 3 then "We" else if d == 4 then "Th"
    else if d == 5 then "Fr" else if d == 6 then "Sa" else "Su"
  }

  function DayNamed(name: string): Option<int> {
    if name == "Mo" then Some(1) else if name == "Tu" then Some(2) else if name == "We" then Some(3) else if name == "Th" then Some(4)
    else if name == "Fr" then Some(5) else if name == "Sa" then Some(6) else if name == "Su" then Some(7) else None
  }

  type Run = (int, int)

  /** Ascending days as runs of consecutive ones. */
  function Runs(days: seq<int>): seq<Run> {
    if days == [] then []
    else
      var n := |days| - 1;
      var runs := Runs(days[..n]);
      if runs != [] && runs[|runs| - 1].1 == days[n] - 1
      then runs[|runs| - 1 := (runs[|runs| - 1].0, days[n])]
      else runs + [(days[n], days[n])]
  }

  function Join(parts: seq<string>, sep: string): string {
    if parts == [] then "" else if |parts| == 1 then parts[0] else parts[0] + sep + Join(parts[1..], sep)
  }

  function RunText(r: Run): string {
    if r.0 == r.1 then DayName(r.0) else DayName(r.0) + (if r.1 == r.0 + 1 then "," else "-") + DayName(r.1)
  }

  function RunTexts(runs: seq<Run>): seq<string> {
    seq(|runs|, i requires 0 <= i < |runs| => RunText(runs[i]))
  }

  function DaysText(days: seq<int>): string { Join(RunTexts(Runs(days)), ",") }

  /** Writes ascending days; the last run grows in place while days follow each other. */
  method DayList(days: seq<int>) returns (text: string)
    ensures text == DaysText(days)
  {
    var runs: seq<Run> := [];
    for i := 0 to |days|
      invariant runs == Runs(days[..i])
    {
      assert days[..i + 1][..i] == days[..i];
      if runs != [] && runs[|runs| - 1].1 == days[i] - 1 {
        runs := runs[|runs| - 1 := (runs[|runs| - 1].0, days[i])];
      } else {
        runs := runs + [(days[i], days[i])];
      }
    }
    assert days[..|days|] == days;
    text := Join(RunTexts(runs), ",");
  }

  // --- writing the week ---

  predicate NotAfter(a: string, b: string) { !StringBefore(b, a) }

  function HoursText(spans: seq<string>): string { Join(Sort(NotAfter, spans), ",") }

  /** Days with the same hours, in the order of their first day. */
  datatype Group = Group(hours: string, days: seq<int>)

  function AddTo(groups: seq<Group>, hours: string, day: int): seq<Group> {
    if groups == [] then [Group(hours, [day])]
    else if groups[0].hours == hours then [Group(hours, groups[0].days + [day])] + groups[1..]
    else [groups[0]] + AddTo(groups[1..], hours, day)
  }

  /** The groups of the days up to `day`. */
  function GroupsUpTo(byDay: Week, day: nat): seq<Group> {
    if day == 0 then []
    else if day in byDay then AddTo(GroupsUpTo(byDay, day - 1), HoursText(byDay[day]), day)
    else GroupsUpTo(byDay, day - 1)
  }

  function GroupText(g: Group): string { DaysText(g.days) + " " + g.hours }

  function GroupTexts(groups: seq<Group>): seq<string> {
    seq(|groups|, i requires 0 <= i < |groups| => GroupText(groups[i]))
  }

  function WeekText(groups: seq<Group>): string { Join(GroupTexts(groups), "; ") }

  predicate IsWholeDay(spans: seq<string>) {
    |spans| == 1 && (spans[0] == "00:00-24:00" || spans[0] == "00:00-23:59")
  }

  predicate IsAlwaysOpen(byDay: Week) { |byDay| == 7 && forall d :: d in byDay ==> IsWholeDay(byDay[d]) }

  function OpeningText(periods: seq<Period>): Option<string> {
    var week := WeekOf(periods);
    if week == map[] then None
    else if IsAlwaysOpen(week) then Some("24/7")
    else Some(WeekText(GroupsUpTo(week, 7)))
  }

  method OsmOpeningHours(periods: seq<Period>) returns (text: Option<string>)
    ensures text == OpeningText(periods)
  {
    hide WeekOf, IsWholeDay;
    var week := ByDay(periods);
    if |week| == 0 {
      assert week == map[];
      return None;
    }
    if |week| == 7 && forall d :: d in week ==> IsWholeDay(week[d]) {
      return Some("24/7");
    }
    var groups: seq<Group> := [];
    for day := 1 to 8
      invariant groups == GroupsUpTo(week, day - 1)
    {
      if day in week {
        groups := AddTo(groups, HoursText(week[day]), day);
      }
    }
    var rules: seq<string> := [];
    for i := 0 to |groups|
      invariant |rules| == i && forall k :: 0 <= k < i ==> rules[k] == GroupText(groups[k])
    {
      var days := DayList(groups[i].days);
      rules := rules + [days + " " + groups[i].hours];
    }
    assert rules == GroupTexts(groups);
    text := Some(Join(rules, "; "));
  }

  // --- reading the text back ---

  function Split(s: string, c: char): (parts: seq<string>)
    ensures |parts| >= 1
  {
    if s == "" then [""]
    else if s[0] == c then [""] + Split(s[1..], c)
    else var rest := Split(s[1..], c); [[s[0]] + rest[0]] + rest[1..]
  }

  /** One day or a range of days. */
  function ItemDays(item: string): set<int> {
    if |item| == 2 && DayNamed(item).Some? then {DayNamed(item).value}
    else if |item| == 5 && item[2] == '-' && DayNamed(item[..2]).Some? && DayNamed(item[3..]).Some?
    then set d | d in WEEKDAYS && DayNamed(item[..2]).value <= d <= DayNamed(item[3..]).value
    else {}
  }

  function DaysOfText(text: string): set<int> {
    var items := Split(text, ',');
    set d, i | 1 <= d <= 7 && 0 <= i < |items| && d in ItemDays(items[i]) :: d
  }

  datatype Rule = Rule(days: set<int>, spans: set<string>)

  function RuleOf(text: string): Rule {
    var trimmed := if text != "" && text[0] == ' ' then text[1..] else text;
    var parts := Split(trimmed, ' ');
    if |parts| != 2 then Rule({}, {}) else Rule(DaysOfText(parts[0]), set s | s in Split(parts[1], ','))
  }

  function RulesOf(text: string): seq<Rule> {
    var parts := Split(text, ';');
    seq(|parts|, i requires 0 <= i < |parts| => RuleOf(parts[i]))
  }

  /** The hours of a day: those of the last rule that names it. */
  function HoursOn(rules: seq<Rule>, day: int): set<string> {
    if rules == [] then {}
    else if day in rules[|rules| - 1].days then rules[|rules| - 1].spans
    else HoursOn(rules[..|rules| - 1], day)
  }
}
