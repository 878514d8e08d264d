/** The written opening hours mean exactly the readable periods. */
module OpeningHoursLaws {
  import opened Basics
  import opened OpeningHours

  // --- splitting what was joined ---

  lemma {:induction false} SplitPiece(p: string, rest: string, c: char)
    requires c !in p
    ensures Split(p, c) == [p]
    ensures Split(p + [c] + rest, c) == [p] + Split(rest, c)
  {
    if p == "" {
      assert (p + [c] + rest)[1..] == rest;
    } else {
      SplitPiece(p[1..], rest, c);
      assert (p + [c] + rest)[1..] == p[1..] + [c] + rest;
      assert [p[0]] + p[1..] == p;
    }
  }

  lemma {:induction false} SplitJoined(parts: seq<string>, c: char)
    requires parts != [] && forall p :: p in parts ==> c !in p
    ensures Split(Join(parts, [c]), c) == parts
  {
    assert parts[0] in parts;
    if |parts| == 1 {
      SplitPiece(parts[0], "", c);
    } else {
      SplitJoined(parts[1..], c);
      SplitPiece(parts[0], Join(parts[1..], [c]), c);
    }
  }

  /** Parts joined by `; ` split at the semicolons, all but the first after a space. */
  lemma {:induction false} SplitRules(parts: seq<string>)
    requires parts != [] && forall p :: p in parts ==> ';' !in p
    ensures var split := Split(Join(parts, "; "), ';');
      && |split| == |parts| && split[0] == parts[0]
      && forall i :: 1 <= i < |parts| ==> split[i] == " " + parts[i]
  {
    assert parts[0] in parts;
    if |parts| == 1 {
      SplitPiece(parts[0], "", ';');
    } else {
      SplitRules(parts[1..]);
      var rest := Join(parts[1..], "; ");
      assert Join(parts, "; ") == parts[0] + ";" + (" " + rest);
      SplitPiece(parts[0], " " + rest, ';');
      SplitAfterSpace(rest);
      hide Split, Join;
    }
  }

  lemma {:induction false} SplitAfterSpace(rest: string)
    ensures Split(" " + rest, ';') == [" " + Split(rest, ';')[0]] + Split(rest, ';')[1..]
  {
  }

  lemma {:induction false} JoinedWords(parts: seq<string>)
    requires forall p :: p in parts ==> ' ' !in p && ';' !in p
    ensures ' ' !in Join(parts, ",") && ';' !in Join(parts, ",")
  {
    if |parts| >= 1 { assert parts[0] in parts; }
    if |parts| > 1 { JoinedWords(parts[1..]); }
  }

  // --- days ---

  ghost predicate AscendingDays(days: seq<int>) {
    && (forall i :: 0 <= i < |days| ==> 1 <= days[i] <= 7)
    && (forall i, j :: 0 <= i < j < |days| ==> days[i] < days[j])
  }

  /** Runs cover exactly the days, and no two of them could be one. */
  ghost predicate AreRuns(runs: seq<Run>, days: seq<int>) {
    && (forall i :: 0 <= i < |runs| ==> 1 <= runs[i].0 <= runs[i].1 <= 7)
    && (forall i, j :: 0 <= i < j < |runs| ==> runs[i].1 + 1 < runs[j].0)
    && (forall d :: d in days <==> Covered(runs, d))
  }

  predicate InRun(d: int, r: Run) { r.0 <= d <= r.1 }

  predicate Covered(runs: seq<Run>, d: int) { exists i :: 0 <= i < |runs| && InRun(d, runs[i]) }

  lemma {:induction false} OneMoreDay(before: seq<Run>, day: int, d: int)
    requires forall i :: 0 <= i < |before| ==> before[i].0 <= before[i].1
    ensures Covered(before + [(day, day)], d) <==> Covered(before, d) || d == day
    ensures before != [] && before[|before| - 1].1 == day - 1 ==>
      (Covered(before[|before| - 1 := (before[|before| - 1].0, day)], d) <==> Covered(before, d) || d == day)
  {
    var n := |before|;
    var longer := before + [(day, day)];
    assert longer[n] == (day, day) && forall i :: 0 <= i < n ==> longer[i] == before[i];
    if n > 0 && before[n - 1].1 == day - 1 {
      var grown := before[n - 1 := (before[n - 1].0, day)];
      assert InRun(d, grown[n - 1]) <==> InRun(d, before[n - 1]) || d == day;
      assert forall i :: 0 <= i < n - 1 ==> grown[i] == before[i];
    }
  }

  lemma {:induction false} RunsNext(earlier: seq<int>, day: int)
    ensures var before := Runs(earlier);
      Runs(earlier + [day]) == if before != [] && before[|before| - 1].1 == day - 1
        then before[|before| - 1 := (before[|before| - 1].0, day)]
        else before + [(day, day)]
  {
    var days := earlier + [day];
    assert days[..|days| - 1] == earlier;
  }

  lemma {:induction false} RunsAreMaximal(days: seq<int>)
    requires AscendingDays(days)
    ensures AreRuns(Runs(days), days)
    ensures days != [] ==> Runs(days) != [] && Runs(days)[|Runs(days)| - 1].1 == days[|days| - 1]
  {
    if days != [] {
      var n := |days| - 1;
      hide Runs, AreRuns;
      RunsAreMaximal(days[..n]);
      assert days == days[..n] + [days[n]];
      RunsNext(days[..n], days[n]);
      NextRuns(Runs(days[..n]), days[..n], days[n]);
    } else {
      assert Runs([]) == [];
    }
  }

  /** Days no run covers yet, later than all, keep the runs apart. */
  lemma {:induction false} NextRuns(before: seq<Run>, earlier: seq<int>, day: int)
    requires AreRuns(before, earlier) && 1 <= day <= 7
    requires before != [] ==> before[|before| - 1].1 < day
    ensures var runs := if before != [] && before[|before| - 1].1 == day - 1
        then before[|before| - 1 := (before[|before| - 1].0, day)]
        else before + [(day, day)];
      AreRuns(runs, earlier + [day])
  {
    forall d ensures
      && (Covered(before + [(day, day)], d) <==> Covered(before, d) || d == day)
      && (before != [] && before[|before| - 1].1 == day - 1 ==>
            (Covered(before[|before| - 1 := (before[|before| - 1].0, day)], d) <==> Covered(before, d) || d == day))
    {
      OneMoreDay(before, day, d);
    }
    hide Covered;
  }

  lemma {:induction false} DayNameReturns(d: int)
    requires 1 <= d <= 7
    ensures DayNamed(DayName(d)) == Some(d)
  {
  }

  /** The comma-separated items of a run's text. */
  function RunItems(r: Run): seq<string> {
    if r.0 == r.1 then [DayName(r.0)]
    else if r.1 == r.0 + 1 then [DayName(r.0), DayName(r.1)]
    else [DayName(r.0) + "-" + DayName(r.1)]
  }

  function Items(runs: seq<Run>): seq<string> {
    if runs == [] then [] else RunItems(runs[0]) + Items(runs[1..])
  }

  lemma {:induction false} SplitRun(r: Run, rest: string)
    ensures Split(RunText(r), ',') == RunItems(r)
    ensures Split(RunText(r) + "," + rest, ',') == RunItems(r) + Split(rest, ',')
  {
    var first, last := DayName(r.0), DayName(r.1);
    if r.0 == r.1 {
      SplitPiece(first, rest, ',');
    } else if r.1 == r.0 + 1 {
      SplitPiece(last, rest, ',');
      SplitPiece(first, last, ',');
      SplitPiece(first, last + "," + rest, ',');
      assert first + "," + last + "," + rest == first + "," + (last + "," + rest);
    } else {
      SplitPiece(first + "-" + last, rest, ',');
    }
  }

  lemma {:induction false} SplitRuns(runs: seq<Run>)
    requires runs != []
    ensures Split(Join(RunTexts(runs), ","), ',') == Items(runs)
  {
    var texts := RunTexts(runs);
    if |runs| == 1 {
      SplitRun(runs[0], "");
      assert Items(runs[1..]) == [];
    } else {
      assert texts[1..] == RunTexts(runs[1..]);
      SplitRuns(runs[1..]);
      SplitRun(runs[0], Join(texts[1..], ","));
    }
  }

  lemma {:induction false} RunItemsMean(r: Run, d: int)
    requires 1 <= r.0 <= r.1 <= 7
    ensures (exists i :: 0 <= i < |RunItems(r)| && d in ItemDays(RunItems(r)[i])) <==> InRun(d, r)
  {
    DayNameReturns(r.0);
    DayNameReturns(r.1);
    if r.1 > r.0 + 1 {
      var item := DayName(r.0) + "-" + DayName(r.1);
      assert item[..2] == DayName(r.0) && item[3..] == DayName(r.1);
      assert RunItems(r)[0] == item;
    } else {
      assert RunItems(r)[0] == DayName(r.0);
      assert r.1 == r.0 + 1 ==> RunItems(r)[1] == DayName(r.1);
    }
  }

  ghost predicate Named(items: seq<string>, d: int) { exists i :: 0 <= i < |items| && d in ItemDays(items[i]) }

  lemma {:induction false} ItemsMean(runs: seq<Run>, d: int)
    requires forall i :: 0 <= i < |runs| ==> 1 <= runs[i].0 <= runs[i].1 <= 7
    ensures Named(Items(runs), d) <==> Covered(runs, d)
  {
    if runs != [] {
      var first, rest := RunItems(runs[0]), Items(runs[1..]);
      RunItemsMean(runs[0], d);
      ItemsMean(runs[1..], d);
      assert Items(runs) == first + rest;
      assert Named(first + rest, d) <==> Named(first, d) || Named(rest, d) by {
        if Named(first, d) {
          var i :| 0 <= i < |first| && d in ItemDays(first[i]);
          assert (first + rest)[i] == first[i];
        }
        if Named(rest, d) {
          var i :| 0 <= i < |rest| && d in ItemDays(rest[i]);
          assert (first + rest)[|first| + i] == rest[i];
        }
      }
      if i :| 0 <= i < |runs[1..]| && InRun(d, runs[1..][i]) {
        assert InRun(d, runs[i + 1]);
      }
      if i :| 0 <= i < |runs| && InRun(d, runs[i]) {
        assert i == 0 || InRun(d, runs[1..][i - 1]);
      }
    }
  }

  /** The text of some days names exactly those, and is one word. */
  lemma {:induction false} DaysReturn(days: seq<int>)
    requires AscendingDays(days) && days != []
    ensures DaysOfText(DaysText(days)) == set d | d in days
    ensures ' ' !in DaysText(days) && ';' !in DaysText(days)
  {
    hide Items, ItemDays, Split, Join, Runs, RunText;
    RunsAreMaximal(days);
    var runs := Runs(days);
    SplitRuns(runs);
    forall d ensures d in DaysOfText(DaysText(days)) <==> d in days {
      ItemsMean(runs, d);
      assert d in DaysOfText(DaysText(days)) <==> 1 <= d <= 7 && Named(Items(runs), d);
    }
    forall text | text in RunTexts(runs) ensures ' ' !in text && ';' !in text {
      var i :| 0 <= i < |runs| && text == RunText(runs[i]);
      RunIsWord(runs[i]);
    }
    JoinedWords(RunTexts(runs));
  }

  lemma {:induction false} RunIsWord(r: Run)
    ensures ' ' !in RunText(r) && ';' !in RunText(r)
  {
  }

  // --- hours ---

  /** The text of some spans lists exactly those, and is one word. */
  lemma {:induction false} HoursReturn(spans: seq<string>)
    requires spans != [] && forall s :: s in spans ==> IsSpan(s)
    ensures (set s | s in Split(HoursText(spans), ',')) == set s | s in spans
    ensures ' ' !in HoursText(spans) && ';' !in HoursText(spans)
  {
    var sorted := Sort(NotAfter, spans);
    SortKeeps(NotAfter, spans);
    forall s ensures s in sorted <==> s in spans {
      assert s in multiset(sorted) <==> s in multiset(spans);
    }
    SplitJoined(sorted, ',');
    JoinedWords(sorted);
  }

  // --- groups ---

  /** What the groups of the days up to `day` are: each has some ascending days with
      its hours, and each day that has hours stands in the one group of those. */
  ghost predicate GroupsFit(groups: seq<Group>, byDay: Week, day: nat) {
    && (forall i :: 0 <= i < |groups| ==> GroupFits(groups[i], byDay, day))
    && (forall i, j :: 0 <= i < j < |groups| ==> groups[i].hours != groups[j].hours)
    && (forall d :: d in byDay && 1 <= d <= day ==> InGroup(groups, d))
  }

  ghost predicate GroupFits(g: Group, byDay: Week, day: nat) {
    && g.days != [] && AscendingDays(g.days)
    && forall d :: d in g.days ==> d in byDay && d <= day && g.hours == HoursText(byDay[d])
  }

  predicate InGroup(groups: seq<Group>, d: int) { exists i :: 0 <= i < |groups| && d in groups[i].days }

  /** Where a day joins: the group with its hours, or a new one at the end. */
  lemma {:induction false} AddToIs(groups: seq<Group>, hours: string, day: int) returns (k: nat)
    requires forall i, j :: 0 <= i < j < |groups| ==> groups[i].hours != groups[j].hours
    ensures k <= |groups| && forall i :: 0 <= i < |groups| && i != k ==> groups[i].hours != hours
    ensures k < |groups| ==> groups[k].hours == hours && AddTo(groups, hours, day) == groups[k := Group(hours, groups[k].days + [day])]
    ensures k == |groups| ==> AddTo(groups, hours, day) == groups + [Group(hours, [day])]
  {
    if groups == [] {
      k := 0;
    } else if groups[0].hours == hours {
      k := 0;
      ReplacedLater(groups, 0, Group(hours, groups[0].days + [day]));
    } else {
      var rest := AddToIs(groups[1..], hours, day);
      k := rest + 1;
      assert AddTo(groups, hours, day) == [groups[0]] + AddTo(groups[1..], hours, day);
      hide AddTo;
      if k < |groups| {
        ReplacedLater(groups, k, Group(hours, groups[k].days + [day]));
      } else {
        assert [groups[0]] + (groups[1..] + [Group(hours, [day])]) == groups + [Group(hours, [day])];
      }
    }
  }

  lemma {:induction false} ReplacedLater(groups: seq<Group>, k: nat, g: Group)
    requires k < |groups|
    ensures k == 0 ==> [g] + groups[1..] == groups[0 := g]
    ensures k > 0 ==> [groups[0]] + groups[1..][k - 1 := g] == groups[k := g]
  {
  }

  lemma {:induction false} OneMoreFits(before: seq<Group>, groups: seq<Group>, byDay: Week, day: nat, k: nat)
    requires 1 <= day <= 7 && GroupsFit(before, byDay, day - 1) && day in byDay && k <= |before|
    requires forall i :: 0 <= i < |before| && i != k ==> before[i].hours != HoursText(byDay[day])
    requires if k < |before| then before[k].hours == HoursText(byDay[day]) && groups == before[k := Group(before[k].hours, before[k].days + [day])]
             else groups == before + [Group(HoursText(byDay[day]), [day])]
    ensures GroupsFit(groups, byDay, day)
  {
    hide HoursText;
    assert day in groups[k].days;
    forall i | 0 <= i < |groups| ensures GroupFits(groups[i], byDay, day) {
      if i < |before| {
        assert GroupFits(before[i], byDay, day - 1);
        forall x | 0 <= x < |before[i].days| ensures before[i].days[x] < day {
          assert before[i].days[x] in before[i].days;
        }
      }
    }
    forall d | d in byDay && 1 <= d <= day ensures InGroup(groups, d) {
      if d < day {
        assert InGroup(before, d);
        var i :| 0 <= i < |before| && d in before[i].days;
        assert d in groups[i].days;
      }
    }
  }

  lemma {:induction false} GroupsFitWeek(byDay: Week, day: nat)
    requires day <= 7
    ensures GroupsFit(GroupsUpTo(byDay, day), byDay, day)
  {
    hide HoursText;
    if day > 0 {
      GroupsFitWeek(byDay, day - 1);
      if day in byDay {
        var before := GroupsUpTo(byDay, day - 1);
        var k := AddToIs(before, HoursText(byDay[day]), day);
        hide GroupsFit;
        OneGroupFits(before, byDay, day, k);
      }
    }
  }

  lemma {:induction false} OneGroupFits(before: seq<Group>, byDay: Week, day: nat, k: nat)
    requires 1 <= day <= 7 && GroupsFit(before, byDay, day - 1) && day in byDay && k <= |before|
    requires forall i :: 0 <= i < |before| && i != k ==> before[i].hours != HoursText(byDay[day])
    requires var hours := HoursText(byDay[day]); var groups := AddTo(before, hours, day);
      if k < |before| then before[k].hours == hours && groups == before[k := Group(hours, before[k].days + [day])]
      else groups == before + [Group(hours, [day])]
    ensures GroupsFit(AddTo(before, HoursText(byDay[day]), day), byDay, day)
  {
    OneMoreFits(before, AddTo(before, HoursText(byDay[day]), day), byDay, day, k);
  }

  lemma {:induction false} OneGroupPerDay(groups: seq<Group>, byDay: Week, day: nat, i: nat, j: nat, d: int)
    requires GroupsFit(groups, byDay, day) && i < |groups| && j < |groups| && d in groups[i].days && d in groups[j].days
    ensures i == j
  {
  }

  // --- the whole text ---

  lemma {:induction false} GroupReturns(g: Group, spans: seq<string>)
    requires g.days != [] && AscendingDays(g.days)
    requires spans != [] && (forall s :: s in spans ==> IsSpan(s)) && g.hours == HoursText(spans)
    ensures var rule := Rule(set d | d in g.days, set s | s in spans);
      RuleOf(GroupText(g)) == rule && RuleOf(" " + GroupText(g)) == rule && ';' !in GroupText(g)
  {
    DaysReturn(g.days);
    HoursReturn(spans);
    hide DaysText, HoursText, DaysOfText;
    var days, text := DaysText(g.days), GroupText(g);
    assert text == days + [' '] + g.hours;
    SplitPiece(days, g.hours, ' ');
    SplitPiece(g.hours, "", ' ');
    assert text[0] != ' ' by {
      DaysAreWritten(g.days);
    }
    assert (" " + text)[1..] == text;
  }

  lemma {:induction false} DaysAreWritten(days: seq<int>)
    requires AscendingDays(days) && days != []
    ensures DaysText(days) != ""
  {
  }

  /** The spans the readable periods give a day. */
  function SpansGiven(periods: seq<Period>, day: int): set<string> {
    set p | p in periods && IsReadable(p) && p.day == Some(day) :: SpanOf(p)
  }

  lemma {:induction false} SpansAreGiven(periods: seq<Period>, day: int)
    ensures (set s | s in SpansOn(periods, day)) == SpansGiven(periods, day)
  {
    if periods != [] {
      var n := |periods| - 1;
      assert periods == periods[..n] + [periods[n]];
      SpansAreGiven(periods[..n], day);
      assert forall s :: s in SpansGiven(periods, day) <==>
        s in SpansGiven(periods[..n], day) || (IsReadable(periods[n]) && periods[n].day == Some(day) && s == SpanOf(periods[n]));
    }
  }

  lemma {:induction false} SameHoursSameSpans(a: seq<string>, b: seq<string>)
    requires a != [] && (forall s :: s in a ==> IsSpan(s)) && b != [] && (forall s :: s in b ==> IsSpan(s))
    requires HoursText(a) == HoursText(b)
    ensures (set s | s in a) == set s | s in b
  {
    HoursReturn(a);
    HoursReturn(b);
  }

  /** A rule read back: a group's days, each with exactly the spans it was given. */
  ghost predicate RuleFits(rule: Rule, g: Group, byDay: Week) {
    rule.days == (set d | d in g.days) && forall d :: d in g.days ==> d in byDay && rule.spans == set s | s in byDay[d]
  }

  lemma {:induction false} GroupRead(g: Group, byDay: Week, periods: seq<Period>)
    requires IsWeekOf(byDay, periods) && GroupFits(g, byDay, 7)
    ensures RuleFits(RuleOf(GroupText(g)), g, byDay) && RuleOf(" " + GroupText(g)) == RuleOf(GroupText(g)) && ';' !in GroupText(g)
  {
    var first := g.days[0];
    assert first in g.days;
    GroupReturns(g, byDay[first]);
    hide RuleOf, HoursText, GroupText;
    forall d | d in g.days ensures (set s | s in byDay[d]) == set s | s in byDay[first] {
      SameHoursSameSpans(byDay[d], byDay[first]);
    }
  }

  lemma {:induction false} RulesRead(groups: seq<Group>, byDay: Week, periods: seq<Period>)
    requires IsWeekOf(byDay, periods) && GroupsFit(groups, byDay, 7) && groups != []
    ensures var rules := RulesOf(WeekText(groups));
      |rules| == |groups| && forall i :: 0 <= i < |rules| ==> RuleFits(rules[i], groups[i], byDay)
  {
    var texts := GroupTexts(groups);
    forall i | 0 <= i < |groups|
      ensures RuleFits(RuleOf(texts[i]), groups[i], byDay) && RuleOf(" " + texts[i]) == RuleOf(texts[i]) && ';' !in texts[i]
    {
      GroupRead(groups[i], byDay, periods);
    }
    SplitRules(texts);
  }

  lemma {:induction false} HoursOfOneRule(rules: seq<Rule>, k: nat, day: int)
    requires k < |rules| && day in rules[k].days && forall i :: 0 <= i < |rules| && day in rules[i].days ==> i == k
    ensures HoursOn(rules, day) == rules[k].spans
  {
    var n := |rules| - 1;
    if k < n {
      assert day !in rules[n].days;
      HoursOfOneRule(rules[..n], k, day);
    }
  }

  lemma {:induction false} HoursOfNoRule(rules: seq<Rule>, day: int)
    requires forall i :: 0 <= i < |rules| ==> day !in rules[i].days
    ensures HoursOn(rules, day) == {}
  {
    if rules != [] { HoursOfNoRule(rules[..|rules| - 1], day); }
  }

  predicate InOneRule(rules: seq<Rule>, day: int) {
    forall i, j :: 0 <= i < |rules| && 0 <= j < |rules| && day in rules[i].days && day in rules[j].days ==> i == j
  }

  /** Read back rule by rule, the week's text gives every day exactly the spans of its
      readable periods, and names no day in two rules. */
  lemma {:induction false} TextMeansPeriods(periods: seq<Period>, byDay: Week, day: int)
    requires IsWeekOf(byDay, periods) && byDay != map[]
    ensures var rules := RulesOf(WeekText(GroupsUpTo(byDay, 7)));
      HoursOn(rules, day) == SpansGiven(periods, day) && InOneRule(rules, day)
  {
    var groups := GroupsUpTo(byDay, 7);
    GroupsFitWeek(byDay, 7);
    var some := SomeKey(byDay);
    assert InGroup(groups, some);
    RulesRead(groups, byDay, periods);
    SpansAreGiven(periods, day);
    hide RulesOf, WeekText, SpansGiven, GroupsUpTo;
    var rules := RulesOf(WeekText(groups));
    forall i, j | 0 <= i < |rules| && 0 <= j < |rules| && day in rules[i].days && day in rules[j].days ensures i == j {
      assert RuleFits(rules[i], groups[i], byDay) && RuleFits(rules[j], groups[j], byDay);
      OneGroupPerDay(groups, byDay, 7, i, j, day);
    }
    if day in byDay {
      assert InGroup(groups, day);
      var k :| 0 <= k < |groups| && day in groups[k].days;
      assert RuleFits(rules[k], groups[k], byDay);
      HoursOfOneRule(rules, k, day);
    } else {
      forall i | 0 <= i < |rules| ensures day !in rules[i].days {
        assert RuleFits(rules[i], groups[i], byDay) && GroupFits(groups[i], byDay, 7);
      }
      HoursOfNoRule(rules, day);
      assert SpansOn(periods, day) == [];
    }
  }

  /** `24/7` is written exactly for a week each of whose days has one span, of the
      whole day: to 24:00, or to 23:59 taken for it. */
  lemma {:induction false} AlwaysOpenExactly(periods: seq<Period>, byDay: Week)
    requires IsWeekOf(byDay, periods)
    ensures IsAlwaysOpen(byDay) <==> forall d :: d in WEEKDAYS ==> IsWholeDayGiven(SpansGiven(periods, d))
  {
    AllDaysOpen(byDay);
    forall d ensures IsOpenAllDay(byDay, d) <==> IsWholeDayGiven(SpansGiven(periods, d)) {
      WholeDayExactly(periods, byDay, d);
    }
    hide IsAlwaysOpen, IsOpenAllDay, IsWeekOf, IsWholeDayGiven, SpansGiven;
    if forall d :: d in WEEKDAYS ==> IsOpenAllDay(byDay, d) {
      assert IsAlwaysOpen(byDay);
    } else {
      var d :| d in WEEKDAYS && !IsOpenAllDay(byDay, d);
      assert !IsWholeDayGiven(SpansGiven(periods, d));
    }
  }

  predicate IsOpenAllDay(byDay: Week, d: int) { d in byDay && IsWholeDay(byDay[d]) }

  lemma {:induction false} AllDaysOpen(byDay: Week)
    requires forall d :: d in byDay ==> 1 <= d <= 7
    ensures IsAlwaysOpen(byDay) <==> forall d :: d in WEEKDAYS ==> IsOpenAllDay(byDay, d)
  {
    hide IsWholeDay;
    WholeWeek(byDay);
  }

  lemma {:induction false} WholeDayExactly(periods: seq<Period>, byDay: Week, day: int)
    requires IsWeekOf(byDay, periods)
    ensures IsOpenAllDay(byDay, day) <==> IsWholeDayGiven(SpansGiven(periods, day))
  {
    SpansAreGiven(periods, day);
    DistinctSpans(periods, day);
    OneSpan(SpansOn(periods, day));
    NoSpan();
    hide IsWholeDay, IsWholeDayGiven, SpansGiven, SpansOn;
  }

  predicate IsWholeDayGiven(given: set<string>) { given == {"00:00-24:00"} || given == {"00:00-23:59"} }

  lemma {:induction false} NoSpan()
    ensures !IsWholeDayGiven({}) && (set s: string | s in []) == {} && !IsWholeDay([])
  {
  }

  lemma {:induction false} WholeWeek(byDay: Week)
    requires forall d :: d in byDay ==> 1 <= d <= 7
    ensures |byDay| == 7 <==> forall d :: d in WEEKDAYS ==> d in byDay
  {
    forall d | d in byDay.Keys ensures d in WEEKDAYS {
      assert d in byDay;
    }
    assert |WEEKDAYS| == 7;
    if forall d :: d in WEEKDAYS ==> d in byDay {
      assert byDay.Keys == WEEKDAYS;
    }
    if |byDay| == 7 {
      SubsetSize(WEEKDAYS - byDay.Keys, WEEKDAYS);
      assert |WEEKDAYS - byDay.Keys| == |WEEKDAYS| - |byDay.Keys|;
    }
  }

  predicate AreDistinct(spans: seq<string>) { forall i, j :: 0 <= i < j < |spans| ==> spans[i] != spans[j] }

  lemma {:induction false} DistinctSpans(periods: seq<Period>, day: int)
    ensures AreDistinct(SpansOn(periods, day))
  {
    hide IsReadable, SpanOf, IsSpan;
    if periods != [] {
      DistinctSpans(periods[..|periods| - 1], day);
    }
  }

  lemma {:induction false} OneSpan(spans: seq<string>)
    requires AreDistinct(spans)
    ensures IsWholeDay(spans) <==> IsWholeDayGiven(set s | s in spans)
  {
    var given := set s | s in spans;
    if |spans| == 1 {
      assert given == {spans[0]};
    } else if |spans| >= 2 {
      assert spans[0] in given && spans[1] in given && spans[0] != spans[1];
    } else {
      assert given == {};
    }
  }

  lemma {:induction false} NoHoursExactly(periods: seq<Period>, week: Week)
    requires IsWeekOf(week, periods)
    ensures week == map[] <==> forall d :: SpansGiven(periods, d) == {}
  {
    hide SpansOn, SpansGiven;
    forall d ensures SpansGiven(periods, d) == {} <==> d !in week {
      SpansAreGiven(periods, d);
      if d in week {
        assert week[d][0] in SpansGiven(periods, d);
      }
    }
    if week != map[] {
      var d := SomeKey(week);
    }
  }

  /** What is written means the periods: nothing, exactly that no day has hours; `24/7`,
      that each has the whole day and nothing else; any other text, read back, each day's
      spans exactly, in one rule at most. */
  lemma {:induction false} OpeningTextMeans(periods: seq<Period>, day: int)
    ensures OpeningText(periods).None? <==> forall d :: SpansGiven(periods, d) == {}
    ensures match OpeningText(periods)
      case None => SpansGiven(periods, day) == {}
      case Some(text) =>
        if IsAlwaysOpen(WeekOf(periods)) then text == "24/7" && forall d :: d in WEEKDAYS ==> IsWholeDayGiven(SpansGiven(periods, d))
        else HoursOn(RulesOf(text), day) == SpansGiven(periods, day) && InOneRule(RulesOf(text), day)
  {
    var week := WeekOf(periods);
    WeekOfIs(week, periods);
    SpansAreGiven(periods, day);
    AlwaysOpenExactly(periods, week);
    NoHoursExactly(periods, week);
    hide SpansOn, SpansGiven, RulesOf, WeekText, GroupsUpTo, IsAlwaysOpen, IsWholeDayGiven, HoursOn;
    if week == map[] {
      assert SpansOn(periods, day) == [];
    } else {
      TextMeansPeriods(periods, week, day);
    }
  }
}
