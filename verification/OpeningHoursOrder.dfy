/** The text of a week goes by what its days' hours are, not by how the periods are listed. */
module OpeningHoursOrder {
  import opened Basics
  import opened OpeningHours
  import opened OpeningHoursLaws

  // --- which hours are given ---

  /** A clock time up to 24:59, as the code reads one. */
  ghost predicate IsHour(s: string) { exists h: nat, m: nat :: h <= 24 && m < 60 && s == TwoDigits(h) + ":" + TwoDigits(m) }

  lemma {:induction false} HourExactly(s: string)
    ensures IsClock(s) <==> IsHour(s)
  {
    hide TwoDigits;
    if IsClock(s) {
      var h := DigitsReturn(s[0], s[1]);
      var m := DigitsReturn(s[3], s[4]);
      DigitsAre(h);
      DigitsAre(m);
      assert s == [s[0], s[1]] + ":" + [s[3], s[4]];
    }
    if IsHour(s) {
      var h: nat, m: nat :| h <= 24 && m < 60 && s == TwoDigits(h) + ":" + TwoDigits(m);
      DigitsAre(h);
      DigitsAre(m);
      assert s == [TwoDigits(h)[0], TwoDigits(h)[1], ':', TwoDigits(m)[0], TwoDigits(m)[1]];
    }
  }

  lemma {:induction false} ReadableExactly(p: Period)
    ensures IsReadable(p) <==> p.day.Some? && 1 <= p.day.value <= 7 && IsHour(p.from) && IsHour(p.to)
  {
    HourExactly(p.from);
    HourExactly(p.to);
    hide IsClock, IsHour;
  }

  /** The period gives the day these hours, from one clock time to another. */
  ghost predicate Gives(p: Period, day: int, span: string) {
    p.day == Some(day) && IsHour(p.from) && IsHour(p.to) && span == p.from + "-" + p.to
  }

  /** A day has the hours its periods give it, and no others. */
  lemma {:induction false} GivenExactly(periods: seq<Period>, day: int, span: string)
    ensures span in SpansGiven(periods, day) <==> 1 <= day <= 7 && exists p :: p in periods && Gives(p, day, span)
  {
    hide IsReadable, IsHour;
    if span in SpansGiven(periods, day) {
      var p :| p in periods && IsReadable(p) && p.day == Some(day) && SpanOf(p) == span;
      ReadableExactly(p);
      assert Gives(p, day, span);
    }
    if p :| 1 <= day <= 7 && p in periods && Gives(p, day, span) {
      ReadableExactly(p);
      assert SpanOf(p) == span;
    }
  }

  // --- one order for hours ---

  lemma {:induction false} HoursAreOrdered()
    ensures TotalPreorder(NotAfter)
  {
    forall x, y ensures NotAfter(x, y) || NotAfter(y, x) { StringOrderIsTotal(x, y); }
    forall x, y, z | NotAfter(x, y) && NotAfter(y, z) ensures NotAfter(x, z) {
      StringOrderIsTotal(x, y);
      StringOrderIsTotal(y, z);
      if StringBefore(z, x) {
        if y == x {
        } else {
          StringOrderIsTransitive(z, x, y);
        }
      }
    }
  }

  ghost predicate Ascend(s: seq<string>) { forall i, j :: 0 <= i < j < |s| ==> StringBefore(s[i], s[j]) }

  lemma {:induction false} SortedAscend(spans: seq<string>)
    requires AreDistinct(spans)
    ensures Ascend(Sort(NotAfter, spans)) && forall s :: s in Sort(NotAfter, spans) <==> s in spans
  {
    HoursAreOrdered();
    SortKeeps(NotAfter, spans);
    hide Sort, StringBefore, TotalPreorder;
    var sorted := Sort(NotAfter, spans);
    BagOfDistinct(spans);
    forall s ensures s in sorted <==> s in spans { assert s in multiset(sorted) <==> s in multiset(spans); }
    forall i, j | 0 <= i < j < |sorted| ensures StringBefore(sorted[i], sorted[j]) {
      StringOrderIsTotal(sorted[i], sorted[j]);
      assert NotAfter(sorted[i], sorted[j]);
      if sorted[i] == sorted[j] {
        TwiceInBag(sorted, i, j);
      }
    }
  }

  lemma {:induction false} BagOfDistinct(s: seq<string>)
    requires AreDistinct(s)
    ensures forall x :: multiset(s)[x] <= 1
  {
    if s != [] {
      var n := |s| - 1;
      assert s == s[..n] + [s[n]];
      BagOfDistinct(s[..n]);
      assert s[n] !in s[..n];
    }
  }

  lemma {:induction false} TwiceInBag(s: seq<string>, i: nat, j: nat)
    requires i < j < |s| && s[i] == s[j]
    ensures multiset(s)[s[i]] >= 2
  {
    assert s == s[..j] + [s[j]] + s[j + 1..];
    assert s[i] in s[..j];
  }

  lemma {:induction false} OneAscent(a: seq<string>, b: seq<string>)
    requires Ascend(a) && Ascend(b) && forall s :: s in a <==> s in b
    ensures a == b
  {
    hide StringBefore;
    assert b != [] ==> b[0] in a;
    if a != [] {
      assert a[0] in b;
      FirstIsLeast(a, b[0]);
      FirstIsLeast(b, a[0]);
      StringOrderIsTotal(a[0], b[0]);
      assert a[0] == b[0];
      StringOrderIsTotal(a[0], a[0]);
      var (x, y) := (a[1..], b[1..]);
      forall s ensures s in x <==> s in y {
        assert a[0] !in x && b[0] !in y;
        assert s in a <==> s == a[0] || s in x;
        assert s in b <==> s == b[0] || s in y;
      }
      OneAscent(x, y);
      assert a == [a[0]] + x && b == [b[0]] + y;
    }
  }

  lemma {:induction false} FirstIsLeast(a: seq<string>, s: string)
    requires Ascend(a) && s in a
    ensures s == a[0] || StringBefore(a[0], s)
  {
    hide StringBefore;
    var i :| 0 <= i < |a| && a[i] == s;
  }

  /** The hours of a day are written in the order of their texts, each once. */
  lemma {:induction false} HoursAscend(periods: seq<Period>, day: int)
    requires SpansOn(periods, day) != []
    ensures var written := Split(HoursText(SpansOn(periods, day)), ',');
      Ascend(written) && forall s :: s in written <==> s in SpansGiven(periods, day)
  {
    var spans := SpansOn(periods, day);
    DistinctSpans(periods, day);
    SortedAscend(spans);
    SpansAreGiven(periods, day);
    SortKeeps(NotAfter, spans);
    hide Sort, SpansOn, SpansGiven, Ascend;
    assert forall s :: s in spans <==> s in set x | x in spans;
    SplitJoined(Sort(NotAfter, spans), ',');
  }

  lemma {:induction false} SameSpansSameHours(periods: seq<Period>, periods': seq<Period>, day: int)
    requires SpansGiven(periods, day) == SpansGiven(periods', day)
    ensures HoursText(SpansOn(periods, day)) == HoursText(SpansOn(periods', day))
    ensures SpansOn(periods, day) == [] <==> SpansOn(periods', day) == []
  {
    var (a, b) := (SpansOn(periods, day), SpansOn(periods', day));
    DistinctSpans(periods, day);
    DistinctSpans(periods', day);
    SpansAreGiven(periods, day);
    SpansAreGiven(periods', day);
    SortedAscend(a);
    SortedAscend(b);
    hide Sort, SpansOn, SpansGiven, Ascend;
    forall s ensures s in a <==> s in b {
      assert s in a <==> s in SpansGiven(periods, day);
      assert s in b <==> s in SpansGiven(periods', day);
    }
    OneAscent(Sort(NotAfter, a), Sort(NotAfter, b));
    assert a != [] ==> a[0] in b;
    assert b != [] ==> b[0] in a;
  }

  lemma {:induction false} SameSpansSameGroups(periods: seq<Period>, periods': seq<Period>, day: nat)
    requires forall d :: SpansGiven(periods, d) == SpansGiven(periods', d)
    ensures GroupsUpTo(WeekOf(periods), day) == GroupsUpTo(WeekOf(periods'), day)
  {
    hide SpansGiven, SpansOn, HoursText, AddTo;
    if day > 0 {
      SameSpansSameGroups(periods, periods', day - 1);
      SameSpansSameHours(periods, periods', day);
    }
  }

  // --- when two lists of periods have one text ---

  ghost predicate IsAlwaysGiven(periods: seq<Period>) { forall d :: 1 <= d <= 7 ==> IsWholeDayGiven(SpansGiven(periods, d)) }

  lemma {:induction false} AlwaysGivenExactly(periods: seq<Period>)
    ensures IsAlwaysOpen(WeekOf(periods)) <==> IsAlwaysGiven(periods)
    ensures WeekOf(periods) == map[] <==> forall d :: SpansGiven(periods, d) == {}
  {
    hide WeekOf, IsAlwaysOpen, IsWholeDayGiven, SpansGiven, IsWeekOf;
    WeekOfIs(WeekOf(periods), periods);
    AlwaysOpenExactly(periods, WeekOf(periods));
    NoHoursExactly(periods, WeekOf(periods));
    assert forall d :: d in WEEKDAYS <==> 1 <= d <= 7;
  }

  lemma {:induction false} AlwaysTextNamesNoDay(day: int)
    ensures HoursOn(RulesOf("24/7"), day) == {}
  {
    SplitPiece("24/7", "", ';');
    SplitPiece("24/7", "", ' ');
    assert RulesOf("24/7") == [Rule({}, {})];
    hide Split, RulesOf, RuleOf;
    assert [Rule({}, {})][..0] == [];
  }

  /** What is written of a week that is not open all the time gives each day its hours. */
  lemma {:induction false} TextGives(periods: seq<Period>, day: int)
    requires !IsAlwaysGiven(periods)
    ensures SpansGiven(periods, day) == if OpeningText(periods).Some? then HoursOn(RulesOf(OpeningText(periods).value), day) else {}
  {
    hide OpeningText, RulesOf, HoursOn, SpansGiven, WeekOf, IsAlwaysOpen, IsAlwaysGiven, IsWholeDayGiven, InOneRule;
    AlwaysGivenExactly(periods);
    OpeningTextMeans(periods, day);
  }

  lemma {:induction false} AlwaysText(periods: seq<Period>)
    ensures OpeningText(periods) == Some("24/7") <==> IsAlwaysGiven(periods)
  {
    AlwaysGivenExactly(periods);
    if IsAlwaysGiven(periods) {
      assert IsWholeDayGiven(SpansGiven(periods, 1));
      hide WeekOf, IsAlwaysOpen, SpansGiven, IsAlwaysGiven, WeekText, GroupsUpTo;
    } else {
      hide WeekOf, IsAlwaysOpen, SpansGiven, IsAlwaysGiven, OpeningText, HoursOn, RulesOf, IsWholeDayGiven, InOneRule;
      OpeningTextMeans(periods, 1);
      if OpeningText(periods) == Some("24/7") {
        forall d ensures SpansGiven(periods, d) == {} {
          TextGives(periods, d);
          AlwaysTextNamesNoDay(d);
        }
      }
    }
  }

  /** Two lists of periods have one text exactly if each day has the same hours in both, however they
      are listed, or both are open all day, to 24:00 or to 23:59. */
  lemma {:induction false} TextExactly(periods: seq<Period>, periods': seq<Period>)
    ensures OpeningText(periods) == OpeningText(periods') <==>
      (forall d :: SpansGiven(periods, d) == SpansGiven(periods', d)) || (IsAlwaysGiven(periods) && IsAlwaysGiven(periods'))
  {
    AlwaysText(periods);
    AlwaysText(periods');
    if forall d :: SpansGiven(periods, d) == SpansGiven(periods', d) {
      SameSpansSameText(periods, periods');
    } else if OpeningText(periods) == OpeningText(periods') && !IsAlwaysGiven(periods) {
      hide OpeningText, SpansGiven, IsAlwaysGiven, RulesOf, HoursOn;
      forall d ensures SpansGiven(periods, d) == SpansGiven(periods', d) {
        TextGives(periods, d);
        TextGives(periods', d);
      }
    }
    hide OpeningText, SpansGiven, IsAlwaysGiven;
  }

  lemma {:induction false} SameSpansSameText(periods: seq<Period>, periods': seq<Period>)
    requires forall d :: SpansGiven(periods, d) == SpansGiven(periods', d)
    ensures OpeningText(periods) == OpeningText(periods')
  {
    hide SpansGiven, WeekOf, IsAlwaysOpen, IsAlwaysGiven, GroupsUpTo, WeekText;
    AlwaysGivenExactly(periods);
    AlwaysGivenExactly(periods');
    SameSpansSameGroups(periods, periods', 7);
    SameGivenAlways(periods, periods');
  }

  lemma {:induction false} SameGivenAlways(periods: seq<Period>, periods': seq<Period>)
    requires forall d :: SpansGiven(periods, d) == SpansGiven(periods', d)
    ensures IsAlwaysGiven(periods) <==> IsAlwaysGiven(periods')
  {
    hide SpansGiven, IsWholeDayGiven;
  }
}
