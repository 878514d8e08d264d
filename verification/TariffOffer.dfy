/** What an offer's elements hold of the tariff's, value by value, and when a
    tariff has no offer. */
module TariffOffer {
  import opened Basics
  import opened Tariff

  // --- a component, in OCPI's words and in the offer's ---

  predicate HasPrice(c: Published) {
    && (c.type_ == "ENERGY" || c.type_ == "FLAT" || c.type_ == "PARKING_TIME" || c.type_ == "TIME")
    && c.price.Finite? && c.price.value >= 0.0
  }

  /** The offered component is the published one: its dimension, its price, its VAT where that is a
      percentage, its step where that is a whole number above 0, and the unit of the dimension. */
  ghost predicate IsOfferOf(o: Component, c: Published, money: real -> string) {
    && c.price.Finite? && o.amount == money(c.price.value)
    && (match o.dimension
        case Energy => c.type_ == "ENERGY" && o.unit_ == Some("kW.h")
        case Flat => c.type_ == "FLAT" && o.unit_ == None
        case ParkingTime => c.type_ == "PARKING_TIME" && o.unit_ == Some("h")
        case Time => c.type_ == "TIME" && o.unit_ == Some("h"))
    && (match c.vat case Some(Finite(v)) => o.vat == (if v < 0.0 || v > 100.0 then None else Some(v)) case _ => o.vat == None)
    && (match c.step
        case Some(Finite(v)) => forall n: int :: o.step == Some(n) <==> v == n as real && 1 <= n <= 9007199254740991
        case _ => o.step == None)
  }

  lemma {:induction false} PricedExactly(c: Published)
    ensures Prices(c) <==> HasPrice(c)
  {
  }

  lemma {:induction false} ComponentIsOffer(c: Published, money: real -> string)
    requires Prices(c)
    ensures IsOfferOf(ComponentOf(c, money), c, money)
  {
    if c.step.Some? && c.step.value.Finite? {
      var v := c.step.value.value;
      forall n: int ensures ComponentOf(c, money).step == Some(n) <==> v == n as real && 1 <= n <= 9007199254740991 {
        if v == n as real { assert v.Floor == n; }
      }
    }
  }

  // --- restrictions ---

  /** A time of the day. */
  ghost predicate IsTime(s: string) { exists h: nat, m: nat :: h < 24 && m < 60 && s == TwoDigits(h) + ":" + TwoDigits(m) }

  /** A date by its digits. */
  ghost predicate IsDay(s: string) {
    exists a: nat, b: nat, m: nat, d: nat ::
      a < 100 && b < 100 && m < 100 && d < 100 && s == TwoDigits(a) + TwoDigits(b) + "-" + TwoDigits(m) + "-" + TwoDigits(d)
  }

  lemma {:induction false} TimeExactly(s: string)
    ensures IsClock(s) <==> IsTime(s)
  {
    hide TwoDigits;
    if IsClock(s) {
      var h := DigitsReturn(s[0], s[1]);
      var m := DigitsReturn(s[3], s[4]);
      DigitsAre(h);
      DigitsAre(m);
      assert s == [s[0], s[1]] + ":" + [s[3], s[4]];
    }
    if IsTime(s) {
      var h: nat, m: nat :| h < 24 && m < 60 && s == TwoDigits(h) + ":" + TwoDigits(m);
      DigitsAre(h);
      DigitsAre(m);
      assert s == [TwoDigits(h)[0], TwoDigits(h)[1], ':', TwoDigits(m)[0], TwoDigits(m)[1]];
    }
  }

  lemma {:induction false} DateIsDay(s: string)
    requires IsDate(s)
    ensures IsDay(s)
  {
    assert IsDigit(s[0]) && IsDigit(s[1]) && IsDigit(s[2]) && IsDigit(s[3]) && s[4] == '-';
    assert IsDigit(s[5]) && IsDigit(s[6]) && s[7] == '-' && IsDigit(s[8]) && IsDigit(s[9]);
    hide TwoDigits, IsDate;
    var a := DigitsReturn(s[0], s[1]);
    var b := DigitsReturn(s[2], s[3]);
    var m := DigitsReturn(s[5], s[6]);
    var d := DigitsReturn(s[8], s[9]);
    hide IsDigit;
    assert s == [s[0], s[1]] + [s[2], s[3]] + "-" + [s[5], s[6]] + "-" + [s[8], s[9]];
  }

  lemma {:induction false} WrittenIsDate(a: nat, b: nat, m: nat, d: nat)
    requires a < 100 && b < 100 && m < 100 && d < 100
    ensures IsDate(TwoDigits(a) + TwoDigits(b) + "-" + TwoDigits(m) + "-" + TwoDigits(d))
  {
    TwoAreDigits(a);
    TwoAreDigits(b);
    TwoAreDigits(m);
    TwoAreDigits(d);
    hide TwoDigits, IsDigit;
    var s := TwoDigits(a) + TwoDigits(b) + "-" + TwoDigits(m) + "-" + TwoDigits(d);
    assert s == [TwoDigits(a)[0], TwoDigits(a)[1], TwoDigits(b)[0], TwoDigits(b)[1], '-', TwoDigits(m)[0], TwoDigits(m)[1], '-',
                 TwoDigits(d)[0], TwoDigits(d)[1]];
  }

  lemma {:induction false} TwoAreDigits(n: nat)
    requires n < 100
    ensures IsDigit(TwoDigits(n)[0]) && IsDigit(TwoDigits(n)[1])
  {
    DigitsAre(n);
  }

  lemma {:induction false} DayExactly(s: string)
    ensures IsDate(s) <==> IsDay(s)
  {
    hide TwoDigits, IsDate;
    if IsDate(s) {
      DateIsDay(s);
    }
    if IsDay(s) {
      var a: nat, b: nat, m: nat, d: nat :|
        a < 100 && b < 100 && m < 100 && d < 100 && s == TwoDigits(a) + TwoDigits(b) + "-" + TwoDigits(m) + "-" + TwoDigits(d);
      WrittenIsDate(a, b, m, d);
    }
  }

  /** The day's short name. */
  function DayCode(day: string): Option<string> {
    if day == "MONDAY" then Some("MO") else if day == "TUESDAY" then Some("TU") else if day == "WEDNESDAY" then Some("WE")
    else if day == "THURSDAY" then Some("TH") else if day == "FRIDAY" then Some("FR") else if day == "SATURDAY" then Some("SA")
    else if day == "SUNDAY" then Some("SU") else None
  }

  function ReservationCode(s: string): Option<string> {
    if s == "RESERVATION" then Some("reservation") else if s == "RESERVATION_EXPIRES" then Some("reservation_expires") else None
  }

  function BookingCode(s: string): Option<string> {
    if s == "BOOKING" then Some("booking") else if s == "BOOKING_EXPIRES" then Some("booking_expires")
    else if s == "BOOKING_CANCELLATION_FEES" then Some("booking_cancellation_fees")
    else if s == "BOOKING_OVERTIME" then Some("booking_overtime") else None
  }

  /** The entries read are those listed, each once, in the order of their first listing. */
  ghost predicate ListsOnce(read: seq<string>, listed: seq<string>) {
    && (forall i, j :: 0 <= i < j < |read| ==> read[i] != read[j])
    && (forall x :: x in read <==> x in listed)
    && (forall i, j, k, l :: 0 <= i < j < |read| && IsFirst(listed, k, read[i]) && IsFirst(listed, l, read[j]) ==> k < l)
  }

  /** The entry first stands at `k`. */
  ghost predicate IsFirst(s: seq<string>, k: int, x: string) { 0 <= k < |s| && s[k] == x && x !in s[..k] }

  lemma {:induction false} DistinctListsOnce(s: seq<string>)
    ensures ListsOnce(Distinct(s), s)
  {
    if s != [] {
      var n := |s| - 1;
      var before := s[..n];
      DistinctListsOnce(before);
      assert s == before + [s[n]];
      forall k: int, x: string | IsFirst(s, k, x) && k < n ensures IsFirst(before, k, x) { assert before[..k] == s[..k]; }
      var read := Distinct(s);
      forall i, j, k, l | 0 <= i < j < |read| && IsFirst(s, k, read[i]) && IsFirst(s, l, read[j])
        ensures k < l
      {
        assert read[i] in Distinct(before) && read[i] in before;
      }
    }
  }

  ghost predicate AreDays(read: Option<seq<string>>, given: Option<seq<string>>) {
    if given.None? || given.value == [] then read.None?
    else read.Some? && exists codes: seq<string> :: IsCoded(codes, given.value) && ListsOnce(read.value, codes)
  }

  ghost predicate IsCoded(codes: seq<string>, days: seq<string>) {
    |codes| == |days| && forall i :: 0 <= i < |codes| ==> DayCode(days[i]) == Some(codes[i])
  }

  predicate IsBound(read: Option<real>, given: Option<Number>) {
    match given case Some(Finite(v)) => read == Some(v) case _ => read.None?
  }

  /** A maximum of 0 is none. */
  predicate IsMaximum(read: Option<real>, given: Option<Number>) {
    match given case Some(Finite(v)) => read == (if v == 0.0 then None else Some(v)) case _ => read.None?
  }

  predicate IsReadable(n: Option<Number>) { n.Some? ==> n.value.Finite? && n.value.value >= 0.0 }

  ghost predicate IsTimeOrUnset(v: Option<string>) { v.Some? ==> IsTime(v.value) }

  ghost predicate IsDayOrUnset(v: Option<string>) { v.Some? ==> IsDay(v.value) }

  predicate AreKnownDays(v: Option<seq<string>>) { v.Some? ==> forall day :: day in v.value ==> DayCode(day).Some? }

  function CodeOf(code: string -> Option<string>, v: Option<string>): Option<string> { if v.Some? then code(v.value) else None }

  predicate IsCodeOrUnset(code: string -> Option<string>, v: Option<string>) { v.Some? ==> code(v.value).Some? }

  /** Restrictions of which every one can be read. */
  ghost predicate AllReadable(r: Restrictions) {
    && r.unreadable == []
    && IsTimeOrUnset(r.startTime) && IsTimeOrUnset(r.endTime) && IsDayOrUnset(r.startDate) && IsDayOrUnset(r.endDate)
    && AreKnownDays(r.days)
    && IsReadable(r.minKwh) && IsReadable(r.maxKwh) && IsReadable(r.minCurrent) && IsReadable(r.maxCurrent)
    && IsReadable(r.minPower) && IsReadable(r.maxPower) && IsReadable(r.minDuration) && IsReadable(r.maxDuration)
    && IsCodeOrUnset(ReservationCode, r.reservation) && IsCodeOrUnset(BookingCode, r.booking)
  }

  /** Limits that are the restrictions, each in its own field. */
  ghost predicate AreLimits(l: Limits, r: Restrictions) {
    && l.startTime == r.startTime && l.endTime == r.endTime && l.startDate == r.startDate && l.endDate == r.endDate
    && AreDays(l.days, r.days)
    && IsBound(l.minKwh, r.minKwh) && IsMaximum(l.maxKwh, r.maxKwh)
    && IsBound(l.minCurrent, r.minCurrent) && IsMaximum(l.maxCurrent, r.maxCurrent)
    && IsBound(l.minPower, r.minPower) && IsMaximum(l.maxPower, r.maxPower)
    && IsBound(l.minDuration, r.minDuration) && IsMaximum(l.maxDuration, r.maxDuration)
    && l.reservation == CodeOf(ReservationCode, r.reservation) && l.booking == CodeOf(BookingCode, r.booking)
  }

  lemma {:induction false} TimeRead(v: Option<string>)
    ensures !Pattern(v, IsClock).Unreadable? <==> IsTimeOrUnset(v)
    ensures !Pattern(v, IsClock).Unreadable? ==> OptionOf(Pattern(v, IsClock)) == v
  {
    if v.Some? { TimeExactly(v.value); }
    hide IsClock, IsTime;
  }

  lemma {:induction false} DateRead(v: Option<string>)
    ensures !Pattern(v, IsDate).Unreadable? <==> IsDayOrUnset(v)
    ensures !Pattern(v, IsDate).Unreadable? ==> OptionOf(Pattern(v, IsDate)) == v
  {
    if v.Some? { DayExactly(v.value); }
    hide IsDate, IsDay;
  }

  lemma {:induction false} BoundRead(min: Option<Number>, max: Option<Number>)
    ensures !Min(min).Unreadable? <==> IsReadable(min)
    ensures !Min(min).Unreadable? ==> IsBound(OptionOf(Min(min)), min)
    ensures !Max(max).Unreadable? <==> IsReadable(max)
    ensures !Max(max).Unreadable? ==> IsMaximum(OptionOf(Max(max)), max)
  {
  }

  lemma {:induction false} DayCodes(day: string)
    ensures day in DAYS <==> DayCode(day).Some?
    ensures day in DAYS ==> DayCode(day) == Some(DAYS[day])
  {
  }

  lemma {:induction false} DaysRead(days: Option<seq<string>>)
    ensures !Days(days).Unreadable? <==> AreKnownDays(days)
    ensures !Days(days).Unreadable? ==> AreDays(OptionOf(Days(days)), days)
  {
    forall day ensures (day in DAYS <==> DayCode(day).Some?) && (day in DAYS ==> DayCode(day) == Some(DAYS[day])) { DayCodes(day); }
    if days.Some? && days.value != [] && !Days(days).Unreadable? {
      var codes := seq(|days.value|, i requires 0 <= i < |days.value| => if days.value[i] in DAYS then DAYS[days.value[i]] else "");
      hide DayCode;
      DistinctListsOnce(codes);
      assert IsCoded(codes, days.value);
    }
    hide ListsOnce, DayCode;
  }

  lemma {:induction false} NamedRead(reservation: Option<string>, booking: Option<string>)
    ensures !Named(RESERVATIONS, reservation).Unreadable? <==> IsCodeOrUnset(ReservationCode, reservation)
    ensures OptionOf(Named(RESERVATIONS, reservation)) == CodeOf(ReservationCode, reservation)
    ensures !Named(BOOKINGS, booking).Unreadable? <==> IsCodeOrUnset(BookingCode, booking)
    ensures OptionOf(Named(BOOKINGS, booking)) == CodeOf(BookingCode, booking)
  {
  }

  /** Restrictions are read exactly if each of them can be, and each then stands in its own field. */
  lemma {:induction false} LimitsExactly(r: Restrictions)
    ensures RestrictionsOf(Some(r)).Some? <==> AllReadable(r)
    ensures RestrictionsOf(Some(r)).Some? ==> AreLimits(RestrictionsOf(Some(r)).value, r)
  {
    TimeRead(r.startTime);
    TimeRead(r.endTime);
    DateRead(r.startDate);
    DateRead(r.endDate);
    DaysRead(r.days);
    BoundRead(r.minKwh, r.maxKwh);
    BoundRead(r.minCurrent, r.maxCurrent);
    BoundRead(r.minPower, r.maxPower);
    BoundRead(r.minDuration, r.maxDuration);
    NamedRead(r.reservation, r.booking);
    hide Pattern, IsClock, IsDate, Days, Min, Max, Named, OptionOf, IsTimeOrUnset, IsDayOrUnset, AreKnownDays, IsCodeOrUnset, CodeOf, AreDays, IsBound, IsMaximum,
      IsReadable;
  }

  // --- the offer ---

  /** An element that prices something, as an offer must state it. */
  predicate IsPriced(e: Element) { exists c :: c in e.components && HasPrice(c) }

  function PricedOf(cs: seq<Published>): seq<Published> {
    if cs == [] then [] else PricedOf(cs[..|cs| - 1]) + if HasPrice(cs[|cs| - 1]) then [cs[|cs| - 1]] else []
  }

  function Stated(elements: seq<Element>): seq<Element> {
    if elements == [] then []
    else Stated(elements[..|elements| - 1]) + if IsPriced(elements[|elements| - 1]) then [elements[|elements| - 1]] else []
  }

  /** The offered element states the published one: its priced components in order, and its restrictions. */
  ghost predicate States(o: Offered, e: Element, money: real -> string) {
    && AreOffers(o.components, PricedOf(e.components), money)
    && (if e.restrictions.None? then o.limits == UNLIMITED else AreLimits(o.limits, e.restrictions.value))
  }

  ghost predicate AreOffers(os: seq<Component>, cs: seq<Published>, money: real -> string) {
    |os| == |cs| && forall i :: 0 <= i < |os| ==> IsOfferOf(os[i], cs[i], money)
  }

  ghost predicate StateAll(offered: seq<Offered>, elements: seq<Element>, money: real -> string) {
    |offered| == |elements| && forall i :: 0 <= i < |offered| ==> States(offered[i], elements[i], money)
  }

  lemma {:induction false} ComponentsAreOffers(cs: seq<Published>, money: real -> string)
    ensures AreOffers(ComponentsOf(cs, money), PricedOf(cs), money)
    ensures ComponentsOf(cs, money) == [] <==> !exists c :: c in cs && HasPrice(c)
  {
    if cs != [] {
      var n := |cs| - 1;
      assert cs == cs[..n] + [cs[n]];
      ComponentsAreOffers(cs[..n], money);
      PricedExactly(cs[n]);
      if Prices(cs[n]) { ComponentIsOffer(cs[n], money); }
      hide Prices, HasPrice, IsOfferOf, ComponentOf;
    }
  }

  ghost predicate IsOffered(e: Element) { IsPriced(e) ==> e.restrictions.None? || AllReadable(e.restrictions.value) }

  lemma {:induction false} LastOffer(e: Element, money: real -> string)
    ensures ComponentsOf(e.components, money) != [] <==> IsPriced(e)
    ensures IsPriced(e) ==> (RestrictionsOf(e.restrictions).Some? <==> IsOffered(e))
    ensures IsPriced(e) && IsOffered(e) ==> States(Offered(ComponentsOf(e.components, money), RestrictionsOf(e.restrictions).value), e, money)
  {
    ComponentsAreOffers(e.components, money);
    if e.restrictions.Some? {
      LimitsExactly(e.restrictions.value);
      assert e.restrictions == Some(e.restrictions.value);
    }
    hide ComponentsOf, AllReadable, AreLimits, AreOffers, PricedOf, HasPrice, AnyUnreadable;
  }

  /** An offer is made exactly if every element that prices something has readable restrictions, and
      it then states those elements, in order, and nothing else. */
  lemma {:induction false} OfferStates(elements: seq<Element>, money: real -> string)
    ensures ElementsFrom(elements, money).Some? <==> forall e :: e in elements ==> IsOffered(e)
    ensures ElementsFrom(elements, money).Some? ==> StateAll(ElementsFrom(elements, money).value, Stated(elements), money)
  {
    hide ComponentsOf, RestrictionsOf, IsPriced, IsOffered, States;
    if elements != [] {
      var n := |elements| - 1;
      assert elements == elements[..n] + [elements[n]];
      OfferStates(elements[..n], money);
      LastOffer(elements[n], money);
      assert !IsPriced(elements[n]) ==> IsOffered(elements[n]) by { UnpricedIsOffered(elements[n]); }
    }
  }

  lemma {:induction false} UnpricedIsOffered(e: Element)
    ensures !IsPriced(e) ==> IsOffered(e)
  {
    hide AllReadable;
  }
}
