/** A published charging tariff and the offer made of it: its elements in order, or
    none at all. What a session pays for a dimension is looked up from the top of the
    list, passing over elements that price nothing of it or leave the session out
    (section 11 of OCPI 2.2.1). How times, dates and decimals are written, and when
    two of them agree, is left abstract. */
module Tariff {
  import opened Basics

  // --- a tariff as published ---

  /** A number as the decoder leaves it: finite, or not a finite number at all. */
  datatype Number = Finite(value: real) | NotFinite

  datatype Published = Published(type_: string, price: Number, vat: Option<Number>, step: Option<Number>)

  datatype Restrictions = Restrictions(
    unreadable: seq<string>,
    startTime: Option<string>,
    endTime: Option<string>,
    startDate: Option<string>,
    endDate: Option<string>,
    days: Option<seq<string>>,
    minKwh: Option<Number>,
    maxKwh: Option<Number>,
    minCurrent: Option<Number>,
    maxCurrent: Option<Number>,
    minPower: Option<Number>,
    maxPower: Option<Number>,
    minDuration: Option<Number>,
    maxDuration: Option<Number>,
    reservation: Option<string>,
    booking: Option<string>)

  datatype Element = Element(components: seq<Published>, restrictions: Option<Restrictions>)

  // --- an offer's elements ---

  datatype Dimension = Energy | Flat | ParkingTime | Time

  datatype Component = Component(dimension: Dimension, amount: string, vat: Option<real>, step: Option<int>, unit_: Option<string>)

  datatype Limits = Limits(
    startTime: Option<string>,
    endTime: Option<string>,
    startDate: Option<string>,
    endDate: Option<string>,
    days: Option<seq<string>>,
    minKwh: Option<real>,
    maxKwh: Option<real>,
    minCurrent: Option<real>,
    maxCurrent: Option<real>,
    minPower: Option<real>,
    maxPower: Option<real>,
    minDuration: Option<real>,
    maxDuration: Option<real>,
    reservation: Option<string>,
    booking: Option<string>)

  datatype Offered = Offered(components: seq<Component>, limits: Limits)

  const UNLIMITED := Limits(None, None, None, None, None, None, None, None, None, None, None, None, None, None, None)

  // --- reading the restrictions ---

  /** A value read as unset, as itself, or not at all. */
  datatype Read<+T> = Unset | Set(value: T) | Unreadable

  function OptionOf<T>(r: Read<T>): Option<T> { if r.Set? then Some(r.value) else None }

  predicate IsDigit(c: char) { '0' <= c <= '9' }

  /** `HH:MM` from 00:00 to 23:59. */
  predicate IsClock(s: string) {
    && |s| == 5 && IsDigit(s[0]) && IsDigit(s[1]) && s[2] == ':' && IsDigit(s[3]) && IsDigit(s[4])
    && s[3] <= '5' && (s[0] <= '1' || (s[0] == '2' && s[1] <= '3'))
  }

  /** `YYYY-MM-DD`, digits and hyphens. */
  predicate IsDate(s: string) {
    |s| == 10 && forall i :: 0 <= i < 10 ==> if i == 4 || i == 7 then s[i] == '-' else IsDigit(s[i])
  }

  function Pattern(v: Option<string>, fits: string -> bool): Read<string> {
    if v.None? then Unset else if fits(v.value) then Set(v.value) else Unreadable
  }

  function Min(n: Option<Number>): Read<real> {
    if n.None? then Unset else if n.value.Finite? && 0.0 <= n.value.value then Set(n.value.value) else Unreadable
  }

  /** A maximum of 0 is read as unset. */
  function Max(n: Option<Number>): Read<real> {
    if n == Some(Finite(0.0)) then Unset else Min(n)
  }

  const DAYS := map["MONDAY" := "MO", "TUESDAY" := "TU", "WEDNESDAY" := "WE", "THURSDAY" := "TH", "FRIDAY" := "FR",
                    "SATURDAY" := "SA", "SUNDAY" := "SU"]
  const RESERVATIONS := map["RESERVATION" := "reservation", "RESERVATION_EXPIRES" := "reservation_expires"]
  const BOOKINGS := map["BOOKING" := "booking", "BOOKING_EXPIRES" := "booking_expires",
                        "BOOKING_CANCELLATION_FEES" := "booking_cancellation_fees", "BOOKING_OVERTIME" := "booking_overtime"]
  const DIMENSIONS := map["ENERGY" := Energy, "FLAT" := Flat, "PARKING_TIME" := ParkingTime, "TIME" := Time]

  function Named(table: map<string, string>, v: Option<string>): Read<string> {
    if v.None? then Unset else if v.value in table then Set(table[v.value]) else Unreadable
  }

  /** The days without repeats, in the order first named. */
  function Distinct(s: seq<string>): seq<string> {
    if s == [] then []
    else
      var n := |s| - 1;
      if s[n] in s[..n] then Distinct(s[..n]) else Distinct(s[..n]) + [s[n]]
  }

  function Days(v: Option<seq<string>>): Read<seq<string>> {
    if v.None? || v.value == [] then Unset
    else if forall d :: d in v.value ==> d in DAYS
    then Set(Distinct(seq(|v.value|, i requires 0 <= i < |v.value| => if v.value[i] in DAYS then DAYS[v.value[i]] else "")))
    else Unreadable
  }

  predicate AnyUnreadable(r: Restrictions) {
    || r.unreadable != []
    || Pattern(r.startTime, IsClock).Unreadable? || Pattern(r.endTime, IsClock).Unreadable?
    || Pattern(r.startDate, IsDate).Unreadable? || Pattern(r.endDate, IsDate).Unreadable?
    || Days(r.days).Unreadable?
    || Min(r.minKwh).Unreadable? || Max(r.maxKwh).Unreadable?
    || Min(r.minCurrent).Unreadable? || Max(r.maxCurrent).Unreadable?
    || Min(r.minPower).Unreadable? || Max(r.maxPower).Unreadable?
    || Min(r.minDuration).Unreadable? || Max(r.maxDuration).Unreadable?
    || Named(RESERVATIONS, r.reservation).Unreadable? || Named(BOOKINGS, r.booking).Unreadable?
  }

  function RestrictionsOf(r: Option<Restrictions>): Option<Limits> {
    if r.None? then Some(UNLIMITED)
    else if AnyUnreadable(r.value) then None
    else
      var r := r.value;
      Some(Limits(
        OptionOf(Pattern(r.startTime, IsClock)), OptionOf(Pattern(r.endTime, IsClock)),
        OptionOf(Pattern(r.startDate, IsDate)), OptionOf(Pattern(r.endDate, IsDate)),
        OptionOf(Days(r.days)),
        OptionOf(Min(r.minKwh)), OptionOf(Max(r.maxKwh)),
        OptionOf(Min(r.minCurrent)), OptionOf(Max(r.maxCurrent)),
        OptionOf(Min(r.minPower)), OptionOf(Max(r.maxPower)),
        OptionOf(Min(r.minDuration)), OptionOf(Max(r.maxDuration)),
        OptionOf(Named(RESERVATIONS, r.reservation)), OptionOf(Named(BOOKINGS, r.booking))))
  }

  // --- the elements ---

  predicate Prices(c: Published) {
    c.type_ in DIMENSIONS && c.price.Finite? && 0.0 <= c.price.value
  }

  function ComponentOf(c: Published, money: real -> string): Component
    requires Prices(c)
  {
    var dimension := DIMENSIONS[c.type_];
    Component(
      dimension,
      money(c.price.value),
      if c.vat.Some? && c.vat.value.Finite? && 0.0 <= c.vat.value.value <= 100.0 then Some(c.vat.value.value) else None,
      if c.step.Some? && c.step.value.Finite? && IsSafeStep(c.step.value.value) then Some(c.step.value.value.Floor) else None,
      match dimension case Energy => Some("kW.h") case Time => Some("h") case ParkingTime => Some("h") case Flat => None)
  }

  /** A whole number above 0 that a double still counts exactly. */
  predicate IsSafeStep(v: real) { 0.0 < v <= 9007199254740991.0 && v.Floor as real == v }

  function ComponentsOf(cs: seq<Published>, money: real -> string): seq<Component> {
    if cs == [] then []
    else
      var n := |cs| - 1;
      ComponentsOf(cs[..n], money) + if Prices(cs[n]) then [ComponentOf(cs[n], money)] else []
  }

  /** The elements that price something known, or none at all if one of them is restricted in a way that cannot be read. */
  function ElementsFrom(elements: seq<Element>, money: real -> string): Option<seq<Offered>> {
    if elements == [] then Some([])
    else
      var n := |elements| - 1;
      var (before, components) := (ElementsFrom(elements[..n], money), ComponentsOf(elements[n].components, money));
      if before.None? || components == [] then before
      else
        var limits := RestrictionsOf(elements[n].restrictions);
        if limits.None? then None else Some(before.value + [Offered(components, limits.value)])
  }

  method ElementsOf(elements: seq<Element>, money: real -> string) returns (offered: Option<seq<Offered>>)
    ensures offered == ElementsFrom(elements, money)
  {
    var kept: seq<Offered> := [];
    for i := 0 to |elements|
      invariant ElementsFrom(elements[..i], money) == Some(kept)
    {
      assert elements[..i + 1][..i] == elements[..i];
      var components := ComponentsOf(elements[i].components, money);
      if components != [] {
        var limits := RestrictionsOf(elements[i].restrictions);
        if limits.None? {
          NeverAgain(elements, i + 1, money);
          return None;
        }
        kept := kept + [Offered(components, limits.value)];
      }
    }
    assert elements[..|elements|] == elements;
    offered := Some(kept);
  }

  lemma {:induction false} NeverAgain(elements: seq<Element>, i: nat, money: real -> string)
    requires i <= |elements| && ElementsFrom(elements[..i], money).None?
    ensures ElementsFrom(elements, money).None?
    decreases |elements|
  {
    if i < |elements| {
      var n := |elements| - 1;
      assert elements[..n][..i] == elements[..i];
      NeverAgain(elements[..n], i, money);
    } else {
      assert elements[..i] == elements;
    }
  }

  // --- what a session pays ---

  /** What a price lookup knows of a session: whether a pair of times or dates takes
      it in, its day, what it measured, and what of a reservation or booking is priced. */
  datatype Session = Session(
    inHours: (Option<string>, Option<string>) -> bool,
    inDates: (Option<string>, Option<string>) -> bool,
    day: string,
    kwh: real,
    current: real,
    power: real,
    duration: real,
    reservation: Option<string>,
    booking: Option<string>)
  {
    predicate Valid() {
      && day in DAYS
      && (reservation.Some? ==> reservation.value in RESERVATIONS)
      && (booking.Some? ==> booking.value in BOOKINGS)
    }
  }

  predicate AtLeast(min: Option<Number>, v: real) { min.Some? && min.value.Finite? ==> min.value.value <= v }

  /** Below a maximum; with `amended`, one of 0 is no maximum. */
  predicate Below(max: Option<Number>, v: real, amended: bool) {
    max.Some? && max.value.Finite? && !(amended && max.value.value == 0.0) ==> v < max.value.value
  }

  /** Whether an element's published restrictions match a session. */
  predicate Applies(o: Option<Restrictions>, s: Session, amended: bool) {
    if o.None? then s.inHours(None, None) && s.inDates(None, None) && s.reservation.None? && s.booking.None?
    else
      var r := o.value;
      && s.inHours(r.startTime, r.endTime) && s.inDates(r.startDate, r.endDate)
      && (r.days.None? || r.days.value == [] || s.day in r.days.value)
      && AtLeast(r.minKwh, s.kwh) && Below(r.maxKwh, s.kwh, amended)
      && AtLeast(r.minCurrent, s.current) && Below(r.maxCurrent, s.current, amended)
      && AtLeast(r.minPower, s.power) && Below(r.maxPower, s.power, amended)
      && AtLeast(r.minDuration, s.duration) && Below(r.maxDuration, s.duration, amended)
      && s.reservation == r.reservation && s.booking == r.booking
  }

  predicate InDimension(c: Published, d: Dimension, amended: bool) {
    c.type_ in DIMENSIONS && DIMENSIONS[c.type_] == d && (amended ==> Prices(c))
  }

  function FirstOf(cs: seq<Published>, d: Dimension, amended: bool): (r: Option<Published>)
    ensures r.Some? ==> InDimension(r.value, d, amended)
  {
    if cs == [] then None else if InDimension(cs[0], d, amended) then Some(cs[0]) else FirstOf(cs[1..], d, amended)
  }

  /** The published component that prices a dimension of a session; with `amended`,
      components no element keeps and maxima of 0 are passed over. */
  function Lookup(elements: seq<Element>, s: Session, d: Dimension, amended: bool): (r: Option<Published>)
    ensures r.Some? ==> InDimension(r.value, d, amended)
  {
    if elements == [] then None
    else
      var found := FirstOf(elements[0].components, d, amended);
      if found.Some? && Applies(elements[0].restrictions, s, amended) then found else Lookup(elements[1..], s, d, amended)
  }

  /** A component and the element, by its place in the list, that prices with it. */
  datatype Priced = Priced(element: nat, component: Published)

  /** What a lookup prices with, and where it stands. */
  function Pricing(elements: seq<Element>, s: Session, d: Dimension, amended: bool): (r: Option<Priced>)
    ensures r.Some? ==> r.value.element < |elements| && InDimension(r.value.component, d, amended)
  {
    if elements == [] then None
    else
      var found := FirstOf(elements[0].components, d, amended);
      if found.Some? && Applies(elements[0].restrictions, s, amended) then Some(Priced(0, found.value))
      else match Pricing(elements[1..], s, d, amended)
        case None => None
        case Some(p) => Some(Priced(p.element + 1, p.component))
  }

  function Code(table: map<string, string>, v: Option<string>): Option<string> {
    if v.Some? && v.value in table then Some(table[v.value]) else None
  }

  predicate Fits(l: Limits, s: Session) {
    && s.inHours(l.startTime, l.endTime) && s.inDates(l.startDate, l.endDate)
    && (l.days.None? || (s.day in DAYS && DAYS[s.day] in l.days.value))
    && (l.minKwh.Some? ==> l.minKwh.value <= s.kwh) && (l.maxKwh.Some? ==> s.kwh < l.maxKwh.value)
    && (l.minCurrent.Some? ==> l.minCurrent.value <= s.current) && (l.maxCurrent.Some? ==> s.current < l.maxCurrent.value)
    && (l.minPower.Some? ==> l.minPower.value <= s.power) && (l.maxPower.Some? ==> s.power < l.maxPower.value)
    && (l.minDuration.Some? ==> l.minDuration.value <= s.duration) && (l.maxDuration.Some? ==> s.duration < l.maxDuration.value)
    && l.reservation == Code(RESERVATIONS, s.reservation) && l.booking == Code(BOOKINGS, s.booking)
  }

  function FirstOffered(cs: seq<Component>, d: Dimension): Option<Component> {
    if cs == [] then None else if cs[0].dimension == d then Some(cs[0]) else FirstOffered(cs[1..], d)
  }

  /** The offered component that prices a dimension of a session. */
  function OfferedLookup(offered: seq<Offered>, s: Session, d: Dimension): Option<Component> {
    if offered == [] then None
    else
      var found := FirstOffered(offered[0].components, d);
      if found.Some? && Fits(offered[0].limits, s) then found else OfferedLookup(offered[1..], s, d)
  }
}
