/** The kept elements of a tariff price every session as the published list does. */
module TariffLaws {
  import opened Basics
  import opened Tariff

  // --- restrictions keep their meaning ---

  lemma {:induction false} DistinctKeeps(s: seq<string>)
    ensures forall x :: x in Distinct(s) <==> x in s
  {
    if s != [] {
      var n := |s| - 1;
      DistinctKeeps(s[..n]);
      assert s == s[..n] + [s[n]];
    }
  }

  lemma {:induction false} DaysMeanTheSame(days: Option<seq<string>>, day: string)
    requires day in DAYS && !Days(days).Unreadable?
    ensures var read := OptionOf(Days(days));
      (read.None? || DAYS[day] in read.value) <==> (days.None? || days.value == [] || day in days.value)
  {
    if days.Some? && days.value != [] {
      var codes := seq(|days.value|, i requires 0 <= i < |days.value| => if days.value[i] in DAYS then DAYS[days.value[i]] else "");
      DistinctKeeps(codes);
      if day in days.value {
        var i :| 0 <= i < |days.value| && days.value[i] == day;
        assert codes[i] == DAYS[day];
      }
      if DAYS[day] in codes {
        var i :| 0 <= i < |codes| && codes[i] == DAYS[day];
        DayCodesDiffer(days.value[i], day);
      }
    }
  }

  lemma {:induction false} DayCodesDiffer(a: string, b: string)
    requires a in DAYS && b in DAYS && DAYS[a] == DAYS[b]
    ensures a == b
  {
  }

  lemma {:induction false} ReservationsMeanTheSame(v: Option<string>, asked: Option<string>)
    requires !Named(RESERVATIONS, v).Unreadable? && (asked.Some? ==> asked.value in RESERVATIONS)
    ensures OptionOf(Named(RESERVATIONS, v)) == Code(RESERVATIONS, asked) <==> asked == v
  {
  }

  lemma {:induction false} BookingsMeanTheSame(v: Option<string>, asked: Option<string>)
    requires !Named(BOOKINGS, v).Unreadable? && (asked.Some? ==> asked.value in BOOKINGS)
    ensures OptionOf(Named(BOOKINGS, v)) == Code(BOOKINGS, asked) <==> asked == v
  {
  }

  lemma {:induction false} PatternKeeps(v: Option<string>, fits: string -> bool)
    requires !Pattern(v, fits).Unreadable?
    ensures OptionOf(Pattern(v, fits)) == v
  {
  }

  lemma {:induction false} BoundsMeanTheSame(min: Option<Number>, max: Option<Number>, v: real)
    requires !Min(min).Unreadable? && !Max(max).Unreadable?
    ensures (OptionOf(Min(min)).Some? ==> OptionOf(Min(min)).value <= v) <==> AtLeast(min, v)
    ensures (OptionOf(Max(max)).Some? ==> v < OptionOf(Max(max)).value) <==> Below(max, v, true)
  {
  }

  lemma {:induction false} ReadRestrictions(r: Option<Restrictions>, s: Session)
    requires s.Valid() && RestrictionsOf(r).Some?
    ensures Fits(RestrictionsOf(r).value, s) <==> Applies(r, s, true)
  {
    hide Days, Named, Code, IsClock, IsDate, Pattern, Min, Max, AtLeast, Below, OptionOf;
    if r.Some? {
      var r := r.value;
      DaysMeanTheSame(r.days, s.day);
      ReservationsMeanTheSame(r.reservation, s.reservation);
      BookingsMeanTheSame(r.booking, s.booking);
      PatternKeeps(r.startTime, IsClock);
      PatternKeeps(r.endTime, IsClock);
      PatternKeeps(r.startDate, IsDate);
      PatternKeeps(r.endDate, IsDate);
      BoundsMeanTheSame(r.minKwh, r.maxKwh, s.kwh);
      BoundsMeanTheSame(r.minCurrent, r.maxCurrent, s.current);
      BoundsMeanTheSame(r.minPower, r.maxPower, s.power);
      BoundsMeanTheSame(r.minDuration, r.maxDuration, s.duration);
    } else {
      UnsetReads();
      ReservationsMeanTheSame(None, s.reservation);
      BookingsMeanTheSame(None, s.booking);
    }
  }

  lemma {:induction false} UnsetReads()
    ensures !Named(RESERVATIONS, None).Unreadable? && OptionOf(Named(RESERVATIONS, None)).None?
    ensures !Named(BOOKINGS, None).Unreadable? && OptionOf(Named(BOOKINGS, None)).None?
  {
  }

  // --- components keep their order ---

  function Converted(c: Option<Published>, money: real -> string): Option<Component>
    requires c.Some? ==> Prices(c.value)
  {
    if c.None? then None else Some(ComponentOf(c.value, money))
  }

  lemma {:induction false} FirstOfAppended(cs: seq<Published>, c: Published, d: Dimension, amended: bool)
    ensures FirstOf(cs + [c], d, amended)
         == if FirstOf(cs, d, amended).Some? then FirstOf(cs, d, amended) else if InDimension(c, d, amended) then Some(c) else None
  {
    if cs != [] {
      assert (cs + [c])[1..] == cs[1..] + [c];
      FirstOfAppended(cs[1..], c, d, amended);
    }
  }

  lemma {:induction false} FirstOfferedAppended(cs: seq<Component>, c: Component, d: Dimension)
    ensures FirstOffered(cs + [c], d)
         == if FirstOffered(cs, d).Some? then FirstOffered(cs, d) else if c.dimension == d then Some(c) else None
  {
    if cs != [] {
      assert (cs + [c])[1..] == cs[1..] + [c];
      FirstOfferedAppended(cs[1..], c, d);
    }
  }

  lemma {:induction false} ComponentsKeepFirst(cs: seq<Published>, d: Dimension, money: real -> string)
    ensures FirstOffered(ComponentsOf(cs, money), d) == Converted(FirstOf(cs, d, true), money)
  {
    if cs != [] {
      var n := |cs| - 1;
      assert cs == cs[..n] + [cs[n]];
      ComponentsKeepFirst(cs[..n], d, money);
      FirstOfAppended(cs[..n], cs[n], d, true);
      assert !Prices(cs[n]) ==> ComponentsOf(cs, money) == ComponentsOf(cs[..n], money);
      if Prices(cs[n]) {
        FirstOfferedAppended(ComponentsOf(cs[..n], money), ComponentOf(cs[n], money), d);
      }
    }
  }

  // --- elements keep their order ---

  lemma {:induction false} LookupAppended(elements: seq<Element>, e: Element, s: Session, d: Dimension, amended: bool)
    ensures Lookup(elements + [e], s, d, amended)
         == if Lookup(elements, s, d, amended).Some? then Lookup(elements, s, d, amended)
            else if Applies(e.restrictions, s, amended) then FirstOf(e.components, d, amended) else None
  {
    if elements != [] {
      assert (elements + [e])[1..] == elements[1..] + [e];
      LookupAppended(elements[1..], e, s, d, amended);
    } else {
      assert Lookup([e][1..], s, d, amended) == None;
    }
  }

  lemma {:induction false} OfferedAppended(offered: seq<Offered>, o: Offered, s: Session, d: Dimension)
    ensures OfferedLookup(offered + [o], s, d)
         == if OfferedLookup(offered, s, d).Some? then OfferedLookup(offered, s, d)
            else if Fits(o.limits, s) then FirstOffered(o.components, d) else None
  {
    if offered != [] {
      assert (offered + [o])[1..] == offered[1..] + [o];
      OfferedAppended(offered[1..], o, s, d);
    } else {
      assert OfferedLookup([o][1..], s, d) == None;
    }
  }

  /** The kept elements price every dimension of every session with the component the
      published list prices it with, maxima of 0 and prices that are none passed over. */
  lemma {:induction false} PricingIsAmended(elements: seq<Element>, s: Session, d: Dimension, money: real -> string)
    requires s.Valid() && ElementsFrom(elements, money).Some?
    ensures OfferedLookup(ElementsFrom(elements, money).value, s, d) == Converted(Lookup(elements, s, d, true), money)
  {
    if elements != [] {
      var n := |elements| - 1;
      var e := elements[n];
      assert elements == elements[..n] + [e];
      PricingIsAmended(elements[..n], s, d, money);
      LookupAppended(elements[..n], e, s, d, true);
      ComponentsKeepFirst(e.components, d, money);
      if ComponentsOf(e.components, money) != [] {
        ReadRestrictions(e.restrictions, s);
        OfferedAppended(ElementsFrom(elements[..n], money).value,
          Offered(ComponentsOf(e.components, money), RestrictionsOf(e.restrictions).value), s, d);
      }
    }
  }

  // --- when an offer prices as published ---

  predicate ExcludedByZero(max: Option<Number>, v: real) { max == Some(Finite(0.0)) && 0.0 <= v }

  /** Whether a maximum of 0 keeps an element from a session, as any does that measured nothing negative. */
  predicate ZeroMaximumExcludes(e: Element, s: Session) {
    && e.restrictions.Some?
    && var r := e.restrictions.value;
       || ExcludedByZero(r.maxKwh, s.kwh) || ExcludedByZero(r.maxCurrent, s.current)
       || ExcludedByZero(r.maxPower, s.power) || ExcludedByZero(r.maxDuration, s.duration)
  }

  lemma {:induction false} BelowExactly(max: Option<Number>, v: real)
    ensures Below(max, v, false) <==> Below(max, v, true) && !ExcludedByZero(max, v)
  {
  }

  lemma {:induction false} AppliesExactly(e: Element, s: Session)
    ensures Applies(e.restrictions, s, false) <==> Applies(e.restrictions, s, true) && !ZeroMaximumExcludes(e, s)
  {
    if e.restrictions.Some? {
      var r := e.restrictions.value;
      BelowExactly(r.maxKwh, s.kwh);
      BelowExactly(r.maxCurrent, s.current);
      BelowExactly(r.maxPower, s.power);
      BelowExactly(r.maxDuration, s.duration);
      hide Below, ExcludedByZero, AtLeast;
    }
  }

  lemma {:induction false} FirstExactly(cs: seq<Published>, d: Dimension)
    ensures FirstOf(cs, d, true).Some? ==> FirstOf(cs, d, false).Some?
    ensures FirstOf(cs, d, false).Some? && Prices(FirstOf(cs, d, false).value) ==> FirstOf(cs, d, true) == FirstOf(cs, d, false)
  {
    hide Prices;
    if cs != [] { FirstExactly(cs[1..], d); }
  }

  lemma {:induction false} PricingIsLookup(elements: seq<Element>, s: Session, d: Dimension, amended: bool)
    ensures var p := Pricing(elements, s, d, amended);
      Lookup(elements, s, d, amended) == if p.Some? then Some(p.value.component) else None
  {
    hide Applies, FirstOf;
    if elements != [] { PricingIsLookup(elements[1..], s, d, amended); }
  }

  /** The element that prices a session as read is the one that does as published, with
      the same component, exactly if no maximum of 0 keeps the element found as read from
      the session, and the component found as published has a price. */
  lemma {:induction false} PricingExactly(elements: seq<Element>, s: Session, d: Dimension)
    ensures var (read, published) := (Pricing(elements, s, d, true), Pricing(elements, s, d, false));
      read == published
      <==> (read.Some? ==> !ZeroMaximumExcludes(elements[read.value.element], s)) && (published.Some? ==> Prices(published.value.component))
  {
    hide Applies, FirstOf, ZeroMaximumExcludes, Prices;
    if elements != [] {
      FirstExactly(elements[0].components, d);
      AppliesExactly(elements[0], s);
      PricingExactly(elements[1..], s, d);
    }
  }

  /** What an offer prices a session with is what its tariff, as read, does; and that is
      the element and the component the tariff as published prices it with exactly if no
      maximum of 0 keeps that element from the session, and the published component has a price. */
  lemma {:induction false} PricingIsPreserved(elements: seq<Element>, s: Session, d: Dimension, money: real -> string)
    requires s.Valid() && ElementsFrom(elements, money).Some?
    ensures var (read, published) := (Pricing(elements, s, d, true), Pricing(elements, s, d, false));
      && OfferedLookup(ElementsFrom(elements, money).value, s, d)
           == (if read.Some? then Some(ComponentOf(read.value.component, money)) else None)
      && (read == published
          <==> (read.Some? ==> !ZeroMaximumExcludes(elements[read.value.element], s)) && (published.Some? ==> Prices(published.value.component)))
  {
    PricingIsAmended(elements, s, d, money);
    PricingIsLookup(elements, s, d, true);
    PricingExactly(elements, s, d);
    hide OfferedLookup, ElementsFrom, Lookup, Pricing, ZeroMaximumExcludes;
  }

  lemma {:induction false} KeepsSome(cs: seq<Published>, money: real -> string)
    ensures ComponentsOf(cs, money) != [] <==> exists c :: c in cs && Prices(c)
  {
    if cs != [] {
      var n := |cs| - 1;
      assert cs == cs[..n] + [cs[n]];
      KeepsSome(cs[..n], money);
    }
  }

  predicate Unreadably(e: Element) { (exists c :: c in e.components && Prices(c)) && RestrictionsOf(e.restrictions).None? }

  /** No offer states a tariff exactly when one of its priced elements has restrictions that cannot be read. */
  lemma {:induction false} UnreadableExactly(elements: seq<Element>, money: real -> string)
    ensures ElementsFrom(elements, money).None? <==> exists e :: e in elements && Unreadably(e)
  {
    if elements != [] {
      var n := |elements| - 1;
      assert elements == elements[..n] + [elements[n]];
      UnreadableExactly(elements[..n], money);
      KeepsSome(elements[n].components, money);
      if e :| e in elements && Unreadably(e) {
        assert e in elements[..n] || e == elements[n];
      }
      if e :| e in elements[..n] && Unreadably(e) {
        assert e in elements;
      }
      if Unreadably(elements[n]) {
        assert elements[n] in elements;
      }
    }
  }

  const NO_LIMITS := Restrictions([], None, None, None, None, None, None, None, None, None, None, None, None, None, None, None)

  /** A maximum of 0 matches no session as published, and every session as read. */
  lemma {:induction false} ZeroMaximumPricesMore(s: Session, money: real -> string)
    requires s.Valid() && s.reservation.None? && s.booking.None? && s.inHours(None, None) && s.inDates(None, None) && 0.0 <= s.kwh
    ensures var elements := [Element([Published("FLAT", Finite(1.0), None, None)], Some(NO_LIMITS.(maxKwh := Some(Finite(0.0)))))];
      Lookup(elements, s, Flat, false).None? && ElementsFrom(elements, money).Some?
      && OfferedLookup(ElementsFrom(elements, money).value, s, Flat).Some?
  {
  }
}
