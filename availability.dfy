/** The slot computation of `GET /available`. */
module Availability {
  import opened Domain

  /** The date used when the query carries none (or an empty one). */
  const DefaultDate: string := "May 15, 2022"

  /** `req.query.date || "May 15, 2022"`. */
  function QueryDate(date: Option<string>): (d: string)
    ensures date.Some? && date.value != "" ==> d == date.value
    ensures date.None? || date.value == "" ==> d == DefaultDate
  {
    if date.Some? && date.value != "" then date.value else DefaultDate
  }

  /** The bookings of the query `{date: date}`, in store order. */
  function OnDate(bs: seq<Booking>, date: string): (r: seq<Booking>)
    ensures forall b :: b in r <==> b in bs && b.date == date
    ensures |r| <= |bs|
  {
    if bs == [] then []
    else
      assert bs == [bs[0]] + bs[1..];
      (if bs[0].date == date then [bs[0]] else []) + OnDate(bs[1..], date)
  }

  /** `bookings.filter(b => b.treatment === name).map(s => s.time)`. */
  function BookedTimes(bs: seq<Booking>, name: string): (times: seq<string>)
    ensures forall t :: t in times <==> exists b :: b in bs && b.treatment == name && b.time == t
    ensures |times| <= |bs|
  {
    if bs == [] then []
    else
      assert bs == [bs[0]] + bs[1..];
      (if bs[0].treatment == name then [bs[0].time] else []) + BookedTimes(bs[1..], name)
  }

  /**
   * `slots.filter(slot => !booked.includes(slot))`: every slot not booked is kept, as
   * often as the catalog lists it; every booked one is dropped, however often.
   */
  function FreeSlots(slots: seq<string>, booked: seq<string>): (free: seq<string>)
    ensures forall x :: x in free <==> x in slots && x !in booked
    ensures |free| <= |slots|
  {
    if slots == [] then []
    else
      assert slots == [slots[0]] + slots[1..];
      (if slots[0] in booked then [] else [slots[0]]) + FreeSlots(slots[1..], booked)
  }

  /**
   * A service as `GET /available` returns it: `slots` overwritten with the slots no booking
   * of `dayBookings` for this treatment occupies; name and price kept.
   */
  function FreeService(s: Service, dayBookings: seq<Booking>): (r: Service)
    ensures r.name == s.name && r.price == s.price
    ensures forall x :: x in r.slots <==>
      x in s.slots && !exists b :: b in dayBookings && b.treatment == s.name && b.time == x
  {
    s.(slots := FreeSlots(s.slots, BookedTimes(dayBookings, s.name)))
  }

  /**
   * The slot rule: on a given date a catalog slot is offered exactly when no booking of
   * that date, for that treatment, holds that time.
   */
  lemma SlotRule(s: Service, bs: seq<Booking>, date: string, x: string)
    ensures x in FreeService(s, OnDate(bs, date)).slots <==>
      x in s.slots && !exists b :: b in bs && b.date == date && b.treatment == s.name && b.time == x
  {
  }

  lemma {:induction false} OnDateAppend(a: seq<Booking>, b: seq<Booking>, date: string)
    ensures OnDate(a + b, date) == OnDate(a, date) + OnDate(b, date)
    decreases |a|
  {
    if a != [] {
      assert (a + b)[1..] == a[1..] + b;
      OnDateAppend(a[1..], b, date);
    } else {
      assert a + b == b;
    }
  }

  lemma {:induction false} BookedTimesAppend(a: seq<Booking>, b: seq<Booking>, name: string)
    ensures BookedTimes(a + b, name) == BookedTimes(a, name) + BookedTimes(b, name)
    decreases |a|
  {
    if a != [] {
      assert (a + b)[1..] == a[1..] + b;
      BookedTimesAppend(a[1..], b, name);
    } else {
      assert a + b == b;
    }
  }

  /** The times booked on a date for a treatment, over a store split in two. */
  lemma DayTimesAppend(a: seq<Booking>, b: seq<Booking>, date: string, name: string)
    ensures BookedTimes(OnDate(a + b, date), name)
         == BookedTimes(OnDate(a, date), name) + BookedTimes(OnDate(b, date), name)
  {
    OnDateAppend(a, b, date);
    BookedTimesAppend(OnDate(a, date), OnDate(b, date), name);
  }

  /**
   * Scoping: a booking on another date, or for another treatment, wherever it stands in the
   * store, removes no slot of the service.
   */
  lemma IrrelevantBooking(s: Service, pre: seq<Booking>, b: Booking, post: seq<Booking>, date: string)
    requires b.date != date || b.treatment != s.name
    ensures FreeService(s, OnDate(pre + [b] + post, date)) == FreeService(s, OnDate(pre + post, date))
  {
    var name := s.name;
    DayTimesAppend(pre + [b], post, date, name);
    DayTimesAppend(pre, [b], date, name);
    DayTimesAppend(pre, post, date, name);
    assert BookedTimes(OnDate([b], date), name) == [] by {
      assert [b][1..] == [];
      if b.date == date {
        assert OnDate([b], date) == [b];
      } else {
        assert OnDate([b], date) == [];
      }
    }
    assert BookedTimes(OnDate(pre + [b], date), name) == BookedTimes(OnDate(pre, date), name);
  }

  /** Duplicates are filtered by membership only: multiplicities of free slots are kept. */
  lemma {:induction false} FreeSlotsCount(slots: seq<string>, booked: seq<string>, x: string)
    ensures multiset(FreeSlots(slots, booked))[x] == if x in booked then 0 else multiset(slots)[x]
    decreases |slots|
  {
    if slots != [] {
      FreeSlotsCount(slots[1..], booked, x);
      assert slots == [slots[0]] + slots[1..];
    }
  }

  /** Catalog order is kept: filtering distributes over concatenation. */
  lemma {:induction false} FreeSlotsAppend(a: seq<string>, b: seq<string>, booked: seq<string>)
    ensures FreeSlots(a + b, booked) == FreeSlots(a, booked) + FreeSlots(b, booked)
    decreases |a|
  {
    if a != [] {
      assert (a + b)[1..] == a[1..] + b;
      FreeSlotsAppend(a[1..], b, booked);
    } else {
      assert a + b == b;
    }
  }

  /** Filtering the free slots again by the same bookings changes nothing. */
  lemma {:induction false} FreeSlotsIdempotent(slots: seq<string>, booked: seq<string>)
    ensures FreeSlots(FreeSlots(slots, booked), booked) == FreeSlots(slots, booked)
    decreases |slots|
  {
    if slots != [] {
      FreeSlotsIdempotent(slots[1..], booked);
      var free := FreeSlots(slots, booked);
      var rest := FreeSlots(slots[1..], booked);
      if slots[0] !in booked {
        assert free == [slots[0]] + rest;
        assert free[0] == slots[0] && free[1..] == rest;
      } else {
        assert free == [] + rest == rest;
      }
    }
  }

  /** One "Cleaning" booking at 09:00 leaves only 10:00 free that day. */
  lemma CleaningScenario(price: int, patient: string)
    ensures FreeService(
      Service("Cleaning", price, ["09:00", "10:00"]),
      OnDate([Booking(0, "Cleaning", "2024-05-15", patient, "09:00", None, None, None)], "2024-05-15")
    ).slots == ["10:00"]
  {
    var b := Booking(0, "Cleaning", "2024-05-15", patient, "09:00", None, None, None);
    assert [b][1..] == [];
    assert OnDate([b], "2024-05-15") == [b];
    assert BookedTimes([b], "Cleaning") == ["09:00"];
    assert "10:00"[0] != "09:00"[0];
    assert "10:00" !in ["09:00"];
    assert FreeSlots(["10:00"], ["09:00"]) == ["10:00"] by {
      assert ["10:00"][1..] == [];
    }
    assert ["09:00", "10:00"][1..] == ["10:00"];
  }
}
