/** `POST /booking` (reservation) and the listing of `GET /booking`. */
module Bookings {
  import opened Domain

  /** The uniqueness tuple of a booking. */
  datatype Key = Key(treatment: string, date: string, patient: string, time: string)

  function KeyOf(b: Booking): Key {
    Key(b.treatment, b.date, b.patient, b.time)
  }

  function RequestKey(r: BookingRequest): Key {
    Key(r.treatment, r.date, r.patient, r.time)
  }

  /**
   * The query `{treatment, date, patient, time}` of a request matches a booking exactly
   * when all four fields agree; no other field takes part.
   */
  lemma TupleMatch(b: Booking, r: BookingRequest)
    ensures KeyOf(b) == RequestKey(r) <==>
      b.treatment == r.treatment && b.date == r.date && b.patient == r.patient && b.time == r.time
  {
  }

  /** `findOne` on the tuple: the first booking in store order that has it. */
  function FindTuple(bs: seq<Booking>, k: Key): (r: Option<nat>)
    ensures r.Some? ==> r.value < |bs| && KeyOf(bs[r.value]) == k
    ensures r.Some? ==> forall j :: 0 <= j < r.value ==> KeyOf(bs[j]) != k
    ensures r.None? <==> forall j :: 0 <= j < |bs| ==> KeyOf(bs[j]) != k
  {
    if bs == [] then None
    else if KeyOf(bs[0]) == k then Some(0)
    else match FindTuple(bs[1..], k)
      case None => None
      case Some(i) => Some(i + 1)
  }

  /** No two bookings share a tuple. */
  predicate UniqueTuples(bs: seq<Booking>) {
    forall i, j :: 0 <= i < j < |bs| ==> KeyOf(bs[i]) != KeyOf(bs[j])
  }

  /** No two bookings share an id. */
  predicate UniqueIds(bs: seq<Booking>) {
    forall i, j :: 0 <= i < j < |bs| ==> bs[i].id != bs[j].id
  }

  /** Every id is below the next one the store hands out. */
  predicate IdsBelow(bs: seq<Booking>, next: nat) {
    forall i :: 0 <= i < |bs| ==> bs[i].id < next
  }

  /** A paid booking carries a transaction id. */
  predicate PaidHasTransaction(bs: seq<Booking>) {
    forall i :: 0 <= i < |bs| ==> bs[i].paid == Some(true) ==> bs[i].transactionId.Some?
  }

  /**
   * The document `insertOne(booking)` stores: the request as sent, with the new id; the
   * server itself sets neither `paid` nor `transactionId`.
   */
  function NewBooking(id: nat, r: BookingRequest): (b: Booking)
    ensures KeyOf(b) == RequestKey(r) && b.id == id && b.email == r.email
    ensures b.paid == r.paid && b.transactionId == r.transactionId
  {
    Booking(id, r.treatment, r.date, r.patient, r.time, r.email, r.paid, r.transactionId)
  }

  /** `{success: true, result}` carries the inserted id; `{success: false, booking}` the match. */
  datatype ReserveReply = Created(insertedId: nat) | AlreadyBooked(existing: Booking)

  datatype ReserveOutcome = ReserveOutcome(bookings: seq<Booking>, reply: ReserveReply)

  /**
   * The reservation step on store `bs`, with `id` the id the store would assign next:
   * report the first booking with the request's tuple, or append the request.
   */
  function Reservation(bs: seq<Booking>, id: nat, r: BookingRequest): (o: ReserveOutcome)
    ensures o.reply.AlreadyBooked? <==> exists i :: 0 <= i < |bs| && KeyOf(bs[i]) == RequestKey(r)
    ensures o.reply.AlreadyBooked? ==>
      o.bookings == bs && o.reply.existing in bs && KeyOf(o.reply.existing) == RequestKey(r)
    ensures o.reply.Created? ==>
      o.reply.insertedId == id && o.bookings == bs + [NewBooking(id, r)] && |o.bookings| == |bs| + 1
  {
    match FindTuple(bs, RequestKey(r))
    case Some(i) => ReserveOutcome(bs, AlreadyBooked(bs[i]))
    case None => ReserveOutcome(bs + [NewBooking(id, r)], Created(id))
  }

  /**
   * Reservation keeps tuples and ids unique and ids below the counter. It keeps every paid
   * booking carrying a transaction id only when the request does not claim `paid: true`
   * without one.
   */
  lemma ReservationKeepsInvariants(bs: seq<Booking>, id: nat, r: BookingRequest)
    ensures var o := Reservation(bs, id, r);
      && (UniqueTuples(bs) ==> UniqueTuples(o.bookings))
      && (UniqueIds(bs) && IdsBelow(bs, id) ==> UniqueIds(o.bookings) && IdsBelow(o.bookings, id + 1))
      && (PaidHasTransaction(bs) && (r.paid == Some(true) ==> r.transactionId.Some?)
          ==> PaidHasTransaction(o.bookings))
  {
    var o := Reservation(bs, id, r);
    if o.reply.Created? {
      var nb := NewBooking(id, r);
      assert forall j :: 0 <= j < |bs| ==> o.bookings[j] == bs[j];
      assert o.bookings[|bs|] == nb;
      assert forall j :: 0 <= j < |bs| ==> KeyOf(bs[j]) != KeyOf(nb);
    }
  }

  /** A request that claims `paid: true` without a transaction id is stored that way. */
  lemma PaidClaimStored(r: BookingRequest)
    requires r.paid == Some(true) && r.transactionId.None?
    ensures !PaidHasTransaction(Reservation([], 0, r).bookings)
  {
    assert Reservation([], 0, r).bookings[0] == NewBooking(0, r);
  }

  /** When no booking has the tuple, the appended one is the first that has it. */
  lemma FindAppended(bs: seq<Booking>, id: nat, r: BookingRequest)
    requires FindTuple(bs, RequestKey(r)).None?
    ensures FindTuple(bs + [NewBooking(id, r)], RequestKey(r)) == Some(|bs|)
  {
    var bs' := bs + [NewBooking(id, r)];
    assert KeyOf(bs'[|bs|]) == RequestKey(r);
    var f := FindTuple(bs', RequestKey(r));
    assert f.Some?;
    assert forall j :: 0 <= j < |bs| ==> bs'[j] == bs[j];
  }

  /**
   * Repeating a request leaves the store as after one call; the repeat reports the
   * booking the first call found or inserted.
   */
  lemma ReservationIdempotent(bs: seq<Booking>, id: nat, id2: nat, r: BookingRequest)
    ensures var once := Reservation(bs, id, r);
      var twice := Reservation(once.bookings, id2, r);
      && twice.bookings == once.bookings
      && twice.reply == AlreadyBooked(
           if once.reply.Created? then NewBooking(id, r) else once.reply.existing)
  {
    if FindTuple(bs, RequestKey(r)).None? {
      FindAppended(bs, id, r);
    }
  }

  /** The replies of `k` identical requests made one after another. */
  function Replies(bs: seq<Booking>, id: nat, r: BookingRequest, k: nat): (rs: seq<ReserveReply>)
    ensures |rs| == k
    decreases k
  {
    if k == 0 then []
    else
      var o := Reservation(bs, id, r);
      [o.reply] + Replies(o.bookings, if o.reply.Created? then id + 1 else id, r, k - 1)
  }

  lemma {:induction false} RepliesAfterMatch(bs: seq<Booking>, id: nat, r: BookingRequest, k: nat, i: nat)
    requires FindTuple(bs, RequestKey(r)) == Some(i)
    ensures forall j :: 0 <= j < k ==> Replies(bs, id, r, k)[j] == AlreadyBooked(bs[i])
    decreases k
  {
    if k > 0 {
      RepliesAfterMatch(bs, id, r, k - 1, i);
      assert Replies(bs, id, r, k) == [AlreadyBooked(bs[i])] + Replies(bs, id, r, k - 1);
    }
  }

  /**
   * Of `k` identical requests, exactly the first is inserted when no booking had the tuple;
   * every later one reports that booking. When one had it, every request reports it.
   */
  lemma ExactlyOneCreated(bs: seq<Booking>, id: nat, r: BookingRequest, k: nat)
    requires k >= 1
    ensures var rs := Replies(bs, id, r, k);
      match FindTuple(bs, RequestKey(r))
      case None =>
        rs[0] == Created(id) && forall j :: 1 <= j < k ==> rs[j] == AlreadyBooked(NewBooking(id, r))
      case Some(i) =>
        forall j :: 0 <= j < k ==> rs[j] == AlreadyBooked(bs[i])
  {
    match FindTuple(bs, RequestKey(r))
    case None =>
      var bs' := bs + [NewBooking(id, r)];
      FindAppended(bs, id, r);
      RepliesAfterMatch(bs', id + 1, r, k - 1, |bs|);
      assert bs'[|bs|] == NewBooking(id, r);
      var rs := Replies(bs, id, r, k);
      assert rs == [Created(id)] + Replies(bs', id + 1, r, k - 1);
    case Some(i) =>
      RepliesAfterMatch(bs, id, r, k, i);
  }

  /** The documents of the query `{email: e}`, in store order (see WithEmailAppend). */
  function WithEmail(bs: seq<Booking>, e: string): (r: seq<Booking>)
    ensures forall b :: b in r <==> b in bs && b.email == Some(e)
    ensures |r| <= |bs|
  {
    if bs == [] then []
    else
      assert bs == [bs[0]] + bs[1..];
      (if bs[0].email == Some(e) then [bs[0]] else []) + WithEmail(bs[1..], e)
  }

  /** The listing keeps store order: it distributes over concatenation. */
  lemma {:induction false} WithEmailAppend(a: seq<Booking>, b: seq<Booking>, e: string)
    ensures WithEmail(a + b, e) == WithEmail(a, e) + WithEmail(b, e)
    decreases |a|
  {
    if a != [] {
      assert (a + b)[1..] == a[1..] + b;
      WithEmailAppend(a[1..], b, e);
    } else {
      assert a + b == b;
    }
  }
}
