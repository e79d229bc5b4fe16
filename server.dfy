/**
 * The route handlers over the store. The collections are the fields of a Clinic; each
 * handler is one atomic read-then-write step on them.
 */
module Server {
  import opened Domain
  import opened Auth
  import opened Availability
  import opened Bookings
  import opened Payments
  import opened Users

  /** The `updateDoc.$set` that `PATCH /booking/:id` sends back. */
  datatype PaidUpdate = PaidUpdate(paid: bool, transactionId: Option<string>)

  /**
   * `POST /create-payment-intent` behind `verifyJWT`: the amount asked of the gateway is
   * the body's price in cents.
   */
  function PaymentIntentAmount(header: Option<string>, verify: string -> Option<string>, price: int): (r: Reply<int>)
    ensures r.Ok? <==> VerifyJWT(header, verify).Admit?
    ensures !r.Ok? ==> r == Refused(VerifyJWT(header, verify).status)
    ensures r.Ok? ==> r.body % 100 == 0 && r.body / 100 == price
  {
    match VerifyJWT(header, verify)
    case Deny(s) => Refused(s)
    case Admit(_) => Ok(AmountInCents(price))
  }

  /**
   * Once a request is reserved (inserted or found), its time is no longer offered for its
   * treatment on its date, although reservation itself never consults availability.
   */
  lemma ReservedSlotIsTaken(s: Service, bs: seq<Booking>, id: nat, r: BookingRequest)
    requires s.name == r.treatment
    ensures r.time !in FreeService(s, OnDate(Reservation(bs, id, r).bookings, r.date)).slots
  {
    var o := Reservation(bs, id, r);
    var b := if o.reply.Created? then NewBooking(id, r) else o.reply.existing;
    assert b in o.bookings;
    SlotRule(s, o.bookings, r.date, r.time);
  }

  class Clinic {
    /** The `services` collection (the catalog; no handler here writes it). */
    var services: seq<Service>
    /** The `booking` collection, in store order. */
    var bookings: seq<Booking>
    /** The `payments` collection: a log of confirmation payloads. */
    var payments: seq<Payment>
    /** The `users` collection, keyed by email. */
    var users: map<string, UserDoc>
    /** The id the store assigns to the next inserted booking. */
    var nextId: nat

    /** What every handler preserves: no double booking, and unique ids below the counter. */
    ghost predicate Valid()
      reads this
    {
      && UniqueTuples(bookings)
      && UniqueIds(bookings)
      && IdsBelow(bookings, nextId)
    }

    constructor (catalog: seq<Service>, accounts: map<string, UserDoc>)
      ensures Valid()
      ensures services == catalog && bookings == [] && payments == [] && users == accounts
    {
      services := catalog;
      bookings := [];
      payments := [];
      users := accounts;
      nextId := 0;
    }

    /**
     * `GET /available`: load the catalog, then overwrite each loaded service's slots with
     * those no booking of the date holds for its treatment. The store is not written.
     */
    method Available(date: Option<string>) returns (result: seq<Service>)
      ensures |result| == |services|
      ensures forall i :: 0 <= i < |services| ==>
        result[i] == FreeService(services[i], OnDate(bookings, QueryDate(date)))
    {
      var day := QueryDate(date);
      var catalog := services;
      var loaded := new Service[|catalog|](i requires 0 <= i < |catalog| => catalog[i]);
      var dayBookings := OnDate(bookings, day);
      var i := 0;
      while i < loaded.Length
        invariant 0 <= i <= loaded.Length == |catalog|
        invariant forall j :: 0 <= j < i ==> loaded[j] == FreeService(catalog[j], dayBookings)
        invariant forall j :: i <= j < loaded.Length ==> loaded[j] == catalog[j]
      {
        var service := loaded[i];
        var booked := BookedTimes(dayBookings, service.name);
        loaded[i] := service.(slots := FreeSlots(service.slots, booked));
        i := i + 1;
      }
      result := loaded[..];
    }

    /** Two availability queries with no booking in between answer the same. */
    method AvailableTwice(date: Option<string>) returns (first: seq<Service>, second: seq<Service>)
      ensures first == second
    {
      first := Available(date);
      second := Available(date);
    }

    /**
     * `GET /booking` behind `verifyJWT`: only a patient asking for their own email gets an
     * answer, the bookings whose `email` field is that email; otherwise nothing is sent.
     */
    method ListBookings(header: Option<string>, verify: string -> Option<string>, patientEmail: Option<string>)
      returns (reply: Reply<seq<Booking>>)
      ensures var g := VerifyJWT(header, verify);
        if g.Deny? then reply == Refused(g.status)
        else if patientEmail == Some(g.email) then reply == Ok(WithEmail(bookings, g.email))
        else reply == NoReply
      ensures reply.Ok? ==>
        && VerifyJWT(header, verify).Admit?
        && forall b :: b in reply.body ==> b in bookings && b.email == Some(VerifyJWT(header, verify).email)
    {
      var g := VerifyJWT(header, verify);
      if g.Deny? {
        reply := Refused(g.status);
      } else if patientEmail == Some(g.email) {
        reply := Ok(WithEmail(bookings, g.email));
      } else {
        reply := NoReply;
      }
    }

    /**
     * `POST /booking` (no authentication): report the first booking with the request's
     * tuple, or insert the request.
     */
    method Reserve(request: BookingRequest) returns (reply: ReserveReply)
      requires Valid()
      modifies this`bookings, this`nextId
      ensures Valid()
      ensures var o := Reservation(old(bookings), old(nextId), request);
        bookings == o.bookings && reply == o.reply
      ensures nextId == if reply.Created? then old(nextId) + 1 else old(nextId)
      ensures reply.AlreadyBooked? ==> bookings == old(bookings)
      ensures reply.Created? ==> |bookings| == |old(bookings)| + 1
      ensures old(PaidHasTransaction(bookings)) && (request.paid == Some(true) ==> request.transactionId.Some?)
        ==> PaidHasTransaction(bookings)
    {
      ReservationKeepsInvariants(bookings, nextId, request);
      var found := FindTuple(bookings, RequestKey(request));
      if found.Some? {
        reply := AlreadyBooked(bookings[found.value]);
      } else {
        bookings := bookings + [NewBooking(nextId, request)];
        reply := Created(nextId);
        nextId := nextId + 1;
      }
    }

    /**
     * `PATCH /booking/:id` behind `verifyJWT`: log the payment, then settle the booking with
     * the id. An unknown id is still answered and still logged.
     */
    method ConfirmPayment(header: Option<string>, verify: string -> Option<string>, id: nat, payment: Payment)
      returns (reply: Reply<PaidUpdate>)
      requires Valid()
      modifies this`bookings, this`payments
      ensures Valid()
      ensures var g := VerifyJWT(header, verify);
        if g.Deny? then
          reply == Refused(g.status) && bookings == old(bookings) && payments == old(payments)
        else
          && reply == Ok(PaidUpdate(true, payment.transactionId))
          && payments == old(payments) + [payment]
          && bookings == MarkPaid(old(bookings), id, payment.transactionId)
      ensures old(PaidHasTransaction(bookings)) && payment.transactionId.Some? ==> PaidHasTransaction(bookings)
    {
      var g := VerifyJWT(header, verify);
      if g.Deny? {
        reply := Refused(g.status);
      } else {
        MarkPaidKeepsInvariants(bookings, id, payment.transactionId, nextId);
        payments := payments + [payment];
        bookings := MarkPaid(bookings, id, payment.transactionId);
        reply := Ok(PaidUpdate(true, payment.transactionId));
      }
    }

    /**
     * `PUT /users/admin/:email` behind `verifyJWT`: only a requester whose stored role is
     * admin may make `target` an admin; a requester with no account makes the handler throw.
     */
    method MakeAdmin(header: Option<string>, verify: string -> Option<string>, target: string)
      returns (reply: Reply<UpdateResult>)
      modifies this`users
      ensures var g := VerifyJWT(header, verify);
        if g.Deny? then reply == Refused(g.status) && users == old(users)
        else if g.email !in old(users) then reply == Crash && users == old(users)
        else if old(users)[g.email].role == Some("admin") then
          var o := Elevate(old(users), target); reply == Ok(o.result) && users == o.users
        else reply == Refused(Forbidden) && users == old(users)
      ensures users != old(users) ==>
        VerifyJWT(header, verify).Admit? && VerifyAdmin(old(users), VerifyJWT(header, verify).email).Ok?
    {
      var g := VerifyJWT(header, verify);
      if g.Deny? {
        reply := Refused(g.status);
      } else {
        var gate := VerifyAdmin(users, g.email);
        if gate.Ok? {
          var o := Elevate(users, target);
          users := o.users;
          reply := Ok(o.result);
        } else if gate == Crash {
          reply := Crash;
        } else {
          reply := Refused(Forbidden);
        }
      }
    }

    /**
     * `PUT /users/:email` (no authentication): upsert the account with the body's fields and
     * answer with a token signed for `email`; `sign` stands for `jwt.sign`.
     */
    method SaveUser(email: string, patch: UserPatch, sign: string -> string)
      returns (result: UpdateResult, token: string)
      modifies this`users
      ensures var o := Upsert(old(users), email, patch); users == o.users && result == o.result
      ensures token == sign(email)
    {
      var o := Upsert(users, email, patch);
      users := o.users;
      result := o.result;
      token := sign(email);
    }

    /** `GET /admin/:email` (no authentication): whether the stored role is admin. */
    method IsAdmin(email: string) returns (reply: Reply<bool>)
      ensures reply == Crash <==> email !in users
      ensures reply.Ok? || reply == Crash
      ensures reply.Ok? ==> (reply.body <==> users[email].role == Some("admin"))
    {
      if email !in users {
        reply := Crash;
      } else {
        reply := Ok(users[email].role == Some("admin"));
      }
    }
  }
}
