# Doctor Portal server: a Dafny model of its booking, payment and authorization core

The Doctor Portal server is an Express application over a MongoDB database. A clinic
publishes treatments ("services") with daily time slots. Patients reserve a slot for a date
and pay for the booking through a card gateway. Administrators are users whose stored role is
`admin`.

This project models, in Dafny, the handlers of `index.js` that hold domain logic:

- `verifyJWT`: the bearer-token gate. Token verification is a parameter `verify` (token to
  decoded email).
- `verifyAdmin` and the admin tests of `PUT /users/admin/:email` and `GET /admin/:email`.
- `GET /available`: the free slots of every service on a date.
- `POST /booking`: reservation with its duplicate-tuple check.
- `PATCH /booking/:id`: payment confirmation.
- `GET /booking`: a patient's own bookings.
- `PUT /users/:email`: the account upsert.
- The amount rule of `POST /create-payment-intent`.

The collections become the fields of a class `Server.Clinic`: `services`, `bookings`,
`payments`, `users` (email to account) and `nextId`, which stands for the identifier the
store assigns to the next inserted booking. Each handler is one method. Its `ensures` clause
ties the new state and the reply to pure functions in the modules `Auth`, `Availability`,
`Bookings`, `Payments` and `Users`. The properties are lemmas about those functions. The
class invariant `Valid()` says two things: no two bookings share a (treatment, date, patient,
time) tuple, and booking ids are unique and below `nextId`. Every handler keeps that
invariant. The property "a paid booking carries a transaction id" is not part of it, because
the source does not keep it. A reservation stores the client's `paid` and `transactionId`
fields as sent, and a payment payload without `transactionId` marks the booking paid with
none. `Reserve` and `ConfirmPayment` keep that property only for requests that do not claim
`paid: true` without a transaction id, and for payloads that carry one.

Replies are `Ok` (sent with status 200), `Refused(Unauthorized)` (401),
`Refused(Forbidden)` (403), `NoReply` or `Crash`. `NoReply` means the handler returns
without sending anything. `Crash` means the handler throws a TypeError while reading `.role`
of a user record that does not exist. The rejection is unhandled and no reply is sent. A duplicate
reservation is not an error: it is the ordinary reply `AlreadyBooked` carrying the existing
booking.

Where the code departs from the intended design of the system, the model follows the
code:

- `GET /booking` only answers the patient themself. There is no admin alternative.
- It filters on the booking field `email`, not on `patient`.
- Payment confirmation has no not-found outcome. An unknown id is answered `Ok` and is still
  logged.
- Reservation inserts the request as sent. The server never sets `paid` or `transactionId`
  itself. It does not check that the slot is free, and no uniqueness constraint is installed.
- `PUT /users/:email` takes the authentication-free body as `$set`. So the model's `Upsert`
  contract shows that whatever role the body names becomes the stored role.

## Model

| member | source | states |
|---|---|---|
| Auth.Split | index.js:27 | `split(' ')` yields at least one field, no field holds a space, and there is one field exactly when the header holds no space |
| Auth.JoinSplit | index.js:27 | joining the fields with single spaces gives back the header (nothing is lost by splitting) |
| Auth.SplitJoin | index.js:27 | splitting space-free fields joined by single spaces gives back those fields |
| Auth.Token | index.js:27 | the second field exists exactly when the header holds a space, and it holds no space |
| Auth.VerifyJWT | index.js:22-35 | a missing or empty header gives 401; a header with no second field or a token that fails verification gives 403; otherwise the request proceeds with the decoded email |
| Auth.BearerHeader | index.js:27-33 | for a header `<scheme> <token>`, exactly that token is verified, whatever the scheme: admitted with its email if it verifies, 403 otherwise |
| Auth.VerifyAdmin | index.js:47-56 | proceeds exactly when the requester's stored role is `admin`; a requester without an account makes it throw; every other role gives 403 |
| Availability.QueryDate | index.js:148 | a missing or empty date query falls back to "May 15, 2022" |
| Availability.OnDate | index.js:154-155 | the day's bookings are exactly the stored bookings with that date |
| Availability.BookedTimes | index.js:160-163 | a time is booked for a treatment exactly when some booking for that treatment holds it |
| Availability.FreeSlots | index.js:166 | a slot is kept exactly when the catalog lists it and it is not booked |
| Availability.FreeSlotsCount | index.js:166 | filtering is by membership only: a free slot keeps its catalog multiplicity, a booked one vanishes however often it is listed |
| Availability.FreeSlotsAppend | index.js:166 | catalog order is preserved: filtering distributes over concatenation |
| Availability.FreeSlotsIdempotent | index.js:166 | filtering the free slots again by the same bookings changes nothing |
| Availability.FreeService | index.js:158-169 | the returned service keeps its name and price; a slot stays exactly when no day booking for its treatment holds that time |
| Availability.SlotRule | index.js:158-169 | a catalog slot is offered on a date exactly when no booking with that date, treatment and time exists |
| Availability.IrrelevantBooking | index.js:154-160 | a booking on another date or for another treatment, wherever it stands, removes no slot |
| Availability.CleaningScenario | index.js:147-172 | "Cleaning" with slots 09:00 and 10:00 and one booking at 09:00 on the date offers only 10:00 |
| Bookings.FindTuple | index.js:199-205 | the lookup returns the first booking in store order with the request's tuple, or none exactly when no booking has it |
| Bookings.TupleMatch | index.js:199-204 | the duplicate query matches a booking exactly when treatment, date, patient and time all agree, and on no other field |
| Bookings.NewBooking | index.js:209 | the inserted document has the new id and the request's tuple, email, `paid` and `transactionId` as sent |
| Bookings.Reservation | index.js:197-211 | `success:false` exactly when a booking with the tuple exists, carrying such a booking with the store unchanged; otherwise the request is appended and the store grows by one |
| Bookings.ReservationKeepsInvariants | index.js:205-209 | reserving preserves unique tuples and unique ids below the counter; it preserves paid-implies-transaction when the request does not claim `paid: true` without a transaction id |
| Bookings.PaidClaimStored | index.js:198-209 | a request claiming `paid: true` with no transaction id is stored paid without one |
| Bookings.FindAppended | index.js:205-209 | after an insertion into a store without the tuple, the inserted booking is the first one with that tuple |
| Bookings.ReservationIdempotent | index.js:205-210 | repeating a request leaves the store as after one call, and the repeat reports the booking the first call found or inserted |
| Bookings.Replies | index.js:197-211 | `k` sequential identical requests give `k` replies |
| Bookings.RepliesAfterMatch | index.js:205-208 | once a booking has the tuple, every later identical request reports that same booking |
| Bookings.ExactlyOneCreated | index.js:205-210 | of `k` identical requests, only the first is inserted (if none matched before) and all others report that booking |
| Bookings.WithEmail | index.js:181-183 | the listed bookings are exactly the stored ones whose `email` field is the given email |
| Bookings.WithEmailAppend | index.js:181-183 | the listing keeps store order: it distributes over concatenation |
| Payments.FindId | index.js:215-223 | the update targets the first booking in store order with the id, or none exactly when no booking has it |
| Payments.Settled | index.js:216-221 | a settled booking has `paid=true` and the payload's transaction id (none if the payload has none), with tuple, id and email unchanged |
| Payments.MarkPaid | index.js:215-223 | no booking is added or removed; tuples and ids stay; only a booking with the id may change, and it becomes settled; no paid booking becomes unpaid |
| Payments.MarkPaidById | index.js:215-223 | with unique ids, the booking with the id is settled and every other booking is unchanged |
| Payments.UnknownIdChangesNothing | index.js:215-223 | an id that no booking has changes no booking |
| Payments.FindIdSameIds | index.js:215-223 | stores with the same ids in the same order locate the same booking |
| Payments.LastConfirmationWins | index.js:216-223 | a second confirmation of the same booking only replaces its transaction id |
| Payments.MarkPaidIdempotent | index.js:216-223 | two confirmations with the same transaction id leave the bookings as one does |
| Payments.MarkPaidKeepsInvariants | index.js:216-223 | confirming preserves unique tuples, unique ids and ids below the counter; it preserves paid-implies-transaction when the payload carries a transaction id |
| Payments.AmountInCents | index.js:61-62 | the gateway amount is a whole number of cents equal to the price times 100 |
| Users.ApplyPatch | index.js:134-137 | `$set` overwrites the fields the patch carries and keeps the others |
| Users.Upsert | index.js:129-137 | the account of the email is patched or created; the key set gains exactly that email; no other account changes; the counts report whether it matched, changed or was inserted |
| Users.UpsertIdempotent | index.js:129-137 | the same upsert twice leaves the accounts as after one, and the second reports a match with no modification |
| Users.Elevate | index.js:116-120 | only an existing target becomes admin; a missing one is not created; no other account changes; the counts report match and modification |
| Users.ElevateIdempotent | index.js:116-120 | elevating twice leaves the accounts as elevating once |
| Server.PaymentIntentAmount | index.js:58-68 | behind the token gate, the amount requested is the body's price in cents; a rejection passes the gate's status through |
| Server.ReservedSlotIsTaken | index.js:158-169 | after a request is reserved, its time is no longer offered for its treatment on its date |
| Server.Clinic.Available | index.js:147-173 | returns one entry per catalog service, in catalog order, each the service with its slots for that date filtered; writes nothing |
| Server.Clinic.AvailableTwice | index.js:147-173 | two availability queries with no booking in between give identical results |
| Server.Clinic.ListBookings | index.js:177-187 | a rejected token gives 401 or 403; a patient asking for their own email gets the bookings with that email, and every returned booking with it; any other request gets no reply |
| Server.Clinic.Reserve | index.js:197-211 | the store and reply follow `Reservation`; a conflict leaves the store unchanged, an insertion grows it by one and advances the id counter; no double booking is ever stored; paid-implies-transaction survives a request that does not claim `paid: true` without one |
| Server.Clinic.ConfirmPayment | index.js:212-226 | behind the token gate, exactly one payment is logged and the bookings follow `MarkPaid`; a rejected call changes nothing; the invariant is kept, and paid-implies-transaction survives a payload that carries a transaction id |
| Server.Clinic.MakeAdmin | index.js:111-127 | behind the token gate, users change only when the requester's stored role is admin, and then as `Elevate`; a requester without an account throws; any other role gives 403 with users unchanged |
| Server.Clinic.SaveUser | index.js:129-140 | users follow `Upsert` for the path's email, and the token returned is the one signed for that email |
| Server.Clinic.IsAdmin | index.js:103-108 | answers whether the stored role is admin; throws exactly when the email has no account |

## Left out

- Express routing, CORS, JSON parsing, environment configuration, the MongoDB connection and `app.listen` are plumbing (index.js:1-20, 37-44, 255-264).
- `jwt.verify` and `jwt.sign` are foreign library calls. Verification is a parameter `verify` from token to decoded email, which covers signature and expiry checks; the clock is not modelled. Signing is a parameter `sign`.
- The Stripe `paymentIntents.create` call is an external gateway. Only `amount = price * 100` is kept, over integer prices, because JavaScript arithmetic on a fraction price is floating point.
- Concurrency: every handler is one atomic step, so the check-then-insert race of `POST /booking` is not modelled.
- The doctors routes, `GET /services`, `GET /users` and `GET /booking/:id` are pass-throughs to the store with no logic of their own.
- `ObjectId` parsing is left out: booking ids are natural numbers handed out by `nextId`. An unparsable id makes the source throw, and that case is not modelled.
- Domain.Booking: a request is modelled by its treatment, date, patient, time, email, `paid` and `transactionId` fields. Other client-supplied fields (name, phone, price) would be stored unchanged and are not represented. A request missing one of the four tuple fields is not modelled. A request carrying its own `_id` is not modelled: the store would keep that id, or reject the insert when the id is taken. So the unique-id part of `Valid()` holds only for requests without `_id`.
- Domain.Payment: only the `transactionId` of the body is modelled, possibly absent. The rest of the payload is logged unchanged and is not represented.
- Domain.UserDoc: only the `role` field of accounts and of the `PUT /users/:email` body is modelled. A body whose `email` differs from the path's email would re-key the account, and that is not modelled.
- Auth.VerifyJWT: a token whose payload carries no `email` claim is not modelled. The decoded email is always a string.
- Server.Clinic.ListBookings: query strings that repeat `patientEmail` (which Express turns into an array) are not modelled.
