/** The records the server keeps in its document store and the replies its handlers send. */
module Domain {

  datatype Option<T> = None | Some(value: T)

  /** An entry of the `services` collection: a treatment with its daily time slots. */
  datatype Service = Service(name: string, price: int, slots: seq<string>)

  /**
   * A document of the `booking` collection. `id` is the identifier the store assigns on
   * insertion; `email` is the client-supplied field that `GET /booking` filters on;
   * `paid` and `transactionId` are absent (None) until a payment is confirmed.
   */
  datatype Booking = Booking(
    id: nat,
    treatment: string,
    date: string,
    patient: string,
    time: string,
    email: Option<string>,
    paid: Option<bool>,
    transactionId: Option<string>)

  /**
   * The `booking` object of a `POST /booking` request body. The client may send `paid` and
   * `transactionId` too; the server stores them as sent.
   */
  datatype BookingRequest = BookingRequest(
    treatment: string,
    date: string,
    patient: string,
    time: string,
    email: Option<string>,
    paid: Option<bool>,
    transactionId: Option<string>)

  /** The body of a `PATCH /booking/:id` request, as far as the server reads it; the
      `transactionId` field may be missing. */
  datatype Payment = Payment(transactionId: Option<string>)

  /** A document of the `users` collection, keyed by email; `role` is absent for patients. */
  datatype UserDoc = UserDoc(role: Option<string>)

  /** The `user` object of a `PUT /users/:email` body: the fields handed to `$set`. */
  datatype UserPatch = UserPatch(role: Option<string>)

  /** What the store reports for an `updateOne`. */
  datatype UpdateResult = UpdateResult(matchedCount: nat, modifiedCount: nat, upserted: bool)

  /** HTTP rejections: 401 and 403. */
  datatype Status = Unauthorized | Forbidden

  /**
   * The outcome of a handler: a body sent with status 200, a rejection, no reply at all
   * (the handler returns without sending), or a TypeError thrown while reading a field of a
   * missing user record (Express then sends nothing either).
   */
  datatype Reply<T> = Ok(body: T) | Refused(status: Status) | NoReply | Crash
}
