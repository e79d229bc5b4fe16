/** `PATCH /booking/:id` (payment confirmation) and the amount rule of `/create-payment-intent`. */
module Payments {
  import opened Domain
  import opened Bookings

  /** `updateOne` locates the first booking in store order whose id matches. */
  function FindId(bs: seq<Booking>, id: nat): (r: Option<nat>)
    ensures r.Some? ==> r.value < |bs| && bs[r.value].id == id
    ensures r.Some? ==> forall j :: 0 <= j < r.value ==> bs[j].id != id
    ensures r.None? <==> forall j :: 0 <= j < |bs| ==> bs[j].id != id
  {
    if bs == [] then None
    else if bs[0].id == id then Some(0)
    else match FindId(bs[1..], id)
      case None => None
      case Some(i) => Some(i + 1)
  }

  /**
   * `$set: {paid: true, transactionId}` applied to one booking; a payload without a
   * `transactionId` leaves the booking paid with none.
   */
  function Settled(b: Booking, transactionId: Option<string>): (s: Booking)
    ensures KeyOf(s) == KeyOf(b) && s.id == b.id && s.email == b.email
    ensures s.paid == Some(true) && s.transactionId == transactionId
  {
    b.(paid := Some(true), transactionId := transactionId)
  }

  /**
   * The booking update of a payment confirmation: no booking is added or removed, every
   * tuple, id and email stays, and the only booking that may change is one with the id,
   * which becomes settled.
   */
  function MarkPaid(bs: seq<Booking>, id: nat, transactionId: Option<string>): (r: seq<Booking>)
    ensures |r| == |bs|
    ensures forall j :: 0 <= j < |bs| ==> r[j] == bs[j] || (bs[j].id == id && r[j] == Settled(bs[j], transactionId))
    ensures forall j :: 0 <= j < |bs| ==> KeyOf(r[j]) == KeyOf(bs[j]) && r[j].id == bs[j].id
    ensures forall j :: 0 <= j < |bs| && bs[j].paid == Some(true) ==> r[j].paid == Some(true)
  {
    match FindId(bs, id)
    case None => bs
    case Some(i) => bs[i := Settled(bs[i], transactionId)]
  }

  /** With unique ids, the booking with the id is settled and every other booking is unchanged. */
  lemma MarkPaidById(bs: seq<Booking>, id: nat, transactionId: Option<string>)
    requires UniqueIds(bs)
    ensures forall j :: 0 <= j < |bs| ==>
      MarkPaid(bs, id, transactionId)[j] == if bs[j].id == id then Settled(bs[j], transactionId) else bs[j]
  {
    match FindId(bs, id)
    case None =>
    case Some(i) =>
      assert forall j :: 0 <= j < |bs| && bs[j].id == id ==> j == i;
  }

  /** An id no booking has changes nothing. */
  lemma UnknownIdChangesNothing(bs: seq<Booking>, id: nat, transactionId: Option<string>)
    requires forall j :: 0 <= j < |bs| ==> bs[j].id != id
    ensures MarkPaid(bs, id, transactionId) == bs
  {
  }

  /** Two stores with the same ids in the same order locate the same booking. */
  lemma {:induction false} FindIdSameIds(a: seq<Booking>, b: seq<Booking>, id: nat)
    requires |a| == |b| && forall j :: 0 <= j < |a| ==> a[j].id == b[j].id
    ensures FindId(a, id) == FindId(b, id)
    decreases |a|
  {
    if a != [] {
      FindIdSameIds(a[1..], b[1..], id);
    }
  }

  /** A second confirmation of the same booking overwrites the transaction id; nothing else. */
  lemma LastConfirmationWins(bs: seq<Booking>, id: nat, first: Option<string>, second: Option<string>)
    ensures MarkPaid(MarkPaid(bs, id, first), id, second) == MarkPaid(bs, id, second)
  {
    var once := MarkPaid(bs, id, first);
    FindIdSameIds(once, bs, id);
    match FindId(bs, id)
    case None =>
    case Some(i) =>
      assert once == bs[i := Settled(bs[i], first)];
      assert Settled(Settled(bs[i], first), second) == Settled(bs[i], second);
  }

  /** Two confirmations with the same transaction id leave the bookings as one does. */
  lemma MarkPaidIdempotent(bs: seq<Booking>, id: nat, transactionId: Option<string>)
    ensures MarkPaid(MarkPaid(bs, id, transactionId), id, transactionId) == MarkPaid(bs, id, transactionId)
  {
    LastConfirmationWins(bs, id, transactionId, transactionId);
  }

  /**
   * Confirmation keeps tuples unique and ids unique and below the counter. It keeps every
   * paid booking carrying a transaction id only when the payload carries one.
   */
  lemma MarkPaidKeepsInvariants(bs: seq<Booking>, id: nat, transactionId: Option<string>, next: nat)
    ensures var r := MarkPaid(bs, id, transactionId);
      && (UniqueTuples(bs) ==> UniqueTuples(r))
      && (UniqueIds(bs) ==> UniqueIds(r))
      && (IdsBelow(bs, next) ==> IdsBelow(r, next))
      && (PaidHasTransaction(bs) && transactionId.Some? ==> PaidHasTransaction(r))
  {
  }

  /** `amount = price * 100`: the price in cents, for a price in whole dollars. */
  function AmountInCents(price: int): (amount: int)
    ensures amount % 100 == 0 && amount / 100 == price
  {
    price * 100
  }
}
