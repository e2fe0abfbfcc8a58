/** The booking routes (routes/bookings.js) over an in-memory booking store.
    Every route runs behind the session guard; `caller` is the user it attached. */
module Bookings {
  import opened Base
  import opened Text
  import opened BookingModel
  import opened Guard

  /** The body of POST /. `phone` is read but the schema has no such field. */
  datatype BookingRequest = BookingRequest(
    firstName: Option<string>,
    lastName: Option<string>,
    email: Option<string>,
    phone: Option<string>,
    bedrooms: Option<int>,
    bathrooms: Option<int>,
    serviceType: Option<string>,
    frequency: Option<string>,
    price: Option<int>,
    scheduledDate: Option<int>)

  const NameAndEmailRequired := "Name and email are required."
  const ServiceAndFrequencyRequired := "Service type and frequency are required."
  const EmailMismatch := "Email does not match logged-in user."
  const BookingCreated := "Booking created successfully"
  const NotFound := "Booking not found"

  /** `scheduledDate ? new Date(scheduledDate) : undefined`: a zero or absent date is dropped. */
  function ScheduledDate(date: Option<int>): Option<int>
  {
    if date.Some? && date.value != 0 then date else None
  }

  /** The document POST / builds for `owner` at time `now`. */
  function Draft(owner: Id, req: BookingRequest, now: int): (d: Booking)
    requires Given(req.firstName) && Given(req.lastName) && Given(req.email)
    ensures d.user == owner && d.status == DefaultStatus && d.createdAt == now
    ensures d.firstName == Trim(req.firstName.value) && d.lastName == Trim(req.lastName.value)
    ensures d.email == Trim(Lower(req.email.value)) && IsLowerCase(d.email)
    ensures d.bedrooms == req.bedrooms && d.bathrooms == req.bathrooms && d.price == req.price
    ensures d.serviceType == req.serviceType && d.frequency == req.frequency
    // a zero or absent date is not stored
    ensures d.scheduledDate.Some? <==> req.scheduledDate.Some? && req.scheduledDate.value != 0
    ensures d.scheduledDate.Some? ==> d.scheduledDate == req.scheduledDate
  {
    New(owner, req.firstName.value, req.lastName.value, req.email.value,
        req.bedrooms, req.bathrooms, req.serviceType, req.frequency, req.price,
        ScheduledDate(req.scheduledDate), now)
  }

  /** Newest first, as `.sort({ createdAt: -1 })` returns them. */
  predicate NewestFirst(list: seq<(Id, Booking)>) {
    forall i, j :: 0 <= i < j < |list| ==> list[i].1.createdAt >= list[j].1.createdAt
  }

  /** No booking listed twice. */
  predicate DistinctIds(list: seq<(Id, Booking)>) {
    forall i, j :: 0 <= i < j < |list| ==> list[i].0 != list[j].0
  }

  function IdsOf(list: seq<(Id, Booking)>): set<Id> {
    set i | 0 <= i < |list| :: list[i].0
  }

  /** Where `e` goes in a newest-first list: behind every entry at least as new. */
  function Position(list: seq<(Id, Booking)>, e: (Id, Booking)): (k: nat)
    ensures k <= |list|
    ensures forall i :: 0 <= i < k ==> list[i].1.createdAt >= e.1.createdAt
    ensures NewestFirst(list) ==> forall i :: k <= i < |list| ==> list[i].1.createdAt < e.1.createdAt
  {
    if list == [] || list[0].1.createdAt < e.1.createdAt then 0
    else 1 + Position(list[1..], e)
  }

  /** Puts `e` into a newest-first list, keeping it newest first. */
  function InsertNewestFirst(list: seq<(Id, Booking)>, e: (Id, Booking)): (r: seq<(Id, Booking)>)
    ensures |r| == |list| + 1
    ensures forall i :: 0 <= i < |r| ==> r[i] == e || r[i] in list
    ensures IdsOf(r) == IdsOf(list) + {e.0}
    ensures NewestFirst(list) ==> NewestFirst(r)
    ensures DistinctIds(list) && e.0 !in IdsOf(list) ==> DistinctIds(r)
    ensures multiset(r) == multiset(list) + multiset{e}
  {
    var k := Position(list, e);
    assert list == list[..k] + list[k..];
    InsertAtIds(list, e, k);
    InsertAtSorted(list, e, k);
    InsertAtDistinct(list, e, k);
    list[..k] + [e] + list[k..]
  }

  lemma InsertAtIds(list: seq<(Id, Booking)>, e: (Id, Booking), k: nat)
    requires k <= |list|
    ensures forall i :: 0 <= i < |list| + 1 ==> (list[..k] + [e] + list[k..])[i] == e || (list[..k] + [e] + list[k..])[i] in list
    ensures IdsOf(list[..k] + [e] + list[k..]) == IdsOf(list) + {e.0}
  {
    var r := list[..k] + [e] + list[k..];
    forall i | 0 <= i < |r| ensures r[i] == InsertedAt(list, e, k, i) { }
    forall x | x in IdsOf(r) ensures x in IdsOf(list) + {e.0} {
      var i :| 0 <= i < |r| && r[i].0 == x;
      if i > k { assert list[i - 1].0 == x; }
    }
    forall x | x in IdsOf(list) ensures x in IdsOf(r) {
      var i :| 0 <= i < |list| && list[i].0 == x;
      if i < k { assert r[i].0 == x; } else { assert r[i + 1].0 == x; }
    }
    assert r[k].0 == e.0;
  }

  /** Entry `i` of `list` with `e` put in at position `k`. */
  function InsertedAt(list: seq<(Id, Booking)>, e: (Id, Booking), k: nat, i: nat): (Id, Booking)
    requires k <= |list| && i <= |list|
  {
    if i < k then list[i] else if i == k then e else list[i - 1]
  }

  lemma InsertAtSorted(list: seq<(Id, Booking)>, e: (Id, Booking), k: nat)
    requires k == Position(list, e)
    ensures NewestFirst(list) ==> NewestFirst(list[..k] + [e] + list[k..])
  {
    var r := list[..k] + [e] + list[k..];
    forall i | 0 <= i < |r| ensures r[i] == InsertedAt(list, e, k, i) { }
    if NewestFirst(list) {
      forall i, j | 0 <= i < j < |r| ensures r[i].1.createdAt >= r[j].1.createdAt {
        assert r[i] == InsertedAt(list, e, k, i);
        assert r[j] == InsertedAt(list, e, k, j);
      }
    }
  }

  lemma InsertAtDistinct(list: seq<(Id, Booking)>, e: (Id, Booking), k: nat)
    requires k <= |list|
    ensures DistinctIds(list) && e.0 !in IdsOf(list) ==> DistinctIds(list[..k] + [e] + list[k..])
  {
    var r := list[..k] + [e] + list[k..];
    forall i | 0 <= i < |r| ensures r[i] == InsertedAt(list, e, k, i) { }
    if DistinctIds(list) && e.0 !in IdsOf(list) {
      forall i, j | 0 <= i < j < |r| ensures r[i].0 != r[j].0 {
        assert r[i] == InsertedAt(list, e, k, i);
        assert r[j] == InsertedAt(list, e, k, j);
        if i == k {
          assert list[j - 1].0 in IdsOf(list);
        } else if j == k {
          assert list[i].0 in IdsOf(list);
        }
      }
    }
  }

  class BookingStore {
    var bookings: map<Id, Booking>
    var nextId: Id

    ghost predicate Valid()
      reads this
    {
      forall id :: id in bookings ==> id < nextId
    }

    /** Every stored document passes schema validation. */
    ghost predicate AllConform()
      reads this
    {
      forall id :: id in bookings ==> Conforms(bookings[id])
    }

    constructor ()
      ensures Valid() && AllConform()
      ensures bookings == map[] && nextId == 0
    {
      bookings, nextId := map[], 0;
    }

    /** POST /: three checks in order, then save, which validates the document. */
    method Create(caller: SafeUser, req: BookingRequest, now: int) returns (r: Reply<(Id, Booking)>)
      requires Valid()
      modifies this
      ensures Valid()
      ensures AllConform() <== old(AllConform())
      ensures !Given(req.firstName) || !Given(req.lastName) || !Given(req.email) ==>
                r == Plain(400, NameAndEmailRequired)
      ensures Given(req.firstName) && Given(req.lastName) && Given(req.email) ==>
                if !Given(req.serviceType) || !Given(req.frequency) then
                  r == Plain(400, ServiceAndFrequencyRequired)
                else if caller.email != Lower(req.email.value) then
                  r == Plain(403, EmailMismatch)
                else if !Conforms(Draft(caller.id, req, now)) then
                  r == Plain(500, ServerError)
                else
                  && old(nextId) !in old(bookings)
                  && bookings == old(bookings)[old(nextId) := Draft(caller.id, req, now)]
                  && nextId == old(nextId) + 1
                  && r == Reply(201, Some(BookingCreated), Some((old(nextId), Draft(caller.id, req, now))))
      ensures r.status != 201 ==> bookings == old(bookings) && nextId == old(nextId)
      ensures r.status == 201 ==> r.data.Some? && r.data.value.1.user == caller.id
    {
      if !Given(req.firstName) || !Given(req.lastName) || !Given(req.email) {
        return Plain(400, NameAndEmailRequired);
      }
      if !Given(req.serviceType) || !Given(req.frequency) {
        return Plain(400, ServiceAndFrequencyRequired);
      }
      if caller.email != Lower(req.email.value) {
        return Plain(403, EmailMismatch);
      }
      var booking := Draft(caller.id, req, now);
      if !Conforms(booking) {
        return Plain(500, ServerError);
      }
      var id := Insert(booking);
      r := Reply(201, Some(BookingCreated), Some((id, booking)));
    }

    /** `booking.save()` of a new, valid document: it gets the next id. */
    method Insert(booking: Booking) returns (id: Id)
      requires Valid() && Conforms(booking)
      modifies this
      ensures Valid()
      ensures AllConform() <== old(AllConform())
      ensures id == old(nextId) && id !in old(bookings)
      ensures bookings == old(bookings)[id := booking] && nextId == old(nextId) + 1
    {
      id := nextId;
      bookings := bookings[id := booking];
      nextId := nextId + 1;
    }

    /** GET /: the caller's bookings, newest first (the reply is `{ bookings: list }`, status 200). */
    method ListOwn(caller: SafeUser) returns (list: seq<(Id, Booking)>)
      ensures forall i :: 0 <= i < |list| ==> list[i].0 in bookings && bookings[list[i].0] == list[i].1
      ensures forall i :: 0 <= i < |list| ==> list[i].1.user == caller.id
      ensures forall id :: id in bookings && bookings[id].user == caller.id ==> id in IdsOf(list)
      ensures DistinctIds(list)
      ensures NewestFirst(list)
      ensures IndexOrdered(list)
    {
      list := [];
      var rest := bookings.Keys;
      while rest != {}
        invariant rest <= bookings.Keys
        invariant forall i :: 0 <= i < |list| ==>
                    list[i].0 in bookings && list[i].0 !in rest && bookings[list[i].0] == list[i].1 && list[i].1.user == caller.id
        invariant forall id :: id in bookings && id !in rest && bookings[id].user == caller.id ==> id in IdsOf(list)
        invariant DistinctIds(list)
        invariant NewestFirst(list)
        decreases rest
      {
        var id :| id in rest;
        if bookings[id].user == caller.id {
          list := InsertNewestFirst(list, (id, bookings[id]));
        }
        rest := rest - {id};
      }
    }

    /** GET /:id: only the owner receives the booking. */
    method Get(caller: SafeUser, id: Id) returns (r: Reply<Booking>)
      ensures id !in bookings ==> r == Plain(404, NotFound)
      ensures id in bookings && bookings[id].user != caller.id ==> r == Plain(403, "Unauthorized")
      ensures id in bookings && bookings[id].user == caller.id ==> r == Reply(200, None, Some(bookings[id]))
      ensures r.data.Some? ==> id in bookings && r.data.value == bookings[id] && r.data.value.user == caller.id
    {
      if id !in bookings {
        return Plain(404, NotFound);
      }
      if bookings[id].user != caller.id {
        return Plain(403, "Unauthorized");
      }
      r := Reply(200, None, Some(bookings[id]));
    }

    /** PUT /:id/status: existence, then ownership, then the status whitelist. */
    method UpdateStatus(caller: SafeUser, id: Id, status: Option<string>) returns (r: Reply<Booking>)
      requires Valid()
      modifies this
      ensures Valid() && nextId == old(nextId)
      ensures AllConform() <== old(AllConform())
      ensures id !in old(bookings) ==> r == Plain(404, NotFound) && bookings == old(bookings)
      ensures id in old(bookings) ==>
                if old(bookings)[id].user != caller.id then
                  r == Plain(403, "Not allowed to update this booking") && bookings == old(bookings)
                else if status.None? || status.value !in Statuses then
                  r == Plain(400, "Invalid status") && bookings == old(bookings)
                else
                  && bookings == old(bookings)[id := old(bookings)[id].(status := status.value)]
                  && r == Reply(200, Some("Status updated"), Some(bookings[id]))
    {
      if id !in bookings {
        return Plain(404, NotFound);
      }
      var booking := bookings[id];
      if booking.user != caller.id {
        return Plain(403, "Not allowed to update this booking");
      }
      if status.None? || status.value !in Statuses {
        return Plain(400, "Invalid status");
      }
      StatusChangeConforms(booking, status.value);
      booking := booking.(status := status.value);
      bookings := bookings[id := booking];
      r := Reply(200, Some("Status updated"), Some(booking));
    }

    /** PUT /:id: `findByIdAndUpdate(id, { status }, { new: true })`. The route
        checks neither the owner nor the status, and this update runs no
        validators, so any caller may write any status into any booking. */
    method PutById(caller: SafeUser, id: Id, status: string) returns (r: Reply<Booking>)
      requires Valid()
      modifies this
      ensures Valid() && nextId == old(nextId)
      ensures id !in old(bookings) ==> r == Plain(404, NotFound) && bookings == old(bookings)
      ensures id in old(bookings) ==>
                && bookings == old(bookings)[id := old(bookings)[id].(status := status)]
                && r == Reply(200, None, Some(bookings[id]))
    {
      if id !in bookings {
        return Plain(404, NotFound);
      }
      var booking := bookings[id].(status := status);
      bookings := bookings[id := booking];
      r := Reply(200, None, Some(booking));
    }

    /** DELETE /:id: the owner marks the booking cancelled; nothing is removed.
        Cancelling a cancelled booking changes nothing, so the route is idempotent. */
    method Cancel(caller: SafeUser, id: Id) returns (r: Reply<Booking>)
      requires Valid()
      modifies this
      ensures Valid() && nextId == old(nextId)
      ensures AllConform() <== old(AllConform())
      ensures id !in old(bookings) ==> r == Plain(404, NotFound) && bookings == old(bookings)
      ensures id in old(bookings) ==>
                if old(bookings)[id].user != caller.id then
                  r == Plain(403, "Not allowed to cancel this booking") && bookings == old(bookings)
                else
                  && bookings == old(bookings)[id := old(bookings)[id].(status := "cancelled")]
                  && bookings[id].status == "cancelled"
                  && r == Reply(200, Some("Booking cancelled"), Some(bookings[id]))
      ensures id in old(bookings) && old(bookings)[id].status == "cancelled" ==> bookings == old(bookings)
    {
      if id !in bookings {
        return Plain(404, NotFound);
      }
      var booking := bookings[id];
      if booking.user != caller.id {
        return Plain(403, "Not allowed to cancel this booking");
      }
      StatusChangeConforms(booking, "cancelled");
      booking := booking.(status := "cancelled");
      bookings := bookings[id := booking];
      r := Reply(200, Some("Booking cancelled"), Some(booking));
    }
  }

  /** Another signed-in user cannot change a booking's status through
      PUT /:id/status, but can through PUT /:id, to any value at all. */
  method StrangerOverwritesStatus(owner: SafeUser, stranger: SafeUser, req: BookingRequest, now: int, status: string)
    returns (guarded: Reply<Booking>, unguarded: Reply<Booking>)
    requires owner.id != stranger.id
    requires Given(req.firstName) && Given(req.lastName) && Given(req.email)
    requires Given(req.serviceType) && Given(req.frequency)
    requires owner.email == Lower(req.email.value) && Conforms(Draft(owner.id, req, now))
    ensures guarded == Plain(403, "Not allowed to update this booking")
    ensures unguarded == Reply(200, None, Some(Draft(owner.id, req, now).(status := status)))
  {
    var store := new BookingStore();
    var created := store.Create(owner, req, now);
    guarded := store.UpdateStatus(stranger, 0, Some(status));
    unguarded := store.PutById(stranger, 0, status);
  }
}
