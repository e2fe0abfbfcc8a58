/** The booking schema (models/Booking.js): how a new document is built from the
    values it is given (setters and defaults) and when saving it passes
    validation (required fields, enums and bounds). */
module BookingModel {
  import opened Base
  import opened Text

  const ServiceTypes: set<string> := {"standard", "deep", "post_construction"}
  const Frequencies: set<string> := {"one_time", "weekly", "two_weeks", "four_weeks"}
  const Statuses: set<string> := {"pending", "done", "cancelled"}
  const DefaultStatus := "pending"
  const MinRooms := 1
  const MaxRooms := 4

  /** A booking document. Fields the schema does not list (such as `phone`)
      are not kept. Times are milliseconds since the epoch. */
  datatype Booking = Booking(
    user: Id,
    firstName: string,
    lastName: string,
    email: string,
    bedrooms: Option<int>,
    bathrooms: Option<int>,
    serviceType: Option<string>,
    frequency: Option<string>,
    price: Option<int>,
    status: string,
    scheduledDate: Option<int>,
    createdAt: int)

  /** `required: true, min: 1, max: 4` on a number. */
  predicate RoomCount(n: Option<int>) {
    n.Some? && MinRooms <= n.value <= MaxRooms
  }

  /** An optional enum field that is also required. */
  predicate OneOf(field: Option<string>, allowed: set<string>) {
    field.Some? && field.value in allowed
  }

  /** What validation on `save()` accepts. A required string must be non-empty. */
  predicate Conforms(b: Booking) {
    && b.firstName != "" && b.lastName != "" && b.email != ""
    && RoomCount(b.bedrooms) && RoomCount(b.bathrooms)
    && OneOf(b.serviceType, ServiceTypes)
    && OneOf(b.frequency, Frequencies)
    && b.price.Some?
    && b.status in Statuses
  }

  /** `new Booking({...})` at time `now`: names trimmed, email trimmed and
      lower-cased, status and creation time defaulted. */
  function New(user: Id, firstName: string, lastName: string, email: string,
               bedrooms: Option<int>, bathrooms: Option<int>,
               serviceType: Option<string>, frequency: Option<string>,
               price: Option<int>, scheduledDate: Option<int>, now: int): (b: Booking)
    ensures b.user == user && b.status == DefaultStatus && b.createdAt == now
    ensures Trimmed(b.firstName) && Trimmed(b.lastName)
    ensures Trimmed(b.email) && IsLowerCase(b.email)
    ensures b.firstName == Trim(firstName) && b.lastName == Trim(lastName) && b.email == Trim(Lower(email))
    ensures b.bedrooms == bedrooms && b.bathrooms == bathrooms && b.price == price
    ensures b.serviceType == serviceType && b.frequency == frequency && b.scheduledDate == scheduledDate
  {
    LowerTrimCommute(email);
    LowerIsLowerCase(Trim(email));
    Booking(user, Trim(firstName), Trim(lastName), Lower(Trim(email)),
            bedrooms, bathrooms, serviceType, frequency, price, DefaultStatus, scheduledDate, now)
  }

  /** A new booking passes validation exactly when its names and email are
      not all white space, both room counts lie in [1, 4], both enums hold an
      allowed value and a price is given; the defaulted status always passes. */
  lemma NewConforms(user: Id, firstName: string, lastName: string, email: string,
                    bedrooms: Option<int>, bathrooms: Option<int>,
                    serviceType: Option<string>, frequency: Option<string>,
                    price: Option<int>, scheduledDate: Option<int>, now: int)
    ensures Conforms(New(user, firstName, lastName, email, bedrooms, bathrooms, serviceType, frequency, price, scheduledDate, now))
            <==>
            && !AllSpace(firstName) && !AllSpace(lastName) && !AllSpace(email)
            && RoomCount(bedrooms) && RoomCount(bathrooms)
            && OneOf(serviceType, ServiceTypes) && OneOf(frequency, Frequencies)
            && price.Some?
  {
    TrimEmpty(firstName);
    TrimEmpty(lastName);
    TrimEmpty(email);
    assert DefaultStatus in Statuses;
  }

  /** Setting the status keeps a conforming booking conforming exactly when
      the new status is one of the enum's values. */
  lemma StatusChangeConforms(b: Booking, status: string)
    ensures Conforms(b) ==> (Conforms(b.(status := status)) <==> status in Statuses)
  {
  }

  /** The compound index `{ user: 1, createdAt: -1 }`: by owner ascending, then newest first. */
  predicate IndexOrdered(list: seq<(Id, Booking)>) {
    forall i, j :: 0 <= i < j < |list| ==>
      list[i].1.user < list[j].1.user || (list[i].1.user == list[j].1.user && list[i].1.createdAt >= list[j].1.createdAt)
  }
}
