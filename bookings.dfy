/**
 * The `bookings` table: a passenger's reservation of seats on a ride. The
 * table declares three checks (at least one seat, a non-negative amount, a
 * status out of four fixed strings), server defaults for the amount (0.00)
 * and the status ("pending"), and foreign keys to the ride and the
 * passenger that delete the booking with either of them.
 */
module Bookings {
  import opened Wrappers
  import opened Schema

  /** A stored booking row; `amount_paid`, a NUMERIC(6,2), is held in cents. */
  datatype Booking = Booking(
    id: Uuid,
    rideId: Uuid,
    passengerId: Uuid,
    seatsReserved: int,
    amountPaidCents: int,
    status: string)

  /** The columns of an INSERT into `bookings`; the id is the value the server generated for it. */
  datatype NewBooking = NewBooking(
    rideId: Field<Uuid>,
    passengerId: Field<Uuid>,
    seatsReserved: Field<int>,
    amountPaidCents: Field<int>,
    status: Field<string>)

  /** The bookings table together with the ride and user ids its foreign keys refer to. */
  datatype BookingDb = BookingDb(parents: Parents, rows: seq<Booking>)

  /** NUMERIC(6,2) holds at most 9999.99, that is 999999 cents, in absolute value. */
  const MaxAmountCents: int := 999999
  /** `status` is a String(20). */
  const StatusMaxLength: int := 20
  const DefaultAmountCents: int := 0
  const DefaultStatus: string := "pending"
  const Statuses: set<string> := {"pending", "confirmed", "cancelled", "completed"}

  const AmountCheck: string := "check_amount_positive"
  const StatusCheck: string := "check_booking_status"
  const SeatsCheck: string := "check_seats_reserved_positive"
  const PrimaryKey: string := "bookings_pkey"
  const RideForeignKey: string := "bookings_ride_id_fkey"
  const PassengerForeignKey: string := "bookings_passenger_id_fkey"

  /** A row satisfies the three check constraints, the column types and its two foreign keys. */
  ghost predicate RowValid(p: Parents, b: Booking) {
    && IsInt32(b.seatsReserved) && b.seatsReserved > 0
    && 0 <= b.amountPaidCents <= MaxAmountCents
    && b.status in Statuses
    && b.rideId in p.rides
    && b.passengerId in p.users
  }

  /** No two rows share a primary key. */
  ghost predicate Distinct(rows: seq<Booking>) {
    forall i, j | 0 <= i < j < |rows| :: rows[i].id != rows[j].id
  }

  /** Every constraint the table declares holds. */
  ghost predicate Valid(db: BookingDb) {
    (forall b | b in db.rows :: RowValid(db.parents, b)) && Distinct(db.rows)
  }

  predicate IdTaken(rows: seq<Booking>, id: Uuid) {
    exists b | b in rows :: b.id == id
  }

  /** A column left out of the INSERT takes its server default. */
  function WithDefault<T>(f: Field<T>, default: T): Field<T> {
    if f.Omitted? then Given(default) else f
  }

  /**
   * INSERT INTO bookings. The checks come in the order PostgreSQL makes them:
   * conversion to the column types (INTEGER, NUMERIC(6,2), String(20)), the
   * server defaults, NOT NULL in column order, the check constraints in
   * alphabetical order of their names, the primary key, then the two
   * foreign keys. An accepted row is appended; the other rows stay as they were.
   */
  function Insert(db: BookingDb, id: Uuid, input: NewBooking): (r: Result<BookingDb, Violation>)
    ensures r.Ok? ==> r.value.parents == db.parents
    ensures r.Ok? ==> |r.value.rows| == |db.rows| + 1 && r.value.rows[..|db.rows|] == db.rows
    ensures r.Ok? ==>
      var row := r.value.rows[|db.rows|];
      && row.id == id
      && input.rideId == Given(row.rideId)
      && input.passengerId == Given(row.passengerId)
      && input.seatsReserved == Given(row.seatsReserved)
      && (if input.amountPaidCents.Omitted? then row.amountPaidCents == 0
          else input.amountPaidCents == Given(row.amountPaidCents))
      && (if input.status.Omitted? then row.status == "pending"
          else input.status == Given(row.status))
  {
    var amount := WithDefault(input.amountPaidCents, DefaultAmountCents);
    var status := WithDefault(input.status, DefaultStatus);
    if input.seatsReserved.Given? && !IsInt32(input.seatsReserved.value) then
      Err(IntegerOutOfRange("seats_reserved"))
    else if amount.Given? && !(-MaxAmountCents <= amount.value <= MaxAmountCents) then
      Err(NumericFieldOverflow("amount_paid"))
    else if status.Given? && ToVarchar(status.value, StatusMaxLength).None? then
      Err(ValueTooLong("status"))
    else if !input.rideId.Given? then Err(NotNullViolation("ride_id"))
    else if !input.passengerId.Given? then Err(NotNullViolation("passenger_id"))
    else if !input.seatsReserved.Given? then Err(NotNullViolation("seats_reserved"))
    else if !amount.Given? then Err(NotNullViolation("amount_paid"))
    else if !status.Given? then Err(NotNullViolation("status"))
    else
      var stored := ToVarchar(status.value, StatusMaxLength).value;
      var row := Booking(id, input.rideId.value, input.passengerId.value,
                         input.seatsReserved.value, amount.value, stored);
      if !(row.amountPaidCents >= 0) then Err(CheckViolation(AmountCheck))
      else if row.status !in Statuses then Err(CheckViolation(StatusCheck))
      else if !(row.seatsReserved > 0) then Err(CheckViolation(SeatsCheck))
      else if IdTaken(db.rows, id) then Err(UniqueViolation(PrimaryKey))
      else if row.rideId !in db.parents.rides then Err(ForeignKeyViolation(RideForeignKey))
      else if row.passengerId !in db.parents.users then Err(ForeignKeyViolation(PassengerForeignKey))
      else
        assert (db.rows + [row])[..|db.rows|] == db.rows;
        Ok(BookingDb(db.parents, db.rows + [row]))
  }

  /** The insert is accepted exactly when every declared constraint would hold of the new row. */
  lemma InsertAcceptedIff(db: BookingDb, id: Uuid, input: NewBooking)
    ensures Insert(db, id, input).Ok? <==>
      && input.rideId.Given? && input.passengerId.Given? && input.seatsReserved.Given?
      && 1 <= input.seatsReserved.value <= Int32Max
      && (input.amountPaidCents.Null? ==> false)
      && (input.amountPaidCents.Given? ==> 0 <= input.amountPaidCents.value <= 999999)
      && (input.status.Null? ==> false)
      && (input.status.Given? ==>
            input.status.value == "pending" || input.status.value == "confirmed"
            || input.status.value == "cancelled" || input.status.value == "completed")
      && (forall b | b in db.rows :: b.id != id)
      && input.rideId.value in db.parents.rides
      && input.passengerId.value in db.parents.users
  {
  }

  /**
   * A booking that leaves out the amount and the status is stored as paid
   * 0.00 and "pending", and is accepted whenever it reserves at least one
   * seat with a fresh id on an existing ride and passenger.
   */
  lemma DefaultsApply(db: BookingDb, id: Uuid, ride: Uuid, passenger: Uuid, seats: int)
    requires 1 <= seats <= Int32Max
    requires !IdTaken(db.rows, id) && ride in db.parents.rides && passenger in db.parents.users
    ensures
      var r := Insert(db, id, NewBooking(Given(ride), Given(passenger), Given(seats), Omitted, Omitted));
      && r.Ok?
      && r.value.rows[|db.rows|] == Booking(id, ride, passenger, seats, 0, "pending")
      && RowValid(db.parents, r.value.rows[|db.rows|])
  {
  }

  /** An accepted insert keeps every constraint of the table. */
  lemma InsertPreservesValid(db: BookingDb, id: Uuid, input: NewBooking)
    requires Valid(db) && Insert(db, id, input).Ok?
    ensures Valid(Insert(db, id, input).value)
  {
  }

  /** Every row with the given id gets the new status; nothing else changes. */
  function SetStatus(rows: seq<Booking>, id: Uuid, status: string): (r: seq<Booking>)
    ensures |r| == |rows|
    ensures forall i | 0 <= i < |rows| :: r[i] == if rows[i].id == id then rows[i].(status := status) else rows[i]
    decreases |rows|
  {
    if rows == [] then []
    else [if rows[0].id == id then rows[0].(status := status) else rows[0]] + SetStatus(rows[1..], id, status)
  }

  /**
   * UPDATE bookings SET status = ... WHERE id = ...: the new value is
   * converted to String(20) when the statement is planned, so a value that
   * does not fit is refused even when no row matches; then no row to update
   * changes nothing; otherwise the converted value must be non-NULL and one
   * of the four statuses, in any order of transitions.
   */
  function UpdateStatus(db: BookingDb, id: Uuid, status: Option<string>): (r: Result<BookingDb, Violation>)
    ensures status.Some? && ToVarchar(status.value, StatusMaxLength).None? ==> r == Err(ValueTooLong("status"))
    ensures !IdTaken(db.rows, id) && (status.None? || ToVarchar(status.value, StatusMaxLength).Some?) ==>
      r == Ok(db)
    ensures r.Err? ==>
      r.error == ValueTooLong("status") || r.error == NotNullViolation("status") || r.error == CheckViolation(StatusCheck)
    ensures r.Ok? ==> r.value.parents == db.parents && |r.value.rows| == |db.rows|
  {
    if status.Some? && ToVarchar(status.value, StatusMaxLength).None? then Err(ValueTooLong("status"))
    else if !IdTaken(db.rows, id) then Ok(db)
    else if status.None? then Err(NotNullViolation("status"))
    else
      var stored := ToVarchar(status.value, StatusMaxLength).value;
      if stored !in Statuses then Err(CheckViolation(StatusCheck))
      else Ok(BookingDb(db.parents, SetStatus(db.rows, id, stored)))
  }

  /**
   * A status longer than String(20) is never stored. On an existing
   * booking it is refused: as too long, unless everything past the 20th
   * character is spaces, in which case the value is cut to 20 characters
   * and the status check refuses it.
   */
  lemma OverlongStatusNeverStored(db: BookingDb, id: Uuid, s: string)
    requires |s| > StatusMaxLength
    ensures UpdateStatus(db, id, Some(s)).Ok? ==> UpdateStatus(db, id, Some(s)).value == db
    ensures IdTaken(db.rows, id) ==>
      UpdateStatus(db, id, Some(s)) ==
        if forall i | StatusMaxLength <= i < |s| :: s[i] == ' ' then Err(CheckViolation(StatusCheck))
        else Err(ValueTooLong("status"))
  {
  }

  /**
   * On an existing booking, the update succeeds exactly when the new status
   * is one of the four allowed strings, whatever the current status is; the
   * booking then carries that status with all its other fields unchanged,
   * and every other booking is untouched.
   */
  lemma UpdateStatusSpec(db: BookingDb, id: Uuid, status: Option<string>)
    requires IdTaken(db.rows, id)
    ensures UpdateStatus(db, id, status).Ok? <==>
      status.Some? && (status.value == "pending" || status.value == "confirmed"
                       || status.value == "cancelled" || status.value == "completed")
    ensures UpdateStatus(db, id, status).Ok? ==>
      var next := UpdateStatus(db, id, status).value;
      && next.parents == db.parents
      && |next.rows| == |db.rows|
      && forall i | 0 <= i < |db.rows| ::
           if db.rows[i].id == id then
             next.rows[i] == Booking(id, db.rows[i].rideId, db.rows[i].passengerId,
                                     db.rows[i].seatsReserved, db.rows[i].amountPaidCents, status.value)
           else next.rows[i] == db.rows[i]
  {
  }

  /** An accepted status update keeps every constraint of the table. */
  lemma UpdateStatusPreservesValid(db: BookingDb, id: Uuid, status: Option<string>)
    requires Valid(db) && UpdateStatus(db, id, status).Ok?
    ensures Valid(UpdateStatus(db, id, status).value)
  {
  }

  /** The rows a parent change deletes through ON DELETE CASCADE. */
  predicate Cascades(c: ParentChange, b: Booking) {
    match c
    case RideDeleted(ride) => b.rideId == ride
    case UserDeleted(user) => b.passengerId == user
    case _ => false
  }

  /**
   * The rows that survive a parent change: exactly those that do not
   * reference the deleted ride or passenger. The filter has the same shape
   * as `Reviews.Cascade`; only the referencing columns and the uniqueness
   * constraints it must keep differ, since the two tables share no row type.
   */
  function Cascade(rows: seq<Booking>, c: ParentChange): (r: seq<Booking>)
    ensures forall x :: x in r <==> x in rows && !Cascades(c, x)
    ensures Distinct(rows) ==> Distinct(r)
    decreases |rows|
  {
    if rows == [] then
      []
    else
      var rest := Cascade(rows[1..], c);
      if Cascades(c, rows[0]) then
        rest
      else
        assert Distinct(rows) ==> forall y | y in rest :: y.id != rows[0].id by {
          if Distinct(rows) {
            forall y | y in rest ensures y.id != rows[0].id {
              var k :| 0 <= k < |rows[1..]| && rows[1..][k] == y;
              assert rows[k + 1] == y;
            }
          }
        }
        [rows[0]] + rest
  }

  /** Deleting a ride removes exactly its bookings. */
  function DeleteRide(db: BookingDb, ride: Uuid): (r: BookingDb)
    ensures r.parents.rides == db.parents.rides - {ride} && r.parents.users == db.parents.users
    ensures Valid(db) ==> Valid(r)
    ensures forall x :: x in r.rows <==> x in db.rows && x.rideId != ride
  {
    BookingDb(db.parents.After(RideDeleted(ride)), Cascade(db.rows, RideDeleted(ride)))
  }

  /** Deleting a user removes exactly the bookings in which the user is the passenger. */
  function DeleteUser(db: BookingDb, user: Uuid): (r: BookingDb)
    ensures r.parents.users == db.parents.users - {user} && r.parents.rides == db.parents.rides
    ensures Valid(db) ==> Valid(r)
    ensures forall x :: x in r.rows <==> x in db.rows && x.passengerId != user
  {
    BookingDb(db.parents.After(UserDeleted(user)), Cascade(db.rows, UserDeleted(user)))
  }

  /** A statement against the database: a change to rides or users, an INSERT or a status UPDATE. */
  datatype BookingOp =
    | Parent(change: ParentChange)
    | Book(id: Uuid, input: NewBooking)
    | SetBookingStatus(id: Uuid, status: Option<string>)

  /**
   * One statement. A parent change updates the parent tables and cascades
   * to the bookings; an accepted INSERT or UPDATE yields the table `Insert`
   * or `UpdateStatus` describes; a rejected statement leaves the database
   * as it was.
   */
  function Apply(db: BookingDb, op: BookingOp): (r: BookingDb)
    ensures op.Parent? ==> r.parents == db.parents.After(op.change)
    ensures op.Parent? ==> forall x :: x in r.rows <==> x in db.rows && !Cascades(op.change, x)
    ensures op.Book? && Insert(db, op.id, op.input).Ok? ==> r == Insert(db, op.id, op.input).value
    ensures op.Book? && Insert(db, op.id, op.input).Err? ==> r == db
    ensures op.SetBookingStatus? && UpdateStatus(db, op.id, op.status).Ok? ==>
      r == UpdateStatus(db, op.id, op.status).value
    ensures op.SetBookingStatus? && UpdateStatus(db, op.id, op.status).Err? ==> r == db
  {
    match op
    case Parent(c) => BookingDb(db.parents.After(c), Cascade(db.rows, c))
    case Book(id, input) =>
      (match Insert(db, id, input)
       case Ok(next) => next
       case Err(_) => db)
    case SetBookingStatus(id, status) =>
      match UpdateStatus(db, id, status)
      case Ok(next) => next
      case Err(_) => db
  }

  function Run(db: BookingDb, ops: seq<BookingOp>): BookingDb
    decreases |ops|
  {
    if ops == [] then db else Run(Apply(db, ops[0]), ops[1..])
  }

  lemma ApplyPreservesValid(db: BookingDb, op: BookingOp)
    requires Valid(db)
    ensures Valid(Apply(db, op))
  {
    match op
    case Parent(c) =>
    case Book(id, input) =>
      if Insert(db, id, input).Ok? {
        InsertPreservesValid(db, id, input);
      }
    case SetBookingStatus(id, status) =>
      if UpdateStatus(db, id, status).Ok? {
        UpdateStatusPreservesValid(db, id, status);
      }
  }

  /**
   * Starting from any valid table, after any sequence of inserts, status
   * updates, ride and user creations and cascading deletes, every booking
   * has at least one seat, an amount in 0..9999.99, an allowed status and
   * existing ride and passenger, and no id occurs twice. The induction is
   * the one of `Reviews.RunPreservesValid`, over this table's statements.
   */
  lemma {:induction false} RunPreservesValid(db: BookingDb, ops: seq<BookingOp>)
    requires Valid(db)
    ensures Valid(Run(db, ops))
    decreases |ops|
  {
    if ops != [] {
      ApplyPreservesValid(db, ops[0]);
      RunPreservesValid(Apply(db, ops[0]), ops[1..]);
    }
  }
}
