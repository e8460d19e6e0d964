/**
 * The `reviews` table: one row per review a user writes about another user
 * after a shared ride. The table declares a 1..5 rating check, a composite
 * unique constraint on (ride_id, reviewer_id, reviewee_id), and foreign keys
 * to rides and users that delete the review when its ride or either user is
 * deleted.
 */
module Reviews {
  import opened Wrappers
  import opened Schema

  /** A stored review row. */
  datatype Review = Review(
    id: Uuid,
    rideId: Uuid,
    reviewerId: Uuid,
    revieweeId: Uuid,
    rating: int,
    comment: Option<string>)

  /** The ordered triple the composite unique constraint is on. */
  datatype ReviewKey = ReviewKey(rideId: Uuid, reviewerId: Uuid, revieweeId: Uuid)

  function KeyOf(r: Review): ReviewKey {
    ReviewKey(r.rideId, r.reviewerId, r.revieweeId)
  }

  /** The columns of an INSERT into `reviews`; the id is the value the server generated for it. */
  datatype NewReview = NewReview(
    rideId: Field<Uuid>,
    reviewerId: Field<Uuid>,
    revieweeId: Field<Uuid>,
    rating: Field<int>,
    comment: Field<string>)

  /** The reviews table together with the ride and user ids its foreign keys refer to. */
  datatype ReviewDb = ReviewDb(parents: Parents, rows: seq<Review>)

  const RatingCheck: string := "check_rating_range"
  const PrimaryKey: string := "reviews_pkey"
  const PairUnique: string := "unique_review_per_ride_pair"
  const RideForeignKey: string := "reviews_ride_id_fkey"
  const ReviewerForeignKey: string := "reviews_reviewer_id_fkey"
  const RevieweeForeignKey: string := "reviews_reviewee_id_fkey"

  /** check_rating_range: `rating >= 1 AND rating <= 5`. */
  predicate RatingInRange(rating: int) {
    1 <= rating <= 5
  }

  /** A row satisfies the check constraint and its three foreign keys. */
  ghost predicate RowValid(p: Parents, r: Review) {
    && RatingInRange(r.rating)
    && r.rideId in p.rides
    && r.reviewerId in p.users
    && r.revieweeId in p.users
  }

  /** No two rows share a primary key or a (ride, reviewer, reviewee) triple. */
  ghost predicate Distinct(rows: seq<Review>) {
    forall i, j | 0 <= i < j < |rows| :: rows[i].id != rows[j].id && KeyOf(rows[i]) != KeyOf(rows[j])
  }

  /** Every constraint the table declares holds. */
  ghost predicate Valid(db: ReviewDb) {
    (forall r | r in db.rows :: RowValid(db.parents, r)) && Distinct(db.rows)
  }

  predicate IdTaken(rows: seq<Review>, id: Uuid) {
    exists r | r in rows :: r.id == id
  }

  predicate KeyTaken(rows: seq<Review>, k: ReviewKey) {
    exists r | r in rows :: KeyOf(r) == k
  }

  /** The nullable `comment` column: an omitted or NULL comment is stored as NULL. */
  function OptionalText(f: Field<string>): Option<string> {
    if f.Given? then Some(f.value) else None
  }

  /**
   * INSERT INTO reviews. The checks come in the order PostgreSQL makes them:
   * the INTEGER range of `rating`, NOT NULL in column order, the rating
   * check, the primary key, the composite unique constraint, then the three
   * foreign keys. An accepted row is appended; the other rows stay as they were.
   */
  function Insert(db: ReviewDb, id: Uuid, input: NewReview): (r: Result<ReviewDb, Violation>)
    ensures r.Ok? ==> r.value.parents == db.parents
    ensures r.Ok? ==> |r.value.rows| == |db.rows| + 1 && r.value.rows[..|db.rows|] == db.rows
    ensures r.Ok? ==>
      var row := r.value.rows[|db.rows|];
      && row.id == id
      && input.rideId == Given(row.rideId)
      && input.reviewerId == Given(row.reviewerId)
      && input.revieweeId == Given(row.revieweeId)
      && input.rating == Given(row.rating)
      && (row.comment.Some? <==> input.comment.Given?)
      && (row.comment.Some? ==> row.comment.value == input.comment.value)
  {
    if input.rating.Given? && !IsInt32(input.rating.value) then Err(IntegerOutOfRange("rating"))
    else if !input.rideId.Given? then Err(NotNullViolation("ride_id"))
    else if !input.reviewerId.Given? then Err(NotNullViolation("reviewer_id"))
    else if !input.revieweeId.Given? then Err(NotNullViolation("reviewee_id"))
    else if !input.rating.Given? then Err(NotNullViolation("rating"))
    else
      var row := Review(id, input.rideId.value, input.reviewerId.value, input.revieweeId.value,
                        input.rating.value, OptionalText(input.comment));
      if !RatingInRange(row.rating) then Err(CheckViolation(RatingCheck))
      else if IdTaken(db.rows, id) then Err(UniqueViolation(PrimaryKey))
      else if KeyTaken(db.rows, KeyOf(row)) then Err(UniqueViolation(PairUnique))
      else if row.rideId !in db.parents.rides then Err(ForeignKeyViolation(RideForeignKey))
      else if row.reviewerId !in db.parents.users then Err(ForeignKeyViolation(ReviewerForeignKey))
      else if row.revieweeId !in db.parents.users then Err(ForeignKeyViolation(RevieweeForeignKey))
      else
        assert (db.rows + [row])[..|db.rows|] == db.rows;
        Ok(ReviewDb(db.parents, db.rows + [row]))
  }

  /** The triple an insert would occupy, once its three id columns are given. */
  function InputKey(input: NewReview): ReviewKey
    requires input.rideId.Given? && input.reviewerId.Given? && input.revieweeId.Given?
  {
    ReviewKey(input.rideId.value, input.reviewerId.value, input.revieweeId.value)
  }

  /** The insert is accepted exactly when every declared constraint would hold of the new row. */
  lemma InsertAcceptedIff(db: ReviewDb, id: Uuid, input: NewReview)
    ensures Insert(db, id, input).Ok? <==>
      && input.rideId.Given? && input.reviewerId.Given? && input.revieweeId.Given?
      && input.rating.Given? && 1 <= input.rating.value <= 5
      && (forall r | r in db.rows :: r.id != id && KeyOf(r) != InputKey(input))
      && input.rideId.value in db.parents.rides
      && input.reviewerId.value in db.parents.users
      && input.revieweeId.value in db.parents.users
  {
  }

  /** A rating outside 1..5 is refused, whatever else the insert carries. */
  lemma RatingOutOfRangeRejected(db: ReviewDb, id: Uuid, input: NewReview)
    requires input.rating.Given? && !RatingInRange(input.rating.value)
    ensures Insert(db, id, input).Err?
    ensures IsInt32(input.rating.value) && input.rideId.Given? && input.reviewerId.Given? && input.revieweeId.Given?
      ==> Insert(db, id, input).error == CheckViolation(RatingCheck)
  {
  }

  /** An accepted insert keeps every constraint of the table. */
  lemma InsertPreservesValid(db: ReviewDb, id: Uuid, input: NewReview)
    requires Valid(db) && Insert(db, id, input).Ok?
    ensures Valid(Insert(db, id, input).value)
  {
  }

  /** The rows a parent change deletes through ON DELETE CASCADE. */
  predicate Cascades(c: ParentChange, r: Review) {
    match c
    case RideDeleted(ride) => r.rideId == ride
    case UserDeleted(user) => r.reviewerId == user || r.revieweeId == user
    case _ => false
  }

  /** The rows that survive a parent change: exactly those that do not reference the deleted ride or user. */
  function Cascade(rows: seq<Review>, c: ParentChange): (r: seq<Review>)
    ensures forall x :: x in r <==> x in rows && !Cascades(c, x)
    ensures Distinct(rows) ==> Distinct(r)
    decreases |rows|
  {
    if rows == [] then
      []
    else
      var rest := Cascade(rows[1..], c);
      if Cascades(c, rows[0]) then
        rest
      else
        assert Distinct(rows) ==> forall y | y in rest :: y.id != rows[0].id && KeyOf(y) != KeyOf(rows[0]) by {
          if Distinct(rows) {
            forall y | y in rest ensures y.id != rows[0].id && KeyOf(y) != KeyOf(rows[0]) {
              var k :| 0 <= k < |rows[1..]| && rows[1..][k] == y;
              assert rows[k + 1] == y;
            }
          }
        }
        [rows[0]] + rest
  }

  /** Deleting a ride removes exactly the reviews about that ride. */
  function DeleteRide(db: ReviewDb, ride: Uuid): (r: ReviewDb)
    ensures r.parents.rides == db.parents.rides - {ride} && r.parents.users == db.parents.users
    ensures Valid(db) ==> Valid(r)
    ensures forall x :: x in r.rows <==> x in db.rows && x.rideId != ride
  {
    ReviewDb(db.parents.After(RideDeleted(ride)), Cascade(db.rows, RideDeleted(ride)))
  }

  /** Deleting a user removes exactly the reviews the user wrote or received. */
  function DeleteUser(db: ReviewDb, user: Uuid): (r: ReviewDb)
    ensures r.parents.users == db.parents.users - {user} && r.parents.rides == db.parents.rides
    ensures Valid(db) ==> Valid(r)
    ensures forall x :: x in r.rows <==> x in db.rows && x.reviewerId != user && x.revieweeId != user
  {
    ReviewDb(db.parents.After(UserDeleted(user)), Cascade(db.rows, UserDeleted(user)))
  }

  /** A statement against the database: a change to rides or users, or an INSERT into reviews. */
  datatype ReviewOp =
    | Parent(change: ParentChange)
    | Post(id: Uuid, input: NewReview)

  /**
   * One statement. A parent change updates the parent tables and cascades
   * to the reviews; an accepted INSERT yields the table `Insert` describes;
   * a rejected INSERT leaves the database as it was.
   */
  function Apply(db: ReviewDb, op: ReviewOp): (r: ReviewDb)
    ensures op.Parent? ==> r.parents == db.parents.After(op.change)
    ensures op.Parent? ==> forall x :: x in r.rows <==> x in db.rows && !Cascades(op.change, x)
    ensures op.Post? && Insert(db, op.id, op.input).Ok? ==> r == Insert(db, op.id, op.input).value
    ensures op.Post? && Insert(db, op.id, op.input).Err? ==> r == db
  {
    match op
    case Parent(c) => ReviewDb(db.parents.After(c), Cascade(db.rows, c))
    case Post(id, input) =>
      match Insert(db, id, input)
      case Ok(next) => next
      case Err(_) => db
  }

  function Run(db: ReviewDb, ops: seq<ReviewOp>): ReviewDb
    decreases |ops|
  {
    if ops == [] then db else Run(Apply(db, ops[0]), ops[1..])
  }

  lemma ApplyPreservesValid(db: ReviewDb, op: ReviewOp)
    requires Valid(db)
    ensures Valid(Apply(db, op))
  {
    match op
    case Parent(c) =>
    case Post(id, input) =>
      if Insert(db, id, input).Ok? {
        InsertPreservesValid(db, id, input);
      }
  }

  /**
   * Starting from any valid table, after any sequence of accepted or refused
   * inserts, ride and user creations and cascading deletes, every rating is
   * in 1..5, every reference resolves and no triple or id occurs twice.
   */
  lemma {:induction false} RunPreservesValid(db: ReviewDb, ops: seq<ReviewOp>)
    requires Valid(db)
    ensures Valid(Run(db, ops))
    decreases |ops|
  {
    if ops != [] {
      ApplyPreservesValid(db, ops[0]);
      RunPreservesValid(Apply(db, ops[0]), ops[1..]);
    }
  }

  /** Inserting a review whose triple is already present is refused and changes nothing. */
  lemma DuplicateTripleRejected(db: ReviewDb, id: Uuid, input: NewReview, existing: Review)
    requires existing in db.rows
    requires input.rideId == Given(existing.rideId)
    requires input.reviewerId == Given(existing.reviewerId)
    requires input.revieweeId == Given(existing.revieweeId)
    ensures Insert(db, id, input).Err?
    ensures Apply(db, Post(id, input)) == db
  {
  }

  /**
   * Uniqueness is on the ordered triple only: two inserts that each fit the
   * table and differ in their id and their triple are both accepted, one
   * after the other.
   */
  lemma DifferentTriplesBothAccepted(db: ReviewDb, id1: Uuid, in1: NewReview, id2: Uuid, in2: NewReview)
    requires Insert(db, id1, in1).Ok? && Insert(db, id2, in2).Ok?
    requires id1 != id2 && InputKey(in1) != InputKey(in2)
    ensures Insert(Insert(db, id1, in1).value, id2, in2).Ok?
  {
  }

  /** Two users may review each other on the same ride. */
  lemma MutualReviewsAccepted(db: ReviewDb, ride: Uuid, a: Uuid, b: Uuid, id1: Uuid, id2: Uuid, rating1: int, rating2: int)
    requires ride in db.parents.rides && a in db.parents.users && b in db.parents.users && a != b
    requires id1 != id2 && !IdTaken(db.rows, id1) && !IdTaken(db.rows, id2)
    requires !KeyTaken(db.rows, ReviewKey(ride, a, b)) && !KeyTaken(db.rows, ReviewKey(ride, b, a))
    requires RatingInRange(rating1) && RatingInRange(rating2)
    ensures
      var first := NewReview(Given(ride), Given(a), Given(b), Given(rating1), Omitted);
      var second := NewReview(Given(ride), Given(b), Given(a), Given(rating2), Null);
      |Run(db, [Post(id1, first), Post(id2, second)]).rows| == |db.rows| + 2
  {
    var first := NewReview(Given(ride), Given(a), Given(b), Given(rating1), Omitted);
    var second := NewReview(Given(ride), Given(b), Given(a), Given(rating2), Null);
    assert Insert(db, id1, first).Ok?;
    assert Insert(db, id2, second).Ok?;
    DifferentTriplesBothAccepted(db, id1, first, id2, second);
    var ops := [Post(id1, first), Post(id2, second)];
    var s1 := Apply(db, ops[0]);
    assert ops[1..] == [Post(id2, second)] && ops[1..][1..] == [];
    assert Run(db, ops) == Run(s1, ops[1..]) == Run(Apply(s1, ops[1]), []);
  }
}
