/**
 * What the two tables share: opaque identifiers, the three ways a column
 * can appear in an INSERT, the errors PostgreSQL raises for the declared
 * constraints, and the parent tables (rides, users) their foreign keys point to.
 */
module Schema {
  import opened Wrappers

  /** A UUID primary key value; only equality matters. */
  type Uuid = nat

  /** A column in an INSERT: left out (the server default applies), an explicit NULL, or a value. */
  datatype Field<T> = Omitted | Null | Given(value: T)

  /** The error a rejected statement reports, with the column or constraint it names. */
  datatype Violation =
    | IntegerOutOfRange(column: string)
    | NumericFieldOverflow(column: string)
    | ValueTooLong(column: string)
    | NotNullViolation(column: string)
    | CheckViolation(constraint: string)
    | UniqueViolation(constraint: string)
    | ForeignKeyViolation(constraint: string)

  /** The range of an SQL INTEGER column. */
  const Int32Min: int := -0x8000_0000
  const Int32Max: int := 0x7fff_ffff

  predicate IsInt32(x: int) {
    Int32Min <= x <= Int32Max
  }

  /**
   * Assignment to a VARCHAR(n) column, as the SQL standard and PostgreSQL
   * define it: a value of at most n characters is kept; a longer one is
   * refused unless every character past the n-th is a space, in which case
   * it is cut to n characters.
   */
  function ToVarchar(s: string, n: nat): (r: Option<string>)
    ensures r.Some? <==> |s| <= n || forall i | n <= i < |s| :: s[i] == ' '
    ensures r.Some? ==> |r.value| == (if |s| <= n then |s| else n) && r.value == s[..|r.value|]
    ensures r.Some? ==> forall i | |r.value| <= i < |s| :: s[i] == ' '
  {
    if |s| <= n then Some(s)
    else if forall i | n <= i < |s| :: s[i] == ' ' then Some(s[..n])
    else None
  }

  /** The ids present in the parent tables `rides` and `users`. */
  datatype Parents = Parents(rides: set<Uuid>, users: set<Uuid>) {

    /**
     * The parent tables after a ride or user is created or deleted: the
     * created id is added, the deleted id removed, and every other id of
     * either table stays exactly as it was.
     */
    function After(c: ParentChange): (p: Parents)
      ensures forall x :: x in p.rides <==> (x in rides || c == RideCreated(x)) && c != RideDeleted(x)
      ensures forall x :: x in p.users <==> (x in users || c == UserCreated(x)) && c != UserDeleted(x)
    {
      match c
      case RideCreated(r) => this.(rides := rides + {r})
      case UserCreated(u) => this.(users := users + {u})
      case RideDeleted(r) => this.(rides := rides - {r})
      case UserDeleted(u) => this.(users := users - {u})
    }
  }

  /** A change to a parent table; the deletions cascade into the child tables. */
  datatype ParentChange =
    | RideCreated(ride: Uuid)
    | UserCreated(user: Uuid)
    | RideDeleted(ride: Uuid)
    | UserDeleted(user: Uuid)
}
