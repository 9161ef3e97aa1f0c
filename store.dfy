/** The `Contact` table as the handler sees it through its connection pool:
    a mutable store whose writes are the two statements the handler issues,
    the INSERT and the merge UPDATE. Reads are the functions of module
    Resolver applied to `rows`. */
module Store {
  import opened Contacts
  import opened Resolver

  class ContactStore {
    /** The rows, in insertion order. */
    var rows: seq<Contact>
    /** The next AUTO_INCREMENT id. */
    var nextId: nat
    /** The creation time the next insert records. */
    var clock: nat

    /** The table the store holds. */
    function State(): Table
      reads this
    {
      Table(rows, nextId, clock)
    }

    /** The invariants that every request keeps. They hold between requests,
        not between statements: a single `Insert` with an arbitrary
        `linkedId`, or a `Relink` to a secondary, can break them, so those
        methods neither require nor ensure them, and `PostIdentify` is the
        method that keeps them. */
    ghost predicate Valid()
      reads this
    {
      WellFormed(State()) && WellLinked(rows) && RootsOldest(rows)
    }

    /** The freshly created table: no rows, ids from 1. */
    constructor ()
      ensures State() == Empty
      ensures Valid()
    {
      rows := [];
      nextId := 1;
      clock := 0;
    }

    /** `INSERT INTO Contact (email, phoneNumber, linkedId, linkPrecedence)`,
        returning `insertId`. */
    method Insert(email: Option<string>, phone: Option<string>, linkedId: Option<nat>, prec: Precedence)
      returns (insertId: nat)
      modifies this
      ensures State() == InsertRow(old(State()), email, phone, linkedId, prec)
      ensures insertId == old(nextId)
      ensures rows[|rows| - 1].id == insertId
    {
      insertId := nextId;
      rows := rows + [Contact(nextId, email, phone, linkedId, prec, clock)];
      nextId := nextId + 1;
      clock := clock + 1;
    }

    /** `UPDATE Contact SET linkedId = root, linkPrecedence = 'secondary'
        WHERE id = p OR linkedId = p`: no row is added and no counter moves. */
    method Relink(p: nat, root: nat)
      modifies this
      ensures rows == Reparent(old(rows), p, root)
      ensures nextId == old(nextId) && clock == old(clock)
    {
      rows := Reparent(rows, p, root);
    }
  }
}
