/** The data model: the `Contact` table (setup-db.js) as an in-memory table,
    the value conventions of the request handler, and the table invariants
    the reconciliation keeps. */
module Contacts {
  import opened Seqs

  datatype Option<T> = None | Some(value: T)

  datatype Precedence = Primary | Secondary

  /** One row of the `Contact` table. `createdAt` is the value of a counter
      that the store advances on every insert; `updatedAt` and `deletedAt`
      are never read by the reconciliation and are not modelled. */
  datatype Contact = Contact(
    id: nat,
    email: Option<string>,
    phoneNumber: Option<string>,
    linkedId: Option<nat>,
    linkPrecedence: Precedence,
    createdAt: nat)

  /** The table: its rows in insertion order, the next AUTO_INCREMENT id and
      the next creation time. */
  datatype Table = Table(rows: seq<Contact>, nextId: nat, clock: nat)

  /** The two failures the handler reports: the 400 for a request with
      neither field, and the 500 for everything its `catch` receives. */
  datatype Error = ValidationError | InternalError

  datatype Result<T> = Ok(value: T) | Err(error: Error)

  /** JavaScript truthiness of a request field: present and not empty. */
  predicate Truthy(v: Option<string>) {
    v.Some? && v.value != ""
  }

  /** `x || null`: a falsy field is sent to the database as NULL. */
  function Normalize(v: Option<string>): (r: Option<string>)
    ensures r.Some? <==> Truthy(v)
    ensures r.Some? ==> r == v
  {
    if Truthy(v) then v else None
  }

  /** Rows are kept in creation order: ids strictly increase (AUTO_INCREMENT)
      and creation times never decrease, so table order is the order of
      `ORDER BY createdAt` with ties broken by id. */
  ghost predicate Ordered(rows: seq<Contact>) {
    forall i, j :: 0 <= i < j < |rows| ==> rows[i].id < rows[j].id && rows[i].createdAt <= rows[j].createdAt
  }

  /** The table's own invariant: ordered rows, and counters ahead of every row. */
  ghost predicate WellFormed(t: Table) {
    && Ordered(t.rows)
    && forall c :: c in t.rows ==> c.id < t.nextId && c.createdAt < t.clock
  }

  /** The freshly created table: no rows, ids from 1. */
  const Empty := Table([], 1, 0)

  /** The ids of the primary rows. */
  function Primaries(rows: seq<Contact>): set<nat> {
    set c | c in rows && c.linkPrecedence == Primary :: c.id
  }

  /** The link invariant of the schema: a primary has no `linkedId`, and every
      secondary's `linkedId` names a primary row (so links are one level deep). */
  ghost predicate WellLinked(rows: seq<Contact>) {
    forall c :: c in rows ==>
      if c.linkPrecedence == Primary then c.linkedId == None
      else c.linkedId.Some? && c.linkedId.value in Primaries(rows)
  }

  /** The seniority invariant: no row was created before the row it links
      to, so a root is never younger than its cluster. */
  ghost predicate RootsOldest(rows: seq<Contact>) {
    forall c, d :: c in rows && d in rows && c.linkedId == Some(d.id) ==> d.createdAt <= c.createdAt
  }

  /** `INSERT INTO Contact (...)`: the new row takes the next id and the
      current creation time. */
  function InsertRow(t: Table, email: Option<string>, phone: Option<string>, linkedId: Option<nat>, prec: Precedence): Table {
    Table(t.rows + [Contact(t.nextId, email, phone, linkedId, prec, t.clock)], t.nextId + 1, t.clock + 1)
  }

  /** An insert keeps the table well formed, and the new row's id is fresh. */
  lemma InsertKeepsWellFormed(t: Table, email: Option<string>, phone: Option<string>, linkedId: Option<nat>, prec: Precedence)
    requires WellFormed(t)
    ensures WellFormed(InsertRow(t, email, phone, linkedId, prec))
    ensures forall c :: c in t.rows ==> c.id != t.nextId
  {
    var rows' := InsertRow(t, email, phone, linkedId, prec).rows;
    forall i, j | 0 <= i < j < |rows'|
      ensures rows'[i].id < rows'[j].id && rows'[i].createdAt <= rows'[j].createdAt
    {
      if j == |t.rows| {
        assert rows'[i] in t.rows;
      }
    }
  }

  /** Appending a row whose link is sound keeps the link invariant, and
      every primary stays primary. */
  lemma AppendKeepsWellLinked(rows: seq<Contact>, c: Contact)
    requires WellLinked(rows)
    requires if c.linkPrecedence == Primary then c.linkedId == None
             else c.linkedId.Some? && c.linkedId.value in Primaries(rows)
    ensures WellLinked(rows + [c])
    ensures Primaries(rows) <= Primaries(rows + [c])
    ensures c.linkPrecedence == Primary ==> c.id in Primaries(rows + [c])
  {
    var rows' := rows + [c];
    assert forall d :: d in rows ==> d in rows';
    assert c in rows';
  }

  /** In ordered rows, the id identifies the row. */
  lemma SameIdSameRow(rows: seq<Contact>, c: Contact, d: Contact)
    requires Ordered(rows) && c in rows && d in rows && c.id == d.id
    ensures c == d
  {
    var i :| 0 <= i < |rows| && rows[i] == c;
    var j :| 0 <= j < |rows| && rows[j] == d;
    assert i == j;
  }

  /** In ordered rows, no other row shares the id of row `d`. */
  lemma IdIdentifies(rows: seq<Contact>, d: Contact)
    requires Ordered(rows) && d in rows
    ensures forall c :: c in rows && c.id == d.id ==> c == d
  {
    forall c | c in rows && c.id == d.id
      ensures c == d
    {
      SameIdSameRow(rows, c, d);
    }
  }

  /** In ordered rows, a secondary's id is not the id of a primary. */
  lemma SecondaryIdNotPrimary(rows: seq<Contact>, c: Contact)
    requires Ordered(rows) && c in rows && c.linkPrecedence == Secondary
    ensures c.id !in Primaries(rows)
  {
    IdIdentifies(rows, c);
  }

  /** Every SELECT of the handler is a filter of the table, so it returns its
      rows in creation order. */
  lemma {:induction false} FilterKeepsOrder(rows: seq<Contact>, f: Contact -> bool)
    ensures Ordered(rows) ==> Ordered(Filter(rows, f))
    decreases |rows|
  {
    if |rows| > 0 && Ordered(rows) {
      var pre := rows[..|rows| - 1];
      var last := rows[|rows| - 1];
      assert Ordered(pre);
      FilterKeepsOrder(pre, f);
      var r := Filter(rows, f);
      var fp := Filter(pre, f);
      forall i, j | 0 <= i < j < |r|
        ensures r[i].id < r[j].id && r[i].createdAt <= r[j].createdAt
      {
        if j >= |fp| {
          assert r[j] == last;
          assert r[i] in pre;
          var k :| 0 <= k < |pre| && pre[k] == r[i];
          assert rows[k] == r[i];
        } else {
          assert r[i] == fp[i] && r[j] == fp[j];
        }
      }
    }
  }

  /** The ids of some rows, in order. */
  function Ids(cs: seq<Contact>): (r: seq<nat>)
    ensures |r| == |cs|
    ensures forall x :: x in r <==> exists c :: c in cs && c.id == x
    ensures forall i :: 0 <= i < |cs| ==> r[i] == cs[i].id
    decreases |cs|
  {
    if |cs| == 0 then []
    else
      assert cs == cs[..|cs| - 1] + [cs[|cs| - 1]];
      Ids(cs[..|cs| - 1]) + [cs[|cs| - 1].id]
  }

  /** The emails of some rows, in order (`map(c => c.email)`). */
  function Emails(cs: seq<Contact>): (r: seq<Option<string>>)
    ensures |r| == |cs|
    ensures forall x :: x in r <==> exists c :: c in cs && c.email == x
    ensures forall i :: 0 <= i < |cs| ==> r[i] == cs[i].email
    decreases |cs|
  {
    if |cs| == 0 then []
    else
      assert cs == cs[..|cs| - 1] + [cs[|cs| - 1]];
      Emails(cs[..|cs| - 1]) + [cs[|cs| - 1].email]
  }

  /** The phone numbers of some rows, in order (`map(c => c.phoneNumber)`). */
  function Phones(cs: seq<Contact>): (r: seq<Option<string>>)
    ensures |r| == |cs|
    ensures forall x :: x in r <==> exists c :: c in cs && c.phoneNumber == x
    ensures forall i :: 0 <= i < |cs| ==> r[i] == cs[i].phoneNumber
    decreases |cs|
  {
    if |cs| == 0 then []
    else
      assert cs == cs[..|cs| - 1] + [cs[|cs| - 1]];
      Phones(cs[..|cs| - 1]) + [cs[|cs| - 1].phoneNumber]
  }
}
