/** The invariant behind "the absolute oldest root primary": no row is
    older than the row it links to. It holds after every request, so the
    root of every cluster is its oldest member, older in particular than
    every primary it has displaced. */
module Seniority {
  import opened Seqs
  import opened Contacts
  import opened Resolver
  import opened Reconcile

  /** In a well-formed, well-linked table every link names an existing id,
      so it is below the next id. */
  lemma LinksBelowNextId(t: Table)
    requires WellFormed(t) && WellLinked(t.rows)
    ensures forall a :: a in t.rows && a.linkedId.Some? ==> a.linkedId.value < t.nextId
  {
    forall a | a in t.rows && a.linkedId.Some?
      ensures a.linkedId.value < t.nextId
    {
      var q :| q in t.rows && q.linkPrecedence == Primary && q.id == a.linkedId.value;
    }
  }

  /** Appending a row created now, linked to nothing or to an existing id,
      keeps every row no older than the row it links to. */
  lemma AppendKeepsRootsOldest(t: Table, c: Contact)
    requires WellFormed(t) && WellLinked(t.rows) && RootsOldest(t.rows)
    requires c.id == t.nextId && c.createdAt == t.clock
    requires c.linkedId.Some? ==> c.linkedId.value < t.nextId
    ensures RootsOldest(t.rows + [c])
  {
    LinksBelowNextId(t);
  }

  /** The one-step merge keeps the invariant when the root is no younger
      than any displaced primary: a relinked row was a displaced primary or
      was linked to one, and so is no older than the root. */
  lemma MergeSetKeepsRootsOldest(rows: seq<Contact>, displaced: set<nat>, root: Contact)
    requires RootsOldest(rows)
    requires root in rows && forall q :: q in rows && q.id == root.id ==> q == root
    requires displaced <= Primaries(rows)
    requires forall q :: q in rows && q.id in displaced ==> root.createdAt <= q.createdAt
    ensures RootsOldest(MergeSet(rows, displaced, root.id))
  {
    var m := MergeSet(rows, displaced, root.id);
    forall c, d | c in m && d in m && c.linkedId == Some(d.id)
      ensures d.createdAt <= c.createdAt
    {
      var i :| 0 <= i < |m| && m[i] == c;
      var j :| 0 <= j < |m| && m[j] == d;
      assert rows[i] in rows && rows[j] in rows;
      if Touched(rows[i], displaced) {
        assert rows[j] == root;
        if rows[i].id !in displaced {
          var q :| q in rows && q.linkPrecedence == Primary && q.id == rows[i].linkedId.value;
          assert q.createdAt <= rows[i].createdAt;
        }
      }
    }
  }

  /** The handler's merge loop relinks every touched row to the oldest
      touched root, so it keeps the invariant. */
  lemma MergeKeepsRootsOldest(t: Table, ms: seq<Contact>, pots: seq<Contact>)
    requires WellFormed(t) && WellLinked(t.rows) && RootsOldest(t.rows)
    requires forall m :: m in ms ==> m in t.rows
    requires pots == Potentials(t.rows, Candidates(ms)) && pots != []
    ensures RootsOldest(MergeSeq(t.rows, pots[1..], pots[0].id))
  {
    var rows := t.rows;
    var root := pots[0];
    var displaced := IdSet(pots[1..]);
    SplitRoots(rows, Candidates(ms), pots);
    RootsArePrimaries(rows, ms, pots);
    RootIsEarliest(rows, Candidates(ms));
    assert forall q :: q in pots[1..] ==> q.id in displaced;
    MergeSeqIsMergeSet(rows, pots[1..], root.id);
    assert root in rows;
    IdIdentifies(rows, root);
    forall q | q in rows && q.id in displaced
      ensures root.createdAt <= q.createdAt
    {
      var p :| p in pots[1..] && p.id == q.id;
      assert p in pots;
      SameIdSameRow(rows, p, q);
    }
    MergeSetKeepsRootsOldest(rows, displaced, root);
  }

  /** Rule B's insert links the new row to a primary of the table, which is
      older than the new row. */
  lemma AddIfNewKeepsRootsOldest(t: Table, root: nat, e: Option<string>, p: Option<string>)
    requires WellFormed(t) && WellLinked(t.rows) && RootsOldest(t.rows)
    requires root in Primaries(t.rows)
    ensures RootsOldest(AddIfNew(t, root, e, p).rows)
  {
    var k :| k in t.rows && k.linkPrecedence == Primary && k.id == root;
    AppendKeepsRootsOldest(t, Contact(t.nextId, e, p, Some(root), Secondary, t.clock));
  }

  /** Every request on a well-formed, well-linked table keeps the invariant. */
  lemma IdentifyKeepsRootsOldest(t: Table, email: Option<string>, phone: Option<string>)
    requires WellFormed(t) && WellLinked(t.rows) && RootsOldest(t.rows)
    ensures RootsOldest(Identify(t, email, phone).after.rows)
  {
    if Truthy(email) || Truthy(phone) {
      var e := Normalize(email);
      var p := Normalize(phone);
      var ms := Matches(t.rows, e, p);
      if ms == [] {
        AppendKeepsRootsOldest(t, Contact(t.nextId, e, p, None, Primary, t.clock));
      } else {
        var pots := TouchedRoots(t, e, p);
        MergedCluster(t, ms, Candidates(ms), pots);
        MergeKeepsRootsOldest(t, ms, pots);
        var merged := t.(rows := MergeSeq(t.rows, pots[1..], pots[0].id));
        AddIfNewKeepsRootsOldest(merged, pots[0].id, e, p);
        LinkAfter(t, e, p, pots);
      }
    }
  }

  /** Under the invariant, a primary is the oldest member of its cluster. */
  lemma PrimaryIsOldest(rows: seq<Contact>, k: Contact)
    requires Ordered(rows) && RootsOldest(rows)
    requires k in rows && k.linkPrecedence == Primary
    ensures forall c :: c in Cluster(rows, k.id) ==> k.createdAt <= c.createdAt
  {
    IdIdentifies(rows, k);
  }
}
