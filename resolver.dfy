/** The cluster resolver of routes/identify.js: the match query, the set of
    cluster roots the matches touch, the choice of the oldest root, the merge
    UPDATE and the new-information test of Rule B. */
module Resolver {
  import opened Seqs
  import opened Contacts

  /** The WHERE clause of the match query: the email equals a non-null
      requested email, or the phone equals a non-null requested phone. */
  predicate MatchesInput(c: Contact, e: Option<string>, p: Option<string>) {
    (e.Some? && c.email == e) || (p.Some? && c.phoneNumber == p)
  }

  /** `SELECT * FROM Contact WHERE (email = ? ...) OR (phoneNumber = ? ...)`. */
  function Matches(rows: seq<Contact>, e: Option<string>, p: Option<string>): (r: seq<Contact>)
    ensures forall c :: c in r <==> c in rows && MatchesInput(c, e, p)
    ensures Ordered(rows) ==> Ordered(r)
  {
    var f := (c: Contact) => MatchesInput(c, e, p);
    FilterKeepsOrder(rows, f);
    Filter(rows, f)
  }

  /** What the handler adds to its id set for one match: its own id when it is
      primary, otherwise its `linkedId` (possibly null). */
  function RootRef(c: Contact): Option<nat> {
    if c.linkPrecedence == Primary then Some(c.id) else c.linkedId
  }

  /** The id set accumulated over the matches. */
  function Candidates(ms: seq<Contact>): (r: set<Option<nat>>)
    ensures forall x :: x in r <==> exists c :: c in ms && RootRef(c) == x
    decreases |ms|
  {
    if |ms| == 0 then {}
    else
      assert ms == ms[..|ms| - 1] + [ms[|ms| - 1]];
      Candidates(ms[..|ms| - 1]) + {RootRef(ms[|ms| - 1])}
  }

  /** `SELECT * FROM Contact WHERE id IN (?) ORDER BY createdAt ASC`; a null in
      the list matches no row. */
  function Potentials(rows: seq<Contact>, cands: set<Option<nat>>): (r: seq<Contact>)
    ensures forall c :: c in r <==> c in rows && Some(c.id) in cands
    ensures Ordered(rows) ==> Ordered(r)
  {
    var f := (c: Contact) => Some(c.id) in cands;
    FilterKeepsOrder(rows, f);
    Filter(rows, f)
  }

  /** The root the handler picks, `allPotentialPrimaries[0]`, is the earliest
      created of the potential roots (ties broken by id). */
  lemma RootIsEarliest(rows: seq<Contact>, cands: set<Option<nat>>)
    requires Ordered(rows)
    requires Potentials(rows, cands) != []
    ensures var pots := Potentials(rows, cands);
      && Some(pots[0].id) in cands
      && forall q :: q in pots ==> pots[0].createdAt <= q.createdAt && pots[0].id <= q.id
  {
    var pots := Potentials(rows, cands);
    assert pots[0] in pots;
    forall q | q in pots
      ensures pots[0].createdAt <= q.createdAt && pots[0].id <= q.id
    {
      var k :| 0 <= k < |pots| && pots[k] == q;
    }
  }

  /** When the link invariant holds, every potential root is a primary row:
      a match names either itself (a primary) or the primary it links to. */
  lemma PotentialsArePrimary(rows: seq<Contact>, ms: seq<Contact>)
    requires Ordered(rows) && WellLinked(rows)
    requires forall m :: m in ms ==> m in rows
    ensures forall q :: q in Potentials(rows, Candidates(ms)) ==>
      q.linkPrecedence == Primary && q.id in Primaries(rows)
  {
    forall q | q in Potentials(rows, Candidates(ms))
      ensures q.linkPrecedence == Primary && q.id in Primaries(rows)
    {
      var m :| m in ms && RootRef(m) == Some(q.id);
      if m.linkPrecedence == Primary {
        SameIdSameRow(rows, m, q);
      } else {
        assert q.id in Primaries(rows);
        var d :| d in rows && d.linkPrecedence == Primary && d.id == q.id;
        SameIdSameRow(rows, d, q);
      }
    }
  }

  /** The row as the merge UPDATE leaves it: secondary, linked to the root. */
  function Demote(c: Contact, root: nat): Contact {
    c.(linkedId := Some(root), linkPrecedence := Secondary)
  }

  /** `UPDATE Contact SET linkedId = root, linkPrecedence = 'secondary'
      WHERE id = p OR linkedId = p`. */
  function Reparent(rows: seq<Contact>, p: nat, root: nat): (r: seq<Contact>)
    ensures |r| == |rows|
  {
    seq(|rows|, i requires 0 <= i < |rows| =>
      if rows[i].id == p || rows[i].linkedId == Some(p) then Demote(rows[i], root) else rows[i])
  }

  /** The effect of one merge UPDATE: every row that is `p` or points at `p`
      becomes a secondary of the root, keeping its id, fields and creation
      time; no row points at `p` any more; every other row is unchanged. */
  lemma ReparentEffect(rows: seq<Contact>, p: nat, root: nat)
    requires p != root
    ensures var r := Reparent(rows, p, root);
      && |r| == |rows|
      && (forall i :: 0 <= i < |rows| && (rows[i].id == p || rows[i].linkedId == Some(p)) ==>
            && r[i].linkPrecedence == Secondary && r[i].linkedId == Some(root)
            && r[i].id == rows[i].id && r[i].email == rows[i].email
            && r[i].phoneNumber == rows[i].phoneNumber && r[i].createdAt == rows[i].createdAt)
      && (forall i :: 0 <= i < |rows| && rows[i].id != p && rows[i].linkedId != Some(p) ==> r[i] == rows[i])
      && (forall c :: c in r ==> c.linkedId != Some(p))
  {
    var r := Reparent(rows, p, root);
    forall c | c in r
      ensures c.linkedId != Some(p)
    {
      var i :| 0 <= i < |r| && r[i] == c;
    }
  }

  /** Running the same merge UPDATE again changes nothing. */
  lemma ReparentIdempotent(rows: seq<Contact>, p: nat, root: nat)
    ensures Reparent(Reparent(rows, p, root), p, root) == Reparent(rows, p, root)
  {
    var once := Reparent(rows, p, root);
    var twice := Reparent(once, p, root);
    forall i | 0 <= i < |rows|
      ensures twice[i] == once[i]
    {
      if rows[i].id == p || rows[i].linkedId == Some(p) {
        assert once[i].id == p || once[i].linkedId == Some(root);
      }
    }
  }

  /** The handler's merge loop: one UPDATE per displaced primary, in order. */
  function MergeSeq(rows: seq<Contact>, others: seq<Contact>, root: nat): (r: seq<Contact>)
    ensures |r| == |rows|
    decreases |others|
  {
    if |others| == 0 then rows
    else Reparent(MergeSeq(rows, others[..|others| - 1], root), others[|others| - 1].id, root)
  }

  /** The ids of some rows, as a set. */
  function IdSet(cs: seq<Contact>): set<nat> {
    set c | c in cs :: c.id
  }

  /** A row the merge touches: it is a displaced primary or points at one. */
  predicate Touched(c: Contact, displaced: set<nat>) {
    c.id in displaced || (c.linkedId.Some? && c.linkedId.value in displaced)
  }

  /** The merge in one step, as a reference: every touched row is demoted
      and re-parented to the root; the others are left alone. */
  function MergeSet(rows: seq<Contact>, displaced: set<nat>, root: nat): (r: seq<Contact>)
    ensures |r| == |rows|
  {
    seq(|rows|, i requires 0 <= i < |rows| =>
      if Touched(rows[i], displaced) then Demote(rows[i], root) else rows[i])
  }

  /** One more UPDATE after a one-step merge is the one-step merge of the
      larger set. */
  lemma ReparentAfterMergeSet(rows: seq<Contact>, displaced: set<nat>, p: nat, root: nat)
    requires p != root
    ensures Reparent(MergeSet(rows, displaced, root), p, root) == MergeSet(rows, displaced + {p}, root)
  {
    var a := Reparent(MergeSet(rows, displaced, root), p, root);
    var b := MergeSet(rows, displaced + {p}, root);
    forall i | 0 <= i < |rows|
      ensures a[i] == b[i]
    {
    }
  }

  /** The loop of UPDATEs does the one-step merge of all displaced primaries,
      whatever their order: the loop's result does not depend on it. */
  lemma {:induction false} MergeSeqIsMergeSet(rows: seq<Contact>, others: seq<Contact>, root: nat)
    requires forall q :: q in others ==> q.id != root
    ensures MergeSeq(rows, others, root) == MergeSet(rows, IdSet(others), root)
    decreases |others|
  {
    if |others| == 0 {
      assert MergeSet(rows, {}, root) == rows;
    } else {
      var pre := others[..|others| - 1];
      var last := others[|others| - 1];
      assert others == pre + [last];
      assert IdSet(others) == IdSet(pre) + {last.id};
      MergeSeqIsMergeSet(rows, pre, root);
      ReparentAfterMergeSet(rows, IdSet(pre), last.id, root);
    }
  }

  /** Merging again with the same displaced set and root changes nothing. */
  lemma MergeSetIdempotent(rows: seq<Contact>, displaced: set<nat>, root: nat)
    ensures MergeSet(MergeSet(rows, displaced, root), displaced, root) == MergeSet(rows, displaced, root)
  {
    var once := MergeSet(rows, displaced, root);
    var twice := MergeSet(once, displaced, root);
    forall i | 0 <= i < |rows|
      ensures twice[i] == once[i]
    {
      if Touched(rows[i], displaced) {
        assert Touched(once[i], displaced) ==> twice[i] == Demote(once[i], root);
      }
    }
  }

  /** The merge changes no id or creation time, so it keeps the table well
      formed. */
  lemma MergeKeepsWellFormed(t: Table, displaced: set<nat>, root: nat)
    requires WellFormed(t)
    ensures WellFormed(t.(rows := MergeSet(t.rows, displaced, root)))
  {
    var rows := t.rows;
    var m := MergeSet(rows, displaced, root);
    assert forall i :: 0 <= i < |m| ==> m[i].id == rows[i].id && m[i].createdAt == rows[i].createdAt;
    forall c | c in m
      ensures c.id < t.nextId && c.createdAt < t.clock
    {
      var i :| 0 <= i < |m| && m[i] == c;
      assert rows[i] in rows;
    }
  }

  /** The merge removes exactly the displaced ids from the primaries, when
      primaries carry no link. */
  lemma MergePrimaries(rows: seq<Contact>, displaced: set<nat>, root: nat)
    requires WellLinked(rows)
    ensures Primaries(MergeSet(rows, displaced, root)) == Primaries(rows) - displaced
  {
    var m := MergeSet(rows, displaced, root);
    forall x | x in Primaries(m)
      ensures x in Primaries(rows) - displaced
    {
      var c :| c in m && c.linkPrecedence == Primary && c.id == x;
      var i :| 0 <= i < |m| && m[i] == c;
      assert rows[i] in rows;
    }
    forall x | x in Primaries(rows) - displaced
      ensures x in Primaries(m)
    {
      var c :| c in rows && c.linkPrecedence == Primary && c.id == x;
      var i :| 0 <= i < |rows| && rows[i] == c;
      assert m[i] == c;
    }
  }

  /** The merge keeps the link invariant, provided the root is a primary that
      is not displaced: re-parented rows point at the root, and the rows left
      alone point at primaries that were not displaced. */
  lemma MergeKeepsWellLinked(rows: seq<Contact>, displaced: set<nat>, root: nat)
    requires WellLinked(rows)
    requires root in Primaries(rows) && root !in displaced
    ensures WellLinked(MergeSet(rows, displaced, root))
  {
    var m := MergeSet(rows, displaced, root);
    MergePrimaries(rows, displaced, root);
    forall c | c in m
      ensures if c.linkPrecedence == Primary then c.linkedId == None
              else c.linkedId.Some? && c.linkedId.value in Primaries(m)
    {
      var i :| 0 <= i < |m| && m[i] == c;
      assert rows[i] in rows;
    }
  }

  /** Cluster membership: the row is the root or links to it. */
  predicate InCluster(c: Contact, root: nat) {
    c.id == root || c.linkedId == Some(root)
  }

  /** `SELECT * FROM Contact WHERE id = ? OR linkedId = ? ORDER BY createdAt ASC`. */
  function Cluster(rows: seq<Contact>, root: nat): (r: seq<Contact>)
    ensures forall c :: c in r <==> c in rows && InCluster(c, root)
    ensures Ordered(rows) ==> Ordered(r)
  {
    var f := (c: Contact) => InCluster(c, root);
    FilterKeepsOrder(rows, f);
    Filter(rows, f)
  }

  /** Rule B's test: a requested email that no cluster member has, or a
      requested phone that no cluster member has. */
  predicate IsNewInfo(cluster: seq<Contact>, e: Option<string>, p: Option<string>) {
    (e.Some? && e !in Emails(cluster)) || (p.Some? && p !in Phones(cluster))
  }
}
