/** What one POST /identify request promises, stated on the function
    `Reconcile.Identify`: its effect on the table under Rules A, B and C, the
    root it picks, the response it sends, and the invariants that every
    series of requests keeps. */
module Properties {
  import opened Seqs
  import opened Contacts
  import opened Resolver
  import opened Projection
  import opened Reconcile
  import opened Seniority

  /** Some row of a touched cluster has email `e`. */
  ghost predicate KnownEmail(rows: seq<Contact>, cands: set<Option<nat>>, e: Option<string>) {
    exists c :: c in rows && RootRef(c) in cands && c.email == e
  }

  /** Some row of a touched cluster has phone number `p`. */
  ghost predicate KnownPhone(rows: seq<Contact>, cands: set<Option<nat>>, p: Option<string>) {
    exists c :: c in rows && RootRef(c) in cands && c.phoneNumber == p
  }

  /** The emails of the merged cluster are those of the clusters the
      request touched. */
  lemma MergedKnownEmail(rows: seq<Contact>, m: seq<Contact>, root: nat, cands: set<Option<nat>>, e: Option<string>)
    requires |m| == |rows|
    requires forall i :: 0 <= i < |rows| ==> m[i].email == rows[i].email
    requires forall i :: 0 <= i < |rows| ==> (InCluster(m[i], root) <==> RootRef(rows[i]) in cands)
    ensures e in Emails(Cluster(m, root)) <==> KnownEmail(rows, cands, e)
  {
    var cl := Cluster(m, root);
    if e in Emails(cl) {
      var c :| c in cl && c.email == e;
      var i :| 0 <= i < |m| && m[i] == c;
      assert rows[i] in rows;
    }
    if KnownEmail(rows, cands, e) {
      var c :| c in rows && RootRef(c) in cands && c.email == e;
      var i :| 0 <= i < |rows| && rows[i] == c;
      assert m[i] in cl;
    }
  }

  /** The phone numbers of the merged cluster are those of the clusters the
      request touched. */
  lemma MergedKnownPhone(rows: seq<Contact>, m: seq<Contact>, root: nat, cands: set<Option<nat>>, p: Option<string>)
    requires |m| == |rows|
    requires forall i :: 0 <= i < |rows| ==> m[i].phoneNumber == rows[i].phoneNumber
    requires forall i :: 0 <= i < |rows| ==> (InCluster(m[i], root) <==> RootRef(rows[i]) in cands)
    ensures p in Phones(Cluster(m, root)) <==> KnownPhone(rows, cands, p)
  {
    var cl := Cluster(m, root);
    if p in Phones(cl) {
      var c :| c in cl && c.phoneNumber == p;
      var i :| 0 <= i < |m| && m[i] == c;
      assert rows[i] in rows;
    }
    if KnownPhone(rows, cands, p) {
      var c :| c in rows && RootRef(c) in cands && c.phoneNumber == p;
      var i :| 0 <= i < |rows| && rows[i] == c;
      assert m[i] in cl;
    }
  }

  /** Rule B only ever appends a row. */
  lemma AddIfNewKeepsRows(t: Table, root: nat, e: Option<string>, p: Option<string>)
    ensures |AddIfNew(t, root, e, p).rows| >= |t.rows|
    ensures forall i :: 0 <= i < |t.rows| ==> AddIfNew(t, root, e, p).rows[i] == t.rows[i]
  {
  }

  /** Rule A: a request that matches no row inserts one primary without a
      link, carrying the request's truthy fields, and answers with its id,
      its own truthy values and no secondaries; on a consistent table that
      answer is the projection of the new primary's cluster. */
  lemma IdentifyRuleA(t: Table, email: Option<string>, phone: Option<string>)
    requires Truthy(email) || Truthy(phone)
    requires Matches(t.rows, Normalize(email), Normalize(phone)) == []
    ensures var o := Identify(t, email, phone);
      && |o.after.rows| == |t.rows| + 1 && o.after.rows[..|t.rows|] == t.rows
      && o.after.nextId == t.nextId + 1
      && o.after.rows[|t.rows|].id == t.nextId
      && o.after.rows[|t.rows|].linkPrecedence == Primary
      && o.after.rows[|t.rows|].linkedId == None
      && o.after.rows[|t.rows|].email == Normalize(email)
      && o.after.rows[|t.rows|].phoneNumber == Normalize(phone)
      && o.result == Ok(ClusterView(t.nextId,
           if Truthy(email) then [email.value] else [],
           if Truthy(phone) then [phone.value] else [],
           []))
    ensures WellFormed(t) && WellLinked(t.rows) ==>
      var o := Identify(t, email, phone);
      o.result == Project(Cluster(o.after.rows, t.nextId))
  {
    if WellFormed(t) && WellLinked(t.rows) {
      RuleAView(t, Normalize(email), Normalize(phone));
    }
  }

  /** Rule B: after the merge, a secondary of the root is inserted exactly
      when the request carries an email, or a phone number, that no row of
      any touched cluster has; the new row carries the request's truthy
      fields. Otherwise nothing is inserted. */
  lemma IdentifyRuleB(t: Table, email: Option<string>, phone: Option<string>)
    requires WellFormed(t) && WellLinked(t.rows)
    requires Truthy(email) || Truthy(phone)
    requires Matches(t.rows, Normalize(email), Normalize(phone)) != []
    ensures TouchedRoots(t, Normalize(email), Normalize(phone)) != []
    ensures var e := Normalize(email);
      var p := Normalize(phone);
      var cands := Candidates(Matches(t.rows, e, p));
      var root := TouchedRoots(t, e, p)[0].id;
      var o := Identify(t, email, phone);
      var novel := (e.Some? && !KnownEmail(t.rows, cands, e)) || (p.Some? && !KnownPhone(t.rows, cands, p));
      && (novel ==>
            && |o.after.rows| == |t.rows| + 1 && o.after.nextId == t.nextId + 1
            && o.after.rows[|t.rows|] == Contact(t.nextId, e, p, Some(root), Secondary, t.clock))
      && (!novel ==> |o.after.rows| == |t.rows| && o.after.nextId == t.nextId)
  {
    var e := Normalize(email);
    var p := Normalize(phone);
    var ms := Matches(t.rows, e, p);
    var cands := Candidates(ms);
    var pots := Potentials(t.rows, cands);
    MergedCluster(t, ms, cands, pots);
    var root := pots[0].id;
    var m := MergeSeq(t.rows, pots[1..], root);
    MergedKnownEmail(t.rows, m, root, cands, e);
    MergedKnownPhone(t.rows, m, root, cands, p);
  }

  /** A valid request that matches some row goes through Rules C and B. */
  lemma IdentifyLinks(t: Table, email: Option<string>, phone: Option<string>)
    requires Truthy(email) || Truthy(phone)
    requires Matches(t.rows, Normalize(email), Normalize(phone)) != []
    ensures Identify(t, email, phone) ==
      LinkClusters(t, Normalize(email), Normalize(phone), TouchedRoots(t, Normalize(email), Normalize(phone)))
  {
  }

  /** The rows `after` a request, against the rows before it, when `cands`
      are the roots the request touched and `r` the root it kept: no row is
      removed; no old row changes id, email, phone or creation time; an old
      row is in `r`'s cluster exactly when its cluster was touched; the rows
      of the other clusters are as they were. */
  ghost predicate JoinedTouched(rows: seq<Contact>, after: seq<Contact>, r: nat, cands: set<Option<nat>>) {
    && |after| >= |rows|
    && (forall i :: 0 <= i < |rows| ==>
          after[i].id == rows[i].id && after[i].email == rows[i].email
          && after[i].phoneNumber == rows[i].phoneNumber && after[i].createdAt == rows[i].createdAt)
    && (forall i :: 0 <= i < |rows| ==> (InCluster(after[i], r) <==> RootRef(rows[i]) in cands))
    && (forall i :: 0 <= i < |rows| && RootRef(rows[i]) !in cands ==> after[i] == rows[i])
  }

  /** Appending rows keeps `JoinedTouched`. */
  lemma JoinedTouchedPrefix(rows: seq<Contact>, a: seq<Contact>, b: seq<Contact>, r: nat, cands: set<Option<nat>>)
    requires JoinedTouched(rows, a, r, cands)
    requires |b| >= |a| && forall i :: 0 <= i < |a| ==> b[i] == a[i]
    ensures JoinedTouched(rows, b, r, cands)
  {
  }

  /** The Rule C effect of the matched branch on a consistent table. */
  lemma LinkMerges(t: Table, e: Option<string>, p: Option<string>, ms: seq<Contact>, cands: set<Option<nat>>, pots: seq<Contact>)
    requires WellFormed(t) && WellLinked(t.rows)
    requires ms == Matches(t.rows, e, p) && ms != []
    requires cands == Candidates(ms) && pots == Potentials(t.rows, cands)
    ensures pots != []
    ensures JoinedTouched(t.rows, LinkClusters(t, e, p, pots).after.rows, pots[0].id, cands)
  {
    MergedCluster(t, ms, cands, pots);
    var root := pots[0].id;
    var merged := t.(rows := MergeSeq(t.rows, pots[1..], root));
    AddIfNewKeepsRows(merged, root, e, p);
    LinkAfter(t, e, p, pots);
    JoinedTouchedPrefix(t.rows, merged.rows, AddIfNew(merged, root, e, p).rows, root, cands);
  }

  /** Rule C: a valid request that matches rows of several clusters joins
      them all into the cluster its response names, and changes nothing
      else in the old rows (`JoinedTouched`). */
  lemma IdentifyMergesTouched(t: Table, email: Option<string>, phone: Option<string>)
    requires WellFormed(t) && WellLinked(t.rows)
    requires Truthy(email) || Truthy(phone)
    requires Matches(t.rows, Normalize(email), Normalize(phone)) != []
    ensures TouchedRoots(t, Normalize(email), Normalize(phone)) != []
    ensures Identify(t, email, phone).result.Ok?
    ensures var root := TouchedRoots(t, Normalize(email), Normalize(phone))[0].id;
      var o := Identify(t, email, phone);
      && o.result.value.primaryContactId == root
      && JoinedTouched(t.rows, o.after.rows, root, Candidates(Matches(t.rows, Normalize(email), Normalize(phone))))
  {
    var e := Normalize(email);
    var p := Normalize(phone);
    var ms := Matches(t.rows, e, p);
    IdentifyLinks(t, email, phone);
    LinkRoot(t, e, p);
    LinkMerges(t, e, p, ms, Candidates(ms), TouchedRoots(t, e, p));
  }

  /** The root the handler keeps is the oldest primary among the clusters
      the request touched (ties broken by id). */
  lemma IdentifyPicksOldestRoot(t: Table, email: Option<string>, phone: Option<string>)
    requires WellFormed(t) && WellLinked(t.rows)
    requires Truthy(email) || Truthy(phone)
    requires Matches(t.rows, Normalize(email), Normalize(phone)) != []
    ensures TouchedRoots(t, Normalize(email), Normalize(phone)) != []
    ensures Identify(t, email, phone).result.Ok?
    ensures var cands := Candidates(Matches(t.rows, Normalize(email), Normalize(phone)));
      var k := TouchedRoots(t, Normalize(email), Normalize(phone))[0];
      && Identify(t, email, phone).result.value.primaryContactId == k.id
      && k in t.rows && k.linkPrecedence == Primary && Some(k.id) in cands
      && (forall q :: q in t.rows && Some(q.id) in cands ==> k.createdAt <= q.createdAt && k.id <= q.id)
  {
    var e := Normalize(email);
    var p := Normalize(phone);
    var ms := Matches(t.rows, e, p);
    LinkReconciled(t, e, p);
    RootIsEarliest(t.rows, Candidates(ms));
    PotentialsArePrimary(t.rows, ms);
    assert TouchedRoots(t, e, p)[0] in TouchedRoots(t, e, p);
  }

  /** A valid request on a consistent table succeeds, and the cluster its
      response names has exactly one primary: the named contact. */
  lemma IdentifySinglePrimary(t: Table, email: Option<string>, phone: Option<string>)
    requires WellFormed(t) && WellLinked(t.rows)
    requires Truthy(email) || Truthy(phone)
    ensures Identify(t, email, phone).result.Ok?
    ensures var o := Identify(t, email, phone);
      var r := o.result.value.primaryContactId;
      && r in Primaries(o.after.rows)
      && forall c :: c in Cluster(o.after.rows, r) ==> (c.linkPrecedence == Primary <==> c.id == r)
  {
    IdentifyEstablishes(t, email, phone);
    var o := Identify(t, email, phone);
    ClusterOfPrimary(o.after.rows, o.result.value.primaryContactId);
  }

  /** In a consistent table, the secondaries of a primary's cluster are
      exactly its members other than the primary. */
  lemma ClusterSecondaries(rows: seq<Contact>, r: nat)
    requires Ordered(rows) && WellLinked(rows) && r in Primaries(rows)
    ensures var cl := Cluster(rows, r);
      forall x :: x in SecondaryIds(cl) <==> x in Ids(cl) && x != r
  {
    var cl := Cluster(rows, r);
    ClusterPrimaryIsRoot(rows, r);
    forall x | x in Ids(cl) && x != r
      ensures x in SecondaryIds(cl)
    {
      var c :| c in cl && c.id == x;
    }
  }

  /** The projection of a primary's cluster in a consistent table: it
      names that primary; it lists each truthy email and phone number of the
      cluster once, the primary's first, the others in order of first
      occurrence; and it lists the ids of exactly the other members, in
      creation order. */
  lemma ClusterViewSpec(rows: seq<Contact>, r: nat)
    requires Ordered(rows) && WellLinked(rows) && r in Primaries(rows)
    ensures Project(Cluster(rows, r)).Ok?
    ensures FirstPrimary(Cluster(rows, r)).Some? && FirstPrimary(Cluster(rows, r)).value.id == r
    ensures var cl := Cluster(rows, r);
      var v := Project(cl).value;
      var k := FirstPrimary(cl).value;
      && v.primaryContactId == r
      && Projected(v.emails, k.email, Emails(cl))
      && Projected(v.phoneNumbers, k.phoneNumber, Phones(cl))
      && (forall x :: x in v.secondaryContactIds <==> x in Ids(cl) && x != r)
      && (forall i, j :: 0 <= i < j < |v.secondaryContactIds| ==> v.secondaryContactIds[i] < v.secondaryContactIds[j])
  {
    var cl := Cluster(rows, r);
    ClusterOfPrimary(rows, r);
    ProjectSpec(cl);
    ClusterSecondaries(rows, r);
  }

  /** The response of a valid request on a consistent table is the
      projection above of the named primary's final cluster, and it includes
      the request's own email and phone number. */
  lemma IdentifyView(t: Table, email: Option<string>, phone: Option<string>)
    requires WellFormed(t) && WellLinked(t.rows)
    requires Truthy(email) || Truthy(phone)
    ensures Identify(t, email, phone).result.Ok?
    ensures var o := Identify(t, email, phone);
      var r := o.result.value.primaryContactId;
      && r in Primaries(o.after.rows)
      && o.result == Project(Cluster(o.after.rows, r))
      && (Truthy(email) ==> email.value in o.result.value.emails)
      && (Truthy(phone) ==> phone.value in o.result.value.phoneNumbers)
  {
    IdentifyEstablishes(t, email, phone);
    var o := Identify(t, email, phone);
    var r := o.result.value.primaryContactId;
    ClusterViewSpec(o.after.rows, r);
  }

  /** Every request keeps the table well formed and well linked. */
  lemma IdentifyKeepsInvariants(t: Table, email: Option<string>, phone: Option<string>)
    requires WellFormed(t) && WellLinked(t.rows)
    ensures WellFormed(Identify(t, email, phone).after)
    ensures WellLinked(Identify(t, email, phone).after.rows)
  {
    if Truthy(email) || Truthy(phone) {
      IdentifyEstablishes(t, email, phone);
    }
  }

  /** One request body: the `email` and `phoneNumber` fields. */
  datatype Request = Request(email: Option<string>, phoneNumber: Option<string>)

  /** The table after a series of requests, handled one after the other. */
  function Replay(t: Table, reqs: seq<Request>): Table
    decreases |reqs|
  {
    if |reqs| == 0 then t
    else
      var last := reqs[|reqs| - 1];
      Identify(Replay(t, reqs[..|reqs| - 1]), last.email, last.phoneNumber).after
  }

  /** After any series of requests on the empty table, the table is well
      formed and well linked, no row is older than the row it links to, and
      every cluster has exactly one primary, its root, which is the oldest
      member of the cluster. */
  lemma {:induction false} ReplayKeepsInvariants(reqs: seq<Request>)
    ensures WellFormed(Replay(Empty, reqs)) && WellLinked(Replay(Empty, reqs).rows)
    ensures RootsOldest(Replay(Empty, reqs).rows)
    ensures forall r :: r in Primaries(Replay(Empty, reqs).rows) ==>
      forall c :: c in Cluster(Replay(Empty, reqs).rows, r) ==> (c.linkPrecedence == Primary <==> c.id == r)
    ensures forall k :: k in Replay(Empty, reqs).rows && k.linkPrecedence == Primary ==>
      forall c :: c in Cluster(Replay(Empty, reqs).rows, k.id) ==> k.createdAt <= c.createdAt
    decreases |reqs|
  {
    if |reqs| > 0 {
      var last := reqs[|reqs| - 1];
      var before := Replay(Empty, reqs[..|reqs| - 1]);
      ReplayKeepsInvariants(reqs[..|reqs| - 1]);
      IdentifyKeepsInvariants(before, last.email, last.phoneNumber);
      IdentifyKeepsRootsOldest(before, last.email, last.phoneNumber);
    }
    var rows := Replay(Empty, reqs).rows;
    forall r | r in Primaries(rows)
      ensures forall c :: c in Cluster(rows, r) ==> (c.linkPrecedence == Primary <==> c.id == r)
    {
      ClusterOfPrimary(rows, r);
    }
    forall k | k in rows && k.linkPrecedence == Primary
      ensures forall c :: c in Cluster(rows, k.id) ==> k.createdAt <= c.createdAt
    {
      PrimaryIsOldest(rows, k);
    }
  }
}
