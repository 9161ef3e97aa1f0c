/** The request handler of routes/identify.js as a function of the table
    before the request: the table after it and the response. This is the
    specification that the imperative handler in route.dfy is proved
    against, and the lemmas here state what one request, and a series of
    requests, do to the table and what the response says. */
module Reconcile {
  import opened Seqs
  import opened Contacts
  import opened Resolver
  import opened Projection

  /** The table after a request and the response sent for it. */
  datatype Outcome = Outcome(after: Table, result: Result<ClusterView>)

  /** Rule A's response, built from the request rather than from the table. */
  function NewPrimaryView(id: nat, e: Option<string>, p: Option<string>): ClusterView {
    ClusterView(id, if e.Some? then [e.value] else [], if p.Some? then [p.value] else [], [])
  }

  /** Rule B: insert a secondary of `root` when the request carries an email
      or a phone number that the root's cluster does not have. */
  function AddIfNew(t: Table, root: nat, e: Option<string>, p: Option<string>): Table {
    if IsNewInfo(Cluster(t.rows, root), e, p) then InsertRow(t, e, p, Some(root), Secondary) else t
  }

  /** The roots of the clusters a request touches, in creation order:
      `allPotentialPrimaries`. */
  function TouchedRoots(t: Table, e: Option<string>, p: Option<string>): seq<Contact> {
    Potentials(t.rows, Candidates(Matches(t.rows, e, p)))
  }

  /** Rules C and B and the final projection, given the touched roots. An
      empty list of roots makes `rootPrimary.id` throw before any write. */
  function LinkClusters(t: Table, e: Option<string>, p: Option<string>, pots: seq<Contact>): (o: Outcome)
    ensures o.result != Err(ValidationError)
  {
    if pots == [] then Outcome(t, Err(InternalError))
    else
      var root := pots[0].id;
      var merged := t.(rows := MergeSeq(t.rows, pots[1..], root));
      var t' := AddIfNew(merged, root, e, p);
      Outcome(t', Project(Cluster(t'.rows, root)))
  }

  /** A request with at least one field, after `x || null`. */
  function Resolve(t: Table, e: Option<string>, p: Option<string>): (o: Outcome)
    ensures o.result != Err(ValidationError)
  {
    if Matches(t.rows, e, p) == [] then
      Outcome(InsertRow(t, e, p, None, Primary), Ok(NewPrimaryView(t.nextId, e, p)))
    else LinkClusters(t, e, p, TouchedRoots(t, e, p))
  }

  /** One POST /identify request: the 400 for a request with neither field
      leaves the table alone. */
  function Identify(t: Table, email: Option<string>, phone: Option<string>): (o: Outcome)
    ensures o.result == Err(ValidationError) <==> !Truthy(email) && !Truthy(phone)
    ensures !Truthy(email) && !Truthy(phone) ==> o.after == t
  {
    if !Truthy(email) && !Truthy(phone) then Outcome(t, Err(ValidationError))
    else Resolve(t, Normalize(email), Normalize(phone))
  }

  /** A sequence with no duplicates whose only element is `a` is `[a]`. */
  lemma SingletonSeq<T>(r: seq<T>, a: T)
    requires NoDup(r)
    requires forall x :: x in r <==> x == a
    ensures r == [a]
  {
    assert a in r;
    HeadMembers(r);
  }

  /** In a well-linked table, the only primary in a primary's cluster is
      that primary. */
  lemma ClusterPrimaryIsRoot(rows: seq<Contact>, r: nat)
    requires Ordered(rows) && WellLinked(rows) && r in Primaries(rows)
    ensures forall c :: c in Cluster(rows, r) ==> (c.linkPrecedence == Primary <==> c.id == r)
  {
    var d :| d in rows && d.linkPrecedence == Primary && d.id == r;
    IdIdentifies(rows, d);
  }

  /** In a well-linked table, the cluster of a primary holds exactly that one
      primary, and the projection of the cluster succeeds and names it. */
  lemma ClusterOfPrimary(rows: seq<Contact>, r: nat)
    requires Ordered(rows) && WellLinked(rows) && r in Primaries(rows)
    ensures forall c :: c in Cluster(rows, r) ==> (c.linkPrecedence == Primary <==> c.id == r)
    ensures Project(Cluster(rows, r)).Ok? && Project(Cluster(rows, r)).value.primaryContactId == r
  {
    var cl := Cluster(rows, r);
    var d :| d in rows && d.linkPrecedence == Primary && d.id == r;
    IdIdentifies(rows, d);
    assert d in cl;
    ProjectSpec(cl);
  }

  /** What the merge step relies on, for one row `c`: a touched row belongs to a
      touched cluster, and a row left alone is in the root's cluster exactly
      when it belongs to a touched cluster. `cands` are the touched clusters'
      roots, of which `root` is one and `displaced` are the others. */
  lemma MergedRow(rows: seq<Contact>, cands: set<Option<nat>>, root: nat, displaced: set<nat>, c: Contact)
    requires Ordered(rows) && WellLinked(rows) && c in rows
    requires root in Primaries(rows) && Some(root) in cands && root !in displaced
    requires displaced <= Primaries(rows)
    requires forall x :: x in displaced ==> Some(x) in cands
    requires forall q :: q in rows && Some(q.id) in cands ==> q.id == root || q.id in displaced
    ensures Touched(c, displaced) ==> RootRef(c) in cands
    ensures !Touched(c, displaced) ==> (InCluster(c, root) <==> RootRef(c) in cands)
  {
    if c.linkPrecedence == Primary {
      assert c.linkedId == None;
      assert RootRef(c) == Some(c.id);
    } else {
      SecondaryIdNotPrimary(rows, c);
      var d :| d in rows && d.linkPrecedence == Primary && d.id == c.linkedId.value;
      assert RootRef(c) == Some(d.id);
    }
  }

  /** A request that matches something, on a well-linked table, touches at
      least one root. */
  lemma RootsExist(rows: seq<Contact>, ms: seq<Contact>)
    requires Ordered(rows) && WellLinked(rows)
    requires ms != [] && forall m :: m in ms ==> m in rows
    ensures Potentials(rows, Candidates(ms)) != []
  {
    var m0 := ms[0];
    assert m0 in ms;
    if m0.linkPrecedence == Primary {
      assert m0 in Potentials(rows, Candidates(ms));
    } else {
      var d :| d in rows && d.linkPrecedence == Primary && d.id == m0.linkedId.value;
      assert d in Potentials(rows, Candidates(ms));
    }
  }

  /** The root is the first potential root and the displaced roots are the
      rest: all are candidates, the root is not displaced, and every row
      named by a candidate is one of them. */
  lemma SplitRoots(rows: seq<Contact>, cands: set<Option<nat>>, pots: seq<Contact>)
    requires Ordered(rows) && pots == Potentials(rows, cands) && pots != []
    ensures Some(pots[0].id) in cands
    ensures pots[0].id !in IdSet(pots[1..])
    ensures forall x :: x in IdSet(pots[1..]) ==> Some(x) in cands
    ensures forall q :: q in rows && Some(q.id) in cands ==> q.id == pots[0].id || q.id in IdSet(pots[1..])
  {
    assert pots[0] in pots;
    forall q | q in pots[1..]
      ensures q.id != pots[0].id && Some(q.id) in cands
    {
      var k :| 0 <= k < |pots[1..]| && pots[1..][k] == q;
      assert pots[k + 1] == q;
    }
    forall q | q in rows && Some(q.id) in cands
      ensures q.id == pots[0].id || q.id in IdSet(pots[1..])
    {
      assert q in pots;
      var k :| 0 <= k < |pots| && pots[k] == q;
      if k > 0 {
        assert pots[1..][k - 1] == q;
      }
    }
  }

  /** On a well-linked table the root and the displaced roots are primaries. */
  lemma RootsArePrimaries(rows: seq<Contact>, ms: seq<Contact>, pots: seq<Contact>)
    requires Ordered(rows) && WellLinked(rows)
    requires forall m :: m in ms ==> m in rows
    requires pots == Potentials(rows, Candidates(ms)) && pots != []
    ensures pots[0].id in Primaries(rows)
    ensures IdSet(pots[1..]) <= Primaries(rows)
  {
    PotentialsArePrimary(rows, ms);
    assert pots[0] in pots;
    forall q | q in pots[1..]
      ensures q in pots
    {
      var k :| 0 <= k < |pots[1..]| && pots[1..][k] == q;
      assert pots[k + 1] == q;
    }
  }

  /** The one-step merge of the displaced roots into the root joins exactly
      the rows of the touched clusters to the root's cluster, leaves the
      other rows alone and changes no id, email, phone or creation time. */
  lemma MergeJoinsTouched(rows: seq<Contact>, cands: set<Option<nat>>, root: nat, displaced: set<nat>)
    requires Ordered(rows) && WellLinked(rows)
    requires root in Primaries(rows) && Some(root) in cands && root !in displaced
    requires displaced <= Primaries(rows)
    requires forall x :: x in displaced ==> Some(x) in cands
    requires forall q :: q in rows && Some(q.id) in cands ==> q.id == root || q.id in displaced
    ensures var m := MergeSet(rows, displaced, root);
      && (forall i :: 0 <= i < |rows| ==>
            m[i].id == rows[i].id && m[i].email == rows[i].email
            && m[i].phoneNumber == rows[i].phoneNumber && m[i].createdAt == rows[i].createdAt)
      && (forall i :: 0 <= i < |rows| ==> (InCluster(m[i], root) <==> RootRef(rows[i]) in cands))
      && (forall i :: 0 <= i < |rows| && RootRef(rows[i]) !in cands ==> m[i] == rows[i])
  {
    var m := MergeSet(rows, displaced, root);
    forall i | 0 <= i < |rows|
      ensures InCluster(m[i], root) <==> RootRef(rows[i]) in cands
      ensures RootRef(rows[i]) !in cands ==> m[i] == rows[i]
    {
      MergedRow(rows, cands, root, displaced, rows[i]);
    }
  }

  /** The one-step merge into a primary root keeps both table invariants and
      the root a primary. */
  lemma MergeKeepsInvariants(t: Table, root: nat, displaced: set<nat>)
    requires WellFormed(t) && WellLinked(t.rows)
    requires root in Primaries(t.rows) && root !in displaced
    ensures var m := MergeSet(t.rows, displaced, root);
      WellFormed(t.(rows := m)) && WellLinked(m) && root in Primaries(m)
  {
    MergeKeepsWellFormed(t, displaced, root);
    MergeKeepsWellLinked(t.rows, displaced, root);
    MergePrimaries(t.rows, displaced, root);
  }

  /** After the merge step, the root's cluster is exactly the union of the
      clusters the request touched: a row joins it iff its cluster was
      touched, rows of untouched clusters are left as they were, and no
      row changes id, email, phone or creation time. The table stays well
      formed and well linked, with the root still a primary. */
  lemma MergedCluster(t: Table, ms: seq<Contact>, cands: set<Option<nat>>, pots: seq<Contact>)
    requires WellFormed(t) && WellLinked(t.rows)
    requires ms != [] && forall m :: m in ms ==> m in t.rows
    requires cands == Candidates(ms) && pots == Potentials(t.rows, cands)
    ensures pots != []
    ensures var root := pots[0].id;
      var m := MergeSeq(t.rows, pots[1..], root);
      && WellFormed(t.(rows := m)) && WellLinked(m) && root in Primaries(m)
      && (forall i :: 0 <= i < |t.rows| ==>
            m[i].id == t.rows[i].id && m[i].email == t.rows[i].email
            && m[i].phoneNumber == t.rows[i].phoneNumber && m[i].createdAt == t.rows[i].createdAt)
      && (forall i :: 0 <= i < |t.rows| ==> (InCluster(m[i], root) <==> RootRef(t.rows[i]) in cands))
      && (forall i :: 0 <= i < |t.rows| && RootRef(t.rows[i]) !in cands ==> m[i] == t.rows[i])
  {
    RootsExist(t.rows, ms);
    SplitRoots(t.rows, cands, pots);
    RootsArePrimaries(t.rows, ms, pots);
    var root := pots[0].id;
    var displaced := IdSet(pots[1..]);
    assert forall q :: q in pots[1..] ==> q.id in displaced;
    MergeSeqIsMergeSet(t.rows, pots[1..], root);
    MergeJoinsTouched(t.rows, cands, root, displaced);
    MergeKeepsInvariants(t, root, displaced);
  }


  /** The table's state after a request: well formed and well linked, with a
      primary `root` whose cluster holds every row the request matches and
      the request's email and phone number. */
  ghost predicate Reconciled(t: Table, root: nat, e: Option<string>, p: Option<string>) {
    && WellFormed(t) && WellLinked(t.rows)
    && root in Primaries(t.rows)
    && (forall c :: c in t.rows && MatchesInput(c, e, p) ==> InCluster(c, root))
    && (e.Some? ==> e in Emails(Cluster(t.rows, root)))
    && (p.Some? ==> p in Phones(Cluster(t.rows, root)))
  }

  /** A primary inserted into a well-linked table is alone in its cluster:
      no older row has its id or links to it. */
  lemma NewPrimaryAlone(t: Table, e: Option<string>, p: Option<string>)
    requires WellFormed(t) && WellLinked(t.rows)
    ensures var c := Contact(t.nextId, e, p, None, Primary, t.clock);
      var cl := Cluster(InsertRow(t, e, p, None, Primary).rows, t.nextId);
      c in cl && forall d :: d in cl ==> d == c
  {
    var n := t.nextId;
    forall d | d in t.rows
      ensures !InCluster(d, n)
    {
      if d.linkPrecedence == Secondary {
        var q :| q in t.rows && q.linkPrecedence == Primary && q.id == d.linkedId.value;
      }
    }
  }

  /** Rule A keeps the invariants, and the new primary's cluster holds every
      row that matches the request. */
  lemma RuleAReconciled(t: Table, e: Option<string>, p: Option<string>)
    requires WellFormed(t) && WellLinked(t.rows)
    requires Matches(t.rows, e, p) == []
    ensures Reconciled(InsertRow(t, e, p, None, Primary), t.nextId, e, p)
  {
    var t' := InsertRow(t, e, p, None, Primary);
    var c := Contact(t.nextId, e, p, None, Primary, t.clock);
    InsertKeepsWellFormed(t, e, p, None, Primary);
    AppendKeepsWellLinked(t.rows, c);
    NewPrimaryAlone(t, e, p);
    assert t'.rows == t.rows + [c];
    forall d | d in t'.rows && MatchesInput(d, e, p)
      ensures d == c
    {
      assert d !in Matches(t.rows, e, p);
    }
  }

  /** Rule A's hand-built response is the projection of the new primary's
      cluster. */
  lemma RuleAView(t: Table, e: Option<string>, p: Option<string>)
    requires WellFormed(t) && WellLinked(t.rows)
    requires e.Some? ==> e.value != ""
    requires p.Some? ==> p.value != ""
    ensures Project(Cluster(InsertRow(t, e, p, None, Primary).rows, t.nextId)) == Ok(NewPrimaryView(t.nextId, e, p))
  {
    var c := Contact(t.nextId, e, p, None, Primary, t.clock);
    var cl := Cluster(InsertRow(t, e, p, None, Primary).rows, t.nextId);
    NewPrimaryAlone(t, e, p);
    ProjectSpec(cl);
    var v := Project(cl).value;
    assert FirstPrimary(cl).value == c;
    if e.Some? {
      SingletonSeq(v.emails, e.value);
    } else {
      HeadMembers(v.emails);
    }
    if p.Some? {
      SingletonSeq(v.phoneNumbers, p.value);
    } else {
      HeadMembers(v.phoneNumbers);
    }
    HeadMembers(v.secondaryContactIds);
  }

  /** Rule B keeps the invariants of a merged table and makes sure the root's
      cluster has the request's email and phone number. */
  lemma RuleBReconciled(t: Table, root: nat, e: Option<string>, p: Option<string>)
    requires WellFormed(t) && WellLinked(t.rows) && root in Primaries(t.rows)
    requires forall c :: c in t.rows && MatchesInput(c, e, p) ==> InCluster(c, root)
    ensures Reconciled(AddIfNew(t, root, e, p), root, e, p)
  {
    var t' := AddIfNew(t, root, e, p);
    if IsNewInfo(Cluster(t.rows, root), e, p) {
      var c := Contact(t.nextId, e, p, Some(root), Secondary, t.clock);
      InsertKeepsWellFormed(t, e, p, Some(root), Secondary);
      AppendKeepsWellLinked(t.rows, c);
      assert t'.rows == t.rows + [c];
      assert c in Cluster(t'.rows, root);
    }
  }

  /** After the merge, every row that matches the request is in the root's
      cluster: a match belongs to a touched cluster. */
  lemma MergedMatchesInCluster(rows: seq<Contact>, m: seq<Contact>, root: nat, e: Option<string>, p: Option<string>)
    requires |m| == |rows|
    requires forall i :: 0 <= i < |rows| ==> m[i].email == rows[i].email && m[i].phoneNumber == rows[i].phoneNumber
    requires forall i :: 0 <= i < |rows| ==>
      (InCluster(m[i], root) <==> RootRef(rows[i]) in Candidates(Matches(rows, e, p)))
    ensures forall c :: c in m && MatchesInput(c, e, p) ==> InCluster(c, root)
  {
    forall c | c in m && MatchesInput(c, e, p)
      ensures InCluster(c, root)
    {
      var i :| 0 <= i < |m| && m[i] == c;
      assert rows[i] in Matches(rows, e, p);
    }
  }

  /** The matched branch on a well-formed, well-linked table: it succeeds,
      leaves the table reconciled around the oldest touched root, and answers
      with the projection of that root's cluster. */
  lemma LinkReconciled(t: Table, e: Option<string>, p: Option<string>)
    requires WellFormed(t) && WellLinked(t.rows)
    requires Matches(t.rows, e, p) != []
    ensures TouchedRoots(t, e, p) != []
    ensures var o := LinkClusters(t, e, p, TouchedRoots(t, e, p));
      var root := TouchedRoots(t, e, p)[0].id;
      && o.result.Ok? && o.result.value.primaryContactId == root
      && Reconciled(o.after, root, e, p)
      && o.result == Project(Cluster(o.after.rows, root))
  {
    var ms := Matches(t.rows, e, p);
    var cands := Candidates(ms);
    var pots := Potentials(t.rows, cands);
    MergedCluster(t, ms, cands, pots);
    var root := pots[0].id;
    var m := MergeSeq(t.rows, pots[1..], root);
    MergedMatchesInCluster(t.rows, m, root, e, p);
    RuleBReconciled(t.(rows := m), root, e, p);
    var t' := AddIfNew(t.(rows := m), root, e, p);
    ClusterOfPrimary(t'.rows, root);
  }

  /** The table the matched branch leaves: the merge, then Rule B. */
  lemma LinkAfter(t: Table, e: Option<string>, p: Option<string>, pots: seq<Contact>)
    requires pots != []
    ensures LinkClusters(t, e, p, pots).after ==
      AddIfNew(t.(rows := MergeSeq(t.rows, pots[1..], pots[0].id)), pots[0].id, e, p)
  {
  }

  /** The matched branch answers with the oldest touched root. */
  lemma LinkRoot(t: Table, e: Option<string>, p: Option<string>)
    requires WellFormed(t) && WellLinked(t.rows)
    requires Matches(t.rows, e, p) != []
    ensures TouchedRoots(t, e, p) != []
    ensures var o := LinkClusters(t, e, p, TouchedRoots(t, e, p));
      o.result.Ok? && o.result.value.primaryContactId == TouchedRoots(t, e, p)[0].id
  {
    LinkReconciled(t, e, p);
  }

  /** What a valid request leaves behind on a well-formed, well-linked table:
      it succeeds, the table is reconciled around the response's
      `primaryContactId`, and the response is the projection of that
      primary's cluster. */
  lemma IdentifyEstablishes(t: Table, email: Option<string>, phone: Option<string>)
    requires WellFormed(t) && WellLinked(t.rows)
    requires Truthy(email) || Truthy(phone)
    ensures Identify(t, email, phone).result.Ok?
    ensures var o := Identify(t, email, phone);
      var r := o.result.value.primaryContactId;
      && Reconciled(o.after, r, Normalize(email), Normalize(phone))
      && o.result == Project(Cluster(o.after.rows, r))
  {
    var e := Normalize(email);
    var p := Normalize(phone);
    if Matches(t.rows, e, p) == [] {
      RuleAReconciled(t, e, p);
      RuleAView(t, e, p);
    } else {
      LinkReconciled(t, e, p);
    }
  }

  /** In a well-linked table, every row of a primary's cluster names that
      primary as its root. */
  lemma ClusterRootRef(rows: seq<Contact>, root: nat, c: Contact)
    requires Ordered(rows) && WellLinked(rows) && root in Primaries(rows)
    requires c in rows && InCluster(c, root)
    ensures RootRef(c) == Some(root)
  {
    var d :| d in rows && d.linkPrecedence == Primary && d.id == root;
    IdIdentifies(rows, d);
  }

  /** On a reconciled table the request matches some row. */
  lemma FixedPointMatches(t: Table, root: nat, e: Option<string>, p: Option<string>)
    requires e.Some? || p.Some?
    requires Reconciled(t, root, e, p)
    ensures Matches(t.rows, e, p) != []
  {
    var cl := Cluster(t.rows, root);
    if e.Some? {
      var c :| c in cl && c.email == e;
      assert c in Matches(t.rows, e, p);
    } else {
      var c :| c in cl && c.phoneNumber == p;
      assert c in Matches(t.rows, e, p);
    }
  }

  /** On a reconciled table the request matches only rows of the one
      cluster, so its only root candidate is the cluster's root. */
  lemma FixedPointCandidates(t: Table, root: nat, e: Option<string>, p: Option<string>)
    requires e.Some? || p.Some?
    requires Reconciled(t, root, e, p)
    ensures Candidates(Matches(t.rows, e, p)) == {Some(root)}
  {
    var ms := Matches(t.rows, e, p);
    FixedPointMatches(t, root, e, p);
    forall m | m in ms
      ensures RootRef(m) == Some(root)
    {
      ClusterRootRef(t.rows, root, m);
    }
    assert ms[0] in ms;
  }

  /** A primary is the only row its own id selects. */
  lemma SoleRoot(rows: seq<Contact>, root: nat)
    requires Ordered(rows) && root in Primaries(rows)
    ensures var pots := Potentials(rows, {Some(root)});
      |pots| == 1 && pots[0].id == root
  {
    var pots := Potentials(rows, {Some(root)});
    var d :| d in rows && d.linkPrecedence == Primary && d.id == root;
    assert d in pots;
    HeadMembers(pots);
  }

  /** With a single root and nothing new in its cluster, Rules C and B
      write nothing and the response is the cluster's projection. */
  lemma NothingToLink(t: Table, root: nat, pots: seq<Contact>, e: Option<string>, p: Option<string>)
    requires |pots| == 1 && pots[0].id == root
    requires !IsNewInfo(Cluster(t.rows, root), e, p)
    ensures LinkClusters(t, e, p, pots) == Outcome(t, Project(Cluster(t.rows, root)))
  {
    assert pots[1..] == [];
    assert MergeSeq(t.rows, pots[1..], root) == t.rows;
    assert t.(rows := t.rows) == t;
  }

  /** A reconciled table is a fixed point of the same request: it finds the
      one cluster, merges nothing, inserts nothing and answers with that
      cluster's projection. */
  lemma ReconciledIsFixedPoint(t: Table, root: nat, email: Option<string>, phone: Option<string>)
    requires Truthy(email) || Truthy(phone)
    requires Reconciled(t, root, Normalize(email), Normalize(phone))
    ensures Identify(t, email, phone) == Outcome(t, Project(Cluster(t.rows, root)))
  {
    var e := Normalize(email);
    var p := Normalize(phone);
    FixedPointMatches(t, root, e, p);
    FixedPointCandidates(t, root, e, p);
    SoleRoot(t.rows, root);
    NothingToLink(t, root, TouchedRoots(t, e, p), e, p);
  }

  /** Repeating a request changes nothing and gets the same response. */
  lemma IdentifyIdempotent(t: Table, email: Option<string>, phone: Option<string>)
    requires WellFormed(t) && WellLinked(t.rows)
    ensures var o := Identify(t, email, phone);
      Identify(o.after, email, phone) == o
  {
    if Truthy(email) || Truthy(phone) {
      IdentifyEstablishes(t, email, phone);
      var o := Identify(t, email, phone);
      ReconciledIsFixedPoint(o.after, o.result.value.primaryContactId, email, phone);
    }
  }
}
