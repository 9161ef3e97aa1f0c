/** The `router.post('/')` handler of routes/identify.js, step by step
    against the store: the validation, the match query, the loop that
    collects root candidates, the oldest-root query, the loop of merge
    UPDATEs, Rule B's insert and the final projection. It is proved to do
    exactly what `Reconcile.Identify` specifies, so every property proved of
    that function holds of the handler. */
module IdentifyRoute {
  import opened Seqs
  import opened Contacts
  import opened Resolver
  import opened Projection
  import opened Reconcile
  import opened Properties
  import opened Store
  import opened Seniority

  /** `matches.forEach(c => primaryContactIdsSet.add(...))`: each match's own
      id when it is primary, otherwise its `linkedId`. */
  method CollectRoots(matches: seq<Contact>) returns (ids: set<Option<nat>>)
    ensures ids == Candidates(matches)
  {
    ids := {};
    for i := 0 to |matches|
      invariant ids == Candidates(matches[..i])
    {
      var c := matches[i];
      assert matches[..i + 1][..i] == matches[..i];
      ids := ids + {if c.linkPrecedence == Primary then Some(c.id) else c.linkedId};
    }
    assert matches[..|matches|] == matches;
  }

  /** Rule C, `for (const p of otherPrimaries)`: one merge UPDATE per
      displaced root, in order. */
  method MergeInto(store: ContactStore, others: seq<Contact>, root: nat)
    modifies store
    ensures store.rows == MergeSeq(old(store.rows), others, root)
    ensures store.nextId == old(store.nextId) && store.clock == old(store.clock)
  {
    ghost var before := store.rows;
    for i := 0 to |others|
      invariant store.rows == MergeSeq(before, others[..i], root)
      invariant store.nextId == old(store.nextId) && store.clock == old(store.clock)
    {
      assert others[..i + 1][..i] == others[..i];
      store.Relink(others[i].id, root);
    }
    assert others[..|others|] == others;
  }

  /** Steps 4 and 5: Rule B's check of the request's fields against the
      merged cluster and its insert, then the final fetch and the response. */
  method AddAndRespond(store: ContactStore, root: nat, email: Option<string>, phone: Option<string>)
    returns (res: Result<ClusterView>)
    modifies store
    ensures var t' := AddIfNew(old(store.State()), root, Normalize(email), Normalize(phone));
      store.State() == t' && res == Project(Cluster(t'.rows, root))
  {
    var existing := Cluster(store.rows, root);
    var emailInCluster := email in Emails(existing);
    var phoneInCluster := phone in Phones(existing);
    if (Truthy(email) && !emailInCluster) || (Truthy(phone) && !phoneInCluster) {
      var _ := store.Insert(Normalize(email), Normalize(phone), Some(root), Secondary);
    }
    var finalCluster := Cluster(store.rows, root);
    var primary := FirstPrimary(finalCluster);
    if primary.None? {
      // `primaryContact.email` on undefined
      return Err(InternalError);
    }
    var k := primary.value;
    res := Ok(ClusterView(
      k.id,
      Distinct([k.email] + Emails(finalCluster)),
      Distinct([k.phoneNumber] + Phones(finalCluster)),
      SecondaryIds(finalCluster)));
  }

  /** POST /identify with body fields `email` and `phoneNumber`: the new
      table and the response are those `Identify` specifies, and a store that
      satisfies the table invariants still does afterwards. */
  method PostIdentify(store: ContactStore, email: Option<string>, phone: Option<string>)
    returns (res: Result<ClusterView>)
    modifies store
    ensures Outcome(store.State(), res) == Identify(old(store.State()), email, phone)
    ensures old(store.Valid()) ==> store.Valid()
  {
    if store.Valid() {
      IdentifyKeepsInvariants(store.State(), email, phone);
      IdentifyKeepsRootsOldest(store.State(), email, phone);
    }
    if !Truthy(email) && !Truthy(phone) {
      return Err(ValidationError);
    }
    var e := Normalize(email);
    var p := Normalize(phone);
    var matches := Matches(store.rows, e, p);

    if |matches| == 0 {
      // Rule A
      var id := store.Insert(e, p, None, Primary);
      return Ok(ClusterView(id,
        if Truthy(email) then [email.value] else [],
        if Truthy(phone) then [phone.value] else [],
        []));
    }

    var ids := CollectRoots(matches);
    var potentials := Potentials(store.rows, ids);
    if |potentials| == 0 {
      // `rootPrimary.id` on undefined
      return Err(InternalError);
    }
    var root := potentials[0];
    MergeInto(store, potentials[1..], root.id);
    res := AddAndRespond(store, root.id, email, phone);
  }
}
