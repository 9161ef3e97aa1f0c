/** The response projection of routes/identify.js: the primary found in the
    final cluster, its de-duplicated emails and phone numbers (primary's value
    first), and the ids of the cluster's secondaries. */
module Projection {
  import opened Seqs
  import opened Contacts

  /** The `contact` object of the response. */
  datatype ClusterView = ClusterView(
    primaryContactId: nat,
    emails: seq<string>,
    phoneNumbers: seq<string>,
    secondaryContactIds: seq<nat>)

  /** `.filter(Boolean)`: drop the null and empty values, in order. */
  function KeepTruthy(xs: seq<Option<string>>): (r: seq<string>)
    ensures forall x :: x in r <==> x != "" && Some(x) in xs
    decreases |xs|
  {
    if |xs| == 0 then []
    else
      assert xs == xs[..|xs| - 1] + [xs[|xs| - 1]];
      KeepTruthy(xs[..|xs| - 1]) + (if Truthy(xs[|xs| - 1]) then [xs[|xs| - 1].value] else [])
  }

  /** On values without duplicates, the filter keeps them distinct and in
      their original order. */
  lemma {:induction false} KeepTruthyOrder(xs: seq<Option<string>>)
    requires NoDup(xs)
    ensures NoDup(KeepTruthy(xs))
    ensures forall i, j :: 0 <= i < j < |KeepTruthy(xs)| ==>
      IndexOf(xs, Some(KeepTruthy(xs)[i])) < IndexOf(xs, Some(KeepTruthy(xs)[j]))
    decreases |xs|
  {
    if |xs| > 0 {
      var pre := xs[..|xs| - 1];
      var last := xs[|xs| - 1];
      KeepTruthyOrder(pre);
      var kp := KeepTruthy(pre);
      var r := KeepTruthy(xs);
      assert last !in pre;
      forall i, j | 0 <= i < j < |r|
        ensures r[i] != r[j]
        ensures IndexOf(xs, Some(r[i])) < IndexOf(xs, Some(r[j]))
      {
        assert r[i] == kp[i];
        assert Some(r[i]) in pre;
        IndexOfSnoc(xs, Some(r[i]));
        IndexOfSnoc(xs, Some(r[j]));
        if j < |kp| {
          assert r[j] == kp[j];
          assert Some(r[j]) in pre;
        } else {
          assert Some(r[j]) == last;
          assert IndexOf(pre, Some(r[i])) < |pre|;
        }
      }
    }
  }

  /** `[...new Set(xs)].filter(Boolean)`. */
  function Distinct(xs: seq<Option<string>>): seq<string> {
    KeepTruthy(Unique(xs))
  }

  /** The de-duplication keeps the order of first occurrence. */
  lemma DistinctOrder(xs: seq<Option<string>>)
    ensures NoDup(Distinct(xs))
    ensures forall i, j :: 0 <= i < j < |Distinct(xs)| ==>
      IndexOf(xs, Some(Distinct(xs)[i])) < IndexOf(xs, Some(Distinct(xs)[j]))
  {
    var u := Unique(xs);
    var r := Distinct(xs);
    KeepTruthyOrder(u);
    UniqueOrder(xs);
    forall i, j | 0 <= i < j < |r|
      ensures IndexOf(xs, Some(r[i])) < IndexOf(xs, Some(r[j]))
    {
      var a := IndexOf(u, Some(r[i]));
      var b := IndexOf(u, Some(r[j]));
      assert u[a] == Some(r[i]) && u[b] == Some(r[j]);
    }
  }

  /** What the de-duplication promises: no value twice, exactly the truthy
      values of `xs`, in the order in which they first occur in `xs`; so a
      truthy first value comes first. */
  lemma DistinctSpec(xs: seq<Option<string>>)
    ensures var r := Distinct(xs);
      && NoDup(r)
      && (forall x :: x in r <==> x != "" && Some(x) in xs)
      && (forall i, j :: 0 <= i < j < |r| ==> IndexOf(xs, Some(r[i])) < IndexOf(xs, Some(r[j])))
      && (|xs| > 0 && Truthy(xs[0]) ==> |r| > 0 && r[0] == xs[0].value)
  {
    var r := Distinct(xs);
    DistinctOrder(xs);
    if |xs| > 0 && Truthy(xs[0]) {
      assert xs[0].value in r;
      var k :| 0 <= k < |r| && r[k] == xs[0].value;
      assert IndexOf(xs, Some(r[k])) == 0;
      assert k == 0;
    }
  }

  /** `c` stands at a place of `cl` before which no row is primary. */
  ghost predicate FirstOfPrimaries(cl: seq<Contact>, c: Contact) {
    exists k :: 0 <= k < |cl| && cl[k] == c && forall j :: 0 <= j < k ==> cl[j].linkPrecedence != Primary
  }

  /** `finalCluster.find(c => c.linkPrecedence === 'primary')`: the first
      primary of the cluster. */
  function FirstPrimary(cl: seq<Contact>): (r: Option<Contact>)
    ensures r.Some? ==> r.value in cl && r.value.linkPrecedence == Primary
    ensures r.None? <==> forall c :: c in cl ==> c.linkPrecedence != Primary
    ensures r.Some? ==> FirstOfPrimaries(cl, r.value)
    decreases |cl|
  {
    if |cl| == 0 then None
    else if cl[0].linkPrecedence == Primary then Some(cl[0])
    else
      assert cl == [cl[0]] + cl[1..];
      var r := FirstPrimary(cl[1..]);
      if r.Some? then
        var k :| 0 <= k < |cl[1..]| && cl[1..][k] == r.value &&
          forall j :: 0 <= j < k ==> cl[1..][j].linkPrecedence != Primary;
        assert cl[k + 1] == r.value;
        assert FirstOfPrimaries(cl[1..], r.value);
        assert forall j :: 0 <= j < k + 1 ==> cl[j].linkPrecedence != Primary by {
          forall j | 0 <= j < k + 1
            ensures cl[j].linkPrecedence != Primary
          {
            if j > 0 { assert cl[j] == cl[1..][j - 1]; }
          }
        }
        r
      else r
  }

  /** `finalCluster.filter(c => c.linkPrecedence === 'secondary').map(c => c.id)`:
      the ids of the cluster's secondaries, increasing (creation order) when
      the cluster is in creation order. */
  function SecondaryIds(cl: seq<Contact>): (r: seq<nat>)
    ensures forall x :: x in r <==> exists c :: c in cl && c.linkPrecedence == Secondary && c.id == x
    ensures Ordered(cl) ==> forall i, j :: 0 <= i < j < |r| ==> r[i] < r[j]
  {
    var f := (c: Contact) => c.linkPrecedence == Secondary;
    FilterKeepsOrder(cl, f);
    Ids(Filter(cl, f))
  }

  /** The response object built around the primary `k` of cluster `cl`. */
  function View(k: Contact, cl: seq<Contact>): ClusterView {
    ClusterView(
      k.id,
      Distinct([k.email] + Emails(cl)),
      Distinct([k.phoneNumber] + Phones(cl)),
      SecondaryIds(cl))
  }

  /** The projection step: a cluster without a primary makes
      `primaryContact.email` throw, which the handler turns into a 500. */
  function Project(cl: seq<Contact>): Result<ClusterView> {
    match FirstPrimary(cl)
    case None => Err(InternalError)
    case Some(k) => Ok(View(k, cl))
  }

  /** `r` is the projected list of one column: each truthy value of `vals`
      exactly once, `first` in front when it is truthy, the rest in order of
      first occurrence in `[first, ...vals]`. */
  ghost predicate Projected(r: seq<string>, first: Option<string>, vals: seq<Option<string>>) {
    && NoDup(r)
    && (forall x :: x in r <==> x != "" && Some(x) in vals)
    && (Truthy(first) ==> |r| > 0 && r[0] == first.value)
    && (forall i, j :: 0 <= i < j < |r| ==>
          Some(r[i]) in [first] + vals && Some(r[j]) in [first] + vals &&
          IndexOf([first] + vals, Some(r[i])) < IndexOf([first] + vals, Some(r[j])))
  }

  /** The de-duplication of `[first, ...vals]` when `first` is one of `vals`
      (the primary's value is also its cluster entry). */
  lemma DistinctWithFirst(first: Option<string>, vals: seq<Option<string>>)
    requires first in vals
    ensures Projected(Distinct([first] + vals), first, vals)
  {
    var xs := [first] + vals;
    DistinctSpec(xs);
    assert forall x :: Some(x) in xs <==> Some(x) in vals;
  }

  /** What the projection promises about a cluster: it succeeds iff the
      cluster has a primary; then the response names the first primary, lists each
      truthy email and phone of the cluster exactly once, the primary's first,
      the others in order of first occurrence, and lists exactly the
      secondaries' ids, in creation order when the cluster is. */
  lemma ProjectSpec(cl: seq<Contact>)
    ensures Project(cl).Ok? <==> exists c :: c in cl && c.linkPrecedence == Primary
    ensures Project(cl).Ok? ==>
      var v := Project(cl).value;
      var k := FirstPrimary(cl).value;
      && k in cl && k.linkPrecedence == Primary && FirstOfPrimaries(cl, k) && v.primaryContactId == k.id
      && Projected(v.emails, k.email, Emails(cl))
      && Projected(v.phoneNumbers, k.phoneNumber, Phones(cl))
      && (forall x :: x in v.secondaryContactIds <==> exists c :: c in cl && c.linkPrecedence == Secondary && c.id == x)
      && (Ordered(cl) ==> forall i, j :: 0 <= i < j < |v.secondaryContactIds| ==> v.secondaryContactIds[i] < v.secondaryContactIds[j])
  {
    if FirstPrimary(cl).Some? {
      var k := FirstPrimary(cl).value;
      DistinctWithFirst(k.email, Emails(cl));
      DistinctWithFirst(k.phoneNumber, Phones(cl));
    }
  }
}
