# Identity reconciliation, modelled in Dafny

The service keeps one `Contact` table. `POST /identify` receives an
`email` and/or a `phoneNumber` and reconciles them against the table:

- A request that matches no row creates a new primary contact (Rule A).
- A request that matches rows of several clusters merges them under the
  oldest root. The other roots, and every row linked to them, become
  secondaries of that root (Rule C).
- A request that brings an email or phone number the merged cluster does
  not have adds a secondary row for it (Rule B).
- The response is the final cluster: the primary's id, the de-duplicated
  emails and phone numbers (primary's first), and the secondaries' ids.

The model is built in layers.

- `Contacts` (contacts.dfy) holds the data model.
  - A `Table` is its rows in insertion order, the next AUTO_INCREMENT id
    and a creation clock.
  - `Truthy` and `Normalize` model JavaScript truthiness and `x || null`.
  - `WellFormed` says ids strictly increase and creation times never
    decrease, so table order is `ORDER BY createdAt` order.
  - `WellLinked` says a primary has no link and every secondary links to
    a primary.
- `Seqs` (seqs.dfy) holds the order-preserving filter behind every
  SELECT, and `Unique`, which models `[...new Set(xs)]`.
- `Resolver` (resolver.dfy) holds the reads and the one write of the
  resolution:
  - the match query, the root candidates, and the potential roots in
    creation order;
  - the merge UPDATE (`Reparent`) and the merge loop (`MergeSeq`), with a
    one-step reference merge (`MergeSet`) that the loop is proved equal to;
  - the cluster query and Rule B's new-information test.
- `Projection` (projection.dfy) holds the response: `find` of the primary,
  the de-duplicated columns, and the secondary ids.
- `Reconcile` (reconcile.dfy) holds `Identify`, the whole handler as a
  function from a table and a request to a new table and a response.
  - A valid request on a consistent table leaves the table `Reconciled`:
    every row that matches the request belongs to the named primary's
    cluster, and that cluster holds the request's email and phone.
  - A reconciled table is a fixed point of the same request, so repeating
    a request changes nothing and gets the same answer.
- `Properties` (properties.dfy) states Rules A, B and C, the choice of the
  oldest root, the single-primary property and the shape of the response,
  each for one call. It also proves that every series of requests on the
  empty table keeps the invariants.
- `Seniority` (seniority.dfy) proves the invariant `RootsOldest`, defined in
  `Contacts`: no row is older than the row it links to. Every request keeps
  it, because the merge relinks touched rows to the oldest touched root and
  an insert is always the youngest row. So across any history of requests,
  each cluster's root is its oldest member, older than every primary it has
  displaced; this is what makes the "absolute oldest root primary" of
  routes/identify.js:42 hold beyond a single request.
- `Store` (store.dfy) is the imperative side. `ContactStore` is a class
  holding the table's fields, with the two writes the handler issues:
  `Insert` and `Relink` (the merge UPDATE).
- `IdentifyRoute` (route.dfy) is the handler written step by step against
  the store:
  - the `forEach` that collects root ids;
  - the `for` loop of merge UPDATEs;
  - Rule B's check and insert;
  - the final response.

  `PostIdentify` is proved to produce exactly the table and response that
  `Identify` specifies. So every lemma about `Identify` holds of the
  handler.

Errors are values:

- `ValidationError` is the 400 for a request with neither field. It
  leaves the table alone.
- `InternalError` is the 500 from the `catch`. The model produces it in
  two places: when no potential root exists (`rootPrimary.id` on
  `undefined`), and when the final cluster has no primary
  (`primaryContact.email` on `undefined`).
  - The first happens before any write.
  - The second happens after the merge and the insert. Those writes stay,
    because the handler uses no transaction.

On a well-formed, well-linked table neither `InternalError` path can
happen (`IdentifyEstablishes`).

Points where the behaviour is easy to misread:

- Writes. The handler issues its writes one statement at a time, without
  a transaction, and the model writes them one at a time too.
- Secondary ids. The response lists the members whose precedence is
  `secondary` (routes/identify.js:98-100), and so does the model.
  `ClusterSecondaries` proves this is exactly the non-root members on a
  well-linked table.
- Root order. The root query orders by `createdAt` alone
  (routes/identify.js:45). The model's clock advances on every insert, so
  no two rows share a creation time and table order is creation order.
- Rule B's check compares the raw request value with `===`
  (routes/identify.js:67-68), guarded by truthiness (line 70). The model
  compares the normalized value. The two agree whenever the field is
  truthy, and only then does the comparison matter.

I/O is represented as follows:

- The database is the `Table` value, or the `ContactStore` object.
- Each SQL statement is the function or method named after it.
- The HTTP request is the two optional strings.
- The HTTP response is a `Result<ClusterView>`.

## Model

| member | source | states |
|---|---|---|
| Contacts.Truthy | routes/identify.js:8 | JavaScript truthiness of a field: present and non-empty; what it governs is stated by `Normalize`, `Identify` and `IdentifyRuleB` |
| Contacts.Normalize | routes/identify.js:16 | a falsy field becomes NULL and a truthy one is passed unchanged |
| Contacts.InsertRow | routes/identify.js:21-24 | the INSERT appends a row with the next id and the current time; stated by `InsertKeepsWellFormed`, `IdentifyRuleA`, `IdentifyRuleB` and `ContactStore.Insert` |
| Contacts.InsertKeepsWellFormed | routes/identify.js:21-24 | an INSERT keeps ids increasing and creation times ordered, and the new id is not used by any row |
| Contacts.RootsOldest | routes/identify.js:42-58 | the seniority invariant: no row was created before the row it links to; kept by `Seniority.IdentifyKeepsRootsOldest` |
| Contacts.AppendKeepsWellLinked | routes/identify.js:72-75 | appending an unlinked primary, or a secondary linked to a primary, keeps the link invariant, and no primary is lost |
| Contacts.SameIdSameRow | setup-db.js:9 | in an ordered table the id is a key: two rows with the same id are the same row |
| Contacts.IdIdentifies | setup-db.js:9 | no other row has the id of a given row |
| Contacts.SecondaryIdNotPrimary | setup-db.js:9-13 | the id of a secondary row is not the id of any primary |
| Contacts.FilterKeepsOrder | routes/identify.js:79-82 | every SELECT returns its rows in creation order |
| Contacts.Ids | routes/identify.js:98-100 | the ids of the given rows, one per row, in order |
| Contacts.Emails | routes/identify.js:89 | the emails of the given rows, one per row, in order |
| Contacts.Phones | routes/identify.js:95 | the phone numbers of the given rows, one per row, in order |
| Seqs.Filter | routes/identify.js:98-99 | exactly the elements that satisfy the predicate, never more than the input |
| Seqs.Unique | routes/identify.js:87-90 | the Set spread holds each value of the input exactly once, and nothing else |
| Seqs.UniqueOrder | routes/identify.js:87-90 | the Set spread keeps the values in the order of their first occurrence |
| Resolver.MatchesInput | routes/identify.js:15 | the WHERE clause of the match query; stated by `Matches` |
| Resolver.Matches | routes/identify.js:14-17 | the rows whose email equals a non-null requested email or whose phone equals a non-null requested phone, in creation order |
| Resolver.RootRef | routes/identify.js:39 | a match's own id when primary, else its `linkedId`; stated by `Candidates` and `ClusterRootRef` |
| Resolver.Candidates | routes/identify.js:37-40 | the id set holds exactly each match's own id if it is primary, otherwise its linkedId |
| Resolver.Potentials | routes/identify.js:44-47 | the rows whose id is in the id set (a null selects nothing), in creation order |
| Resolver.RootIsEarliest | routes/identify.js:44-49 | the chosen root is a candidate and is the earliest created, with the lowest id, of all potential roots |
| Resolver.PotentialsArePrimary | routes/identify.js:38-47 | on a well-linked table every potential root is a primary row |
| Resolver.Demote | routes/identify.js:55 | the SET clause of the merge UPDATE; stated by `ReparentEffect` |
| Resolver.Reparent | routes/identify.js:54-57 | the merge UPDATE neither adds nor removes rows |
| Resolver.ReparentEffect | routes/identify.js:54-57 | the UPDATE demotes exactly the displaced primary and the rows linked to it, relinks them to the root, keeps their data, and leaves no row pointing at the displaced id |
| Resolver.ReparentIdempotent | routes/identify.js:54-57 | repeating the same UPDATE changes nothing |
| Resolver.MergeSeq | routes/identify.js:53-58 | the merge loop keeps the number of rows |
| Resolver.MergeSet | routes/identify.js:53-58 | the reference merge, which touches each row at most once, keeps the number of rows |
| Resolver.ReparentAfterMergeSet | routes/identify.js:53-58 | one more UPDATE after a merge of the set D is the merge of D plus the new id |
| Resolver.MergeSeqIsMergeSet | routes/identify.js:53-58 | the loop of UPDATEs equals the reference merge of all the displaced ids, whatever their order |
| Resolver.MergeSetIdempotent | routes/identify.js:53-58 | merging again with the same roots changes nothing |
| Resolver.MergeKeepsWellFormed | routes/identify.js:53-58 | the merge keeps the table well formed |
| Resolver.MergePrimaries | routes/identify.js:53-58 | after the merge the primaries are exactly the old primaries minus the displaced ones |
| Resolver.MergeKeepsWellLinked | routes/identify.js:53-58 | merging into a primary root that is not displaced keeps the link invariant |
| Resolver.InCluster | routes/identify.js:63 | the WHERE clause of the cluster queries; stated by `Cluster` and `MergeJoinsTouched` |
| Resolver.Cluster | routes/identify.js:62-65 | the cluster query returns exactly the root and the rows linked to it, in creation order |
| Resolver.IsNewInfo | routes/identify.js:67-70 | Rule B's test; `MergedKnownEmail`, `MergedKnownPhone` and `IdentifyRuleB` state when it holds |
| Projection.KeepTruthy | routes/identify.js:90 | `.filter(Boolean)` keeps exactly the non-null, non-empty values |
| Projection.KeepTruthyOrder | routes/identify.js:90 | the filter keeps distinct values distinct and in their order |
| Projection.DistinctOrder | routes/identify.js:87-90 | the de-duplicated column has no duplicates and keeps the order of first occurrence |
| Projection.DistinctSpec | routes/identify.js:87-96 | the de-duplicated column lists each truthy value exactly once, in order of first occurrence, and a truthy first value first |
| Projection.Distinct | routes/identify.js:87-96 | the de-duplicated column; stated by `DistinctSpec` and `DistinctWithFirst` |
| Projection.FirstPrimary | routes/identify.js:84 | `find` returns the first primary member of the cluster (no row before it is primary), and returns nothing only when the cluster has no primary |
| Projection.SecondaryIds | routes/identify.js:98-100 | exactly the ids of the secondary members, and increasing when the cluster is in creation order |
| Projection.DistinctWithFirst | routes/identify.js:87-96 | the primary's value is listed first and the cluster's other values follow in first-occurrence order |
| Projection.ProjectSpec | routes/identify.js:84-109 | the response exists iff the cluster has a primary; it then names the first primary, lists its emails and phones with the primary's first, and lists exactly the secondaries' ids |
| Projection.View | routes/identify.js:102-109 | the response object around a primary; stated by `ProjectSpec` and `ClusterViewSpec` |
| Projection.Project | routes/identify.js:84-109 | the projection of the final cluster, or the 500 when it has no primary; stated by `ProjectSpec` |
| Reconcile.NewPrimaryView | routes/identify.js:26-33 | Rule A's hand-built response; `RuleAView` proves it is the new primary's projection |
| Reconcile.TouchedRoots | routes/identify.js:43-47 | the potential roots of a request; `IdentifyPicksOldestRoot` proves its head is the oldest touched primary |
| Reconcile.AddIfNew | routes/identify.js:62-76 | Rule B's insert; stated by `IdentifyRuleB`, `RuleBReconciled` and `AddIfNewKeepsRows` |
| Reconcile.LinkClusters | routes/identify.js:49-109 | the matched branch never answers with the 400 |
| Reconcile.Resolve | routes/identify.js:14-109 | a request with a field never answers with the 400 |
| Reconcile.Identify | routes/identify.js:8-10 | the 400 is returned exactly when neither field is truthy, and it leaves the table unchanged |
| Reconcile.ClusterPrimaryIsRoot | routes/identify.js:79-84 | in a well-linked table the only primary in a primary's cluster is that primary |
| Reconcile.ClusterOfPrimary | routes/identify.js:79-84 | in a well-linked table a primary's cluster holds exactly one primary, that primary, so the projection succeeds and names it |
| Reconcile.RootsExist | routes/identify.js:43-49 | when the request matches something in a well-linked table, `rootPrimary` exists |
| Reconcile.SplitRoots | routes/identify.js:49-50 | the root and the displaced roots are distinct candidates, and together they are every row whose id is a candidate |
| Reconcile.RootsArePrimaries | routes/identify.js:43-50 | the root and the displaced roots are primaries |
| Reconcile.MergeJoinsTouched | routes/identify.js:52-58 | after the merge, a row is in the root's cluster exactly when its old cluster was touched; untouched rows are unchanged |
| Reconcile.MergeKeepsInvariants | routes/identify.js:52-58 | the merge keeps both invariants and the root a primary |
| Reconcile.MergedCluster | routes/identify.js:52-65 | after the merge loop the root's cluster is the union of the touched clusters, no row's data changed, and both invariants hold |
| Reconcile.NewPrimaryAlone | routes/identify.js:21-24 | a new primary is alone in its cluster |
| Reconcile.RuleAReconciled | routes/identify.js:19-24 | Rule A keeps the invariants and the new primary's cluster holds the request's fields |
| Reconcile.RuleAView | routes/identify.js:26-33 | Rule A's hand-built response equals the projection of the new primary's cluster |
| Reconcile.RuleBReconciled | routes/identify.js:60-76 | after Rule B the root's cluster has the request's email and phone, and both invariants hold |
| Reconcile.MergedMatchesInCluster | routes/identify.js:52-58 | after the merge every row that matches the request is in the root's cluster |
| Reconcile.LinkReconciled | routes/identify.js:36-109 | the matched branch on a consistent table succeeds, leaves it reconciled around the oldest root, and answers with that cluster's projection |
| Reconcile.LinkRoot | routes/identify.js:49-50 | the matched branch answers with the first potential root |
| Reconcile.IdentifyEstablishes | routes/identify.js:5-115 | a valid request on a consistent table succeeds, leaves every matching row in the named primary's cluster together with the request's fields, and answers with that cluster's projection |
| Reconcile.ClusterRootRef | routes/identify.js:39 | every member of a primary's cluster contributes that primary's id to the id set |
| Reconcile.FixedPointMatches | routes/identify.js:14-19 | on a reconciled table the same request matches some row, so Rule A does not apply |
| Reconcile.FixedPointCandidates | routes/identify.js:36-40 | on a reconciled table the only root candidate is the cluster's root |
| Reconcile.SoleRoot | routes/identify.js:44-50 | a primary's id selects only that primary, so nothing is displaced |
| Reconcile.NothingToLink | routes/identify.js:53-76 | with one root and nothing new, no UPDATE and no INSERT is issued, and the answer is the cluster's projection |
| Reconcile.ReconciledIsFixedPoint | routes/identify.js:5-115 | on a reconciled table the same request writes nothing and answers with the cluster's projection |
| Reconcile.IdentifyIdempotent | routes/identify.js:5-115 | repeating any request on a consistent table changes nothing and gets the same response |
| Properties.MergedKnownEmail | routes/identify.js:62-67 | an email is in the merged cluster exactly when some row of a touched cluster had it |
| Properties.MergedKnownPhone | routes/identify.js:62-68 | a phone is in the merged cluster exactly when some row of a touched cluster had it |
| Properties.AddIfNewKeepsRows | routes/identify.js:70-76 | Rule B only appends: earlier rows are untouched |
| Properties.IdentifyRuleA | routes/identify.js:19-33 | no match means one new unlinked primary row with the request's truthy fields and the next id, and the response lists its id and the request's own values with no secondaries |
| Properties.IdentifyRuleB | routes/identify.js:60-76 | a secondary of the root with the request's fields is appended exactly when the request brings an email or phone unknown to every touched cluster; otherwise nothing is inserted |
| Properties.IdentifyLinks | routes/identify.js:19-34 | a valid request that matches some row takes the merge branch |
| Properties.LinkMerges | routes/identify.js:52-58 | the matched branch joins exactly the touched clusters into the root's and keeps every other old row |
| Properties.IdentifyMergesTouched | routes/identify.js:52-58 | Rule C: the response names the root, every old row of a touched cluster is in its cluster, and every other old row is as it was |
| Properties.IdentifyPicksOldestRoot | routes/identify.js:42-50 | the named root is the primary among the touched clusters created first, with ties broken by lowest id |
| Properties.IdentifySinglePrimary | routes/identify.js:84 | after a valid request the named contact is a primary and the only primary of its cluster |
| Properties.ClusterSecondaries | routes/identify.js:98-100 | in a well-linked table the secondaries of a primary's cluster are exactly its non-root members |
| Properties.ClusterViewSpec | routes/identify.js:84-109 | a primary's cluster projects to its id, its emails and phones with the primary's first, and the increasing ids of its other members |
| Properties.IdentifyView | routes/identify.js:78-109 | the response of a valid request is the projection of the final cluster, and it lists the request's own email and phone |
| Properties.IdentifyKeepsInvariants | routes/identify.js:5-115 | every request keeps the table well formed and well linked |
| Properties.ReplayKeepsInvariants | routes/identify.js:5-115 | after any series of requests on the empty table the table is well formed and well linked, no row is older than the row it links to, and every cluster has exactly one primary, its root, which is no younger than any member |
| Seniority.LinksBelowNextId | setup-db.js:9-12 | in a consistent table every link names an id below the next AUTO_INCREMENT id |
| Seniority.AppendKeepsRootsOldest | routes/identify.js:21-24 | an insert, linked to nothing or to an existing row, keeps the seniority invariant |
| Seniority.MergeSetKeepsRootsOldest | routes/identify.js:53-58 | relinking every touched row to a root no younger than any displaced primary keeps the seniority invariant |
| Seniority.MergeKeepsRootsOldest | routes/identify.js:42-58 | the merge loop, relinking to `allPotentialPrimaries[0]`, keeps the seniority invariant |
| Seniority.AddIfNewKeepsRootsOldest | routes/identify.js:70-76 | Rule B's insert of a secondary of a primary keeps the seniority invariant |
| Seniority.IdentifyKeepsRootsOldest | routes/identify.js:5-115 | every request on a consistent table keeps the seniority invariant |
| Seniority.PrimaryIsOldest | routes/identify.js:42 | under the invariant a primary is no younger than any member of its cluster |
| Store.ContactStore.constructor | setup-db.js:8-17 | the created table is `Empty`, the start of `Replay`, and satisfies the invariants |
| Store.ContactStore.Insert | routes/identify.js:21-24 | the INSERT appends a row with the next id and the current time, and returns that id |
| Store.ContactStore.Relink | routes/identify.js:54-57 | the UPDATE rewrites the rows as the merge statement does and moves no counter |
| IdentifyRoute.CollectRoots | routes/identify.js:37-40 | the `forEach` loop builds exactly the candidate id set |
| IdentifyRoute.MergeInto | routes/identify.js:53-58 | the `for` loop of UPDATEs leaves the rows the merge fold specifies, and the counters unchanged |
| IdentifyRoute.AddAndRespond | routes/identify.js:62-109 | Rule B's check, its insert and the final projection leave the table and the response that Rule B and the projection specify |
| IdentifyRoute.PostIdentify | routes/identify.js:5-115 | the handler leaves the table and sends the response that `Identify` specifies, and it keeps the store's invariants, the seniority invariant among them |

## Left out

- The HTTP layer (Express routing, JSON parsing, status codes) is left
  out. A request is two optional strings, and the response is a
  `Result<ClusterView>`. Non-string JSON values are not modelled.
- A query that fails inside the database driver is not modelled. The
  model reaches the `catch` only by its own two `undefined` dereferences.
- MySQL's collation is left out. The default collations compare
  case- and accent-insensitively, and a PAD SPACE collation is also blind
  to trailing spaces. The match query is
  modelled with exact equality, the same equality as the `===` of
  lines 67-68.
- Column widths are left out: `VARCHAR(20)`, `VARCHAR(255)`, the `INT`
  id. Strings and ids are unbounded.
- `createdAt` is a counter that advances on every insert, not a
  one-second `TIMESTAMP`. So rows never tie on creation time, and the
  order MySQL picks among ties is not modelled.
- Concurrency is left out. Requests are handled one after another, and
  interleaved requests on the pool are not modelled.
- `updatedAt` and `deletedAt` are never read by the handler and are not
  modelled.
- Logging is not modelled (`console.error`, the setup script's messages).
- query.js, server.js and config/db are not part of this model. From
  setup-db.js only the table's columns are modelled.
