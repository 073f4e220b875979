/** The scheduled retention sweeps of the backend: stale chat messages and
    typing indicators in the realtime database, and user accounts whose
    deletion was requested a week ago. Each sweep first decides what to
    delete, then hands that to the database in one write; the decision is
    modelled here, the write is the database's. */
module Cleanup {
  import opened Seqs
  import opened Js
  import opened DocumentStore
  import opened Constants

  // ------------------------------------------------- realtime database sweeps

  /** A two-level realtime-database node: `/chats/<product>/<message>` or
      `/typing/<product>/<user>`. */
  type Tree = map<string, map<string, Value>>

  /** The database refuses `/` inside a key, so every key is one path
      segment. */
  predicate KeysWellFormed(tree: Tree)
  {
    forall p :: p in tree ==> '/' !in p && forall m :: m in tree[p] ==> '/' !in m
  }

  /** `entry.timestamp < cutoff`, with JavaScript's coercion: an entry
      without a timestamp compares as `NaN` and is never stale. */
  predicate IsStale(entry: Value, cutoff: int)
  {
    Below(OptProp(entry, "timestamp"), cutoff)
  }

  /** The (product, child) pairs a sweep with this cutoff selects. */
  function Stale(tree: Tree, cutoff: int): set<(string, string)>
  {
    set p, m | p in tree && m in tree[p] && IsStale(tree[p][m], cutoff) :: (p, m)
  }

  /** The update key of one child: `<root>/<product>/<child>`. */
  function Path(root: string, p: string, m: string): string
  {
    root + "/" + p + "/" + m
  }

  function PathsOf(root: string, pairs: set<(string, string)>): set<string>
  {
    set x | x in pairs :: Path(root, x.0, x.1)
  }

  /** A pair is selected exactly when its entry's timestamp is a number
      (after coercion) earlier than the cutoff; one exactly at the cutoff,
      a later one, and one with no timestamp are kept. */
  lemma StaleMembership(tree: Tree, cutoff: int, p: string, m: string)
    ensures (p, m) in Stale(tree, cutoff) <==>
      p in tree && m in tree[p] && Numeric(OptProp(tree[p][m], "timestamp")).Some? &&
      Numeric(OptProp(tree[p][m], "timestamp")).value < cutoff
  {
  }

  /** An earlier cutoff selects fewer entries: whatever the 30-day sweep
      would select, the 7-day rule selects too. */
  lemma StaleMonotone(tree: Tree, c1: int, c2: int)
    requires c1 <= c2
    ensures Stale(tree, c1) <= Stale(tree, c2)
  {
  }

  /** Two update keys under the same root are equal only for the same
      product and child. */
  lemma PathInjective(root: string, p1: string, m1: string, p2: string, m2: string)
    requires '/' !in p1 && '/' !in p2
    requires Path(root, p1, m1) == Path(root, p2, m2)
    ensures p1 == p2 && m1 == m2
  {
    var w := Path(root, p1, m1);
    var n := |root| + 1;
    assert w[n..] == p1 + "/" + m1;
    assert Path(root, p2, m2)[n..] == p2 + "/" + m2;
    SegmentsAgree(p1, m1, p2, m2);
  }

  lemma SegmentsAgree(p1: string, m1: string, p2: string, m2: string)
    requires '/' !in p1 && '/' !in p2
    requires p1 + "/" + m1 == p2 + "/" + m2
    ensures p1 == p2 && m1 == m2
  {
    var w := p1 + "/" + m1;
    SlashEndsSegment(p1, m1, p2, m2);
    SlashEndsSegment(p2, m2, p1, m1);
    assert p1 == w[..|p1|] == p2;
    assert m1 == w[|p1| + 1..] == m2;
  }

  /** The first `/` after a slash-free segment marks where it ends. */
  lemma SlashEndsSegment(p1: string, m1: string, p2: string, m2: string)
    ensures '/' !in p2 && |p1| < |p2| ==> p1 + "/" + m1 != p2 + "/" + m2
  {
    if '/' !in p2 && |p1| < |p2| {
      assert (p1 + "/" + m1)[|p1|] == '/';
      assert (p2 + "/" + m2)[|p1|] == p2[|p1|];
    }
  }

  /** The nested `forEach` of both realtime sweeps: every stale child of
      every product gets a `null` update under its path; the count logged
      is the number of update keys, one per selected entry. */
  method SelectStale(tree: Tree, root: string, cutoff: int) returns (updates: map<string, Value>, count: nat)
    ensures updates.Keys == PathsOf(root, Stale(tree, cutoff))
    ensures forall k :: k in updates ==> updates[k] == Null
    ensures KeysWellFormed(tree) ==> count == |Stale(tree, cutoff)|
  {
    updates := map[];
    ghost var chosen: set<(string, string)> := {};
    var products := tree.Keys;
    while products != {}
      invariant products <= tree.Keys
      invariant forall x :: x in chosen <==>
        x.0 in tree && x.0 !in products && x.1 in tree[x.0] && IsStale(tree[x.0][x.1], cutoff)
      invariant updates.Keys == PathsOf(root, chosen)
      invariant forall k :: k in updates ==> updates[k] == Null
      invariant KeysWellFormed(tree) ==> |updates| == |chosen|
      decreases products
    {
      var p :| p in products;
      var children := tree[p].Keys;
      while children != {}
        invariant children <= tree[p].Keys
        invariant forall x :: x in chosen <==>
          (x.0 in tree && x.0 !in products && x.1 in tree[x.0] && IsStale(tree[x.0][x.1], cutoff)) ||
          (x.0 == p && x.1 in tree[p] && x.1 !in children && IsStale(tree[p][x.1], cutoff))
        invariant updates.Keys == PathsOf(root, chosen)
        invariant forall k :: k in updates ==> updates[k] == Null
        invariant KeysWellFormed(tree) ==> |updates| == |chosen|
        decreases children
      {
        var m :| m in children;
        if IsStale(tree[p][m], cutoff) {
          if KeysWellFormed(tree) {
            NewPathIsFresh(tree, root, chosen, p, m);
          }
          updates := updates[Path(root, p, m) := Null];
          chosen := chosen + {(p, m)};
        }
        children := children - {m};
      }
      products := products - {p};
    }
    count := |updates|;
    assert chosen == Stale(tree, cutoff) by {
      forall x | x in Stale(tree, cutoff) ensures x in chosen {
        StaleMembership(tree, cutoff, x.0, x.1);
      }
    }
  }

  /** A pair not chosen yet has an update key not used yet. */
  lemma NewPathIsFresh(tree: Tree, root: string, chosen: set<(string, string)>, p: string, m: string)
    requires KeysWellFormed(tree) && p in tree && m in tree[p]
    requires forall x :: x in chosen ==> x.0 in tree && x.1 in tree[x.0]
    requires (p, m) !in chosen
    ensures Path(root, p, m) !in PathsOf(root, chosen)
  {
    if Path(root, p, m) in PathsOf(root, chosen) {
      var x :| x in chosen && Path(root, x.0, x.1) == Path(root, p, m);
      PathInjective(root, x.0, x.1, p, m);
      assert false;
    }
  }

  /** `cleanupOldChats`: messages older than thirty days, under `chats`. */
  method CleanupOldChats(chats: Tree, now: int) returns (updates: map<string, Value>, count: nat)
    ensures updates.Keys == PathsOf("chats", Stale(chats, now - 30 * DAY_MS))
    ensures forall k :: k in updates ==> updates[k] == Null
    ensures KeysWellFormed(chats) ==> count == |Stale(chats, now - 30 * DAY_MS)|
  {
    updates, count := SelectStale(chats, "chats", now - 30 * DAY_MS);
  }

  /** `cleanupUnreadIndicators`: typing entries older than seven days,
      under `typing`. */
  method CleanupUnreadIndicators(typing: Tree, now: int) returns (updates: map<string, Value>, count: nat)
    ensures updates.Keys == PathsOf("typing", Stale(typing, now - 7 * DAY_MS))
    ensures forall k :: k in updates ==> updates[k] == Null
    ensures KeysWellFormed(typing) ==> count == |Stale(typing, now - 7 * DAY_MS)|
  {
    updates, count := SelectStale(typing, "typing", now - 7 * DAY_MS);
  }

  /** The node after the multi-path update: every child whose path is set
      to `null` is removed. */
  function Apply(tree: Tree, root: string, updates: map<string, Value>): (r: Tree)
    ensures r.Keys == tree.Keys
    ensures forall p, m :: p in tree && m in r[p] ==> m in tree[p] && r[p][m] == tree[p][m]
  {
    map p | p in tree :: map m | m in tree[p] && !(Path(root, p, m) in updates && updates[Path(root, p, m)] == Null) :: tree[p][m]
  }

  /** After a sweep's update, exactly the fresh entries remain, each as it
      was: nothing stale survives and nothing fresh is lost. */
  lemma SweepKeepsExactlyFresh(tree: Tree, root: string, cutoff: int, updates: map<string, Value>, p: string, m: string)
    requires KeysWellFormed(tree)
    requires updates.Keys == PathsOf(root, Stale(tree, cutoff))
    requires forall k :: k in updates ==> updates[k] == Null
    requires p in tree
    ensures m in Apply(tree, root, updates)[p] <==> m in tree[p] && !IsStale(tree[p][m], cutoff)
  {
    if m in tree[p] && Path(root, p, m) in updates {
      var x :| x in Stale(tree, cutoff) && Path(root, x.0, x.1) == Path(root, p, m);
      StaleMembership(tree, cutoff, x.0, x.1);
      PathInjective(root, x.0, x.1, p, m);
    }
    if m in tree[p] && IsStale(tree[p][m], cutoff) {
      assert (p, m) in Stale(tree, cutoff);
      assert Path(root, p, m) in PathsOf(root, Stale(tree, cutoff));
    }
  }

  // ------------------------------------------------------------ user purge

  /** A document to delete: `collection/id`. */
  datatype Ref = Ref(collection: string, id: string)

  /** The `users` query: deletion requested, at or before the cutoff. The
      request time is a stored timestamp in milliseconds. */
  predicate MarkedForDeletion(data: Record, cutoff: int)
  {
    Get(data, "deletionRequested") == Bool(true) &&
    Get(data, "deletionRequestedAt").Num? && Get(data, "deletionRequestedAt").n <= cutoff
  }

  function ToPurge(users: seq<Doc>, cutoff: int): seq<Doc>
  {
    Filter(users, (u: Doc) => MarkedForDeletion(u.data, cutoff))
  }

  /** The `reviews` query for one user. */
  function ReviewsOf(reviews: seq<Doc>, userId: string): seq<Doc>
  {
    Filter(reviews, (d: Doc) => Get(d.data, "userId") == Str(userId))
  }

  /** The queries return exactly the marked users and exactly the user's
      reviews. */
  lemma QueryMembership(users: seq<Doc>, cutoff: int, reviews: seq<Doc>, userId: string, d: Doc)
    ensures d in ToPurge(users, cutoff) <==> d in users && MarkedForDeletion(d.data, cutoff)
    ensures d in ReviewsOf(reviews, userId) <==> d in reviews && Get(d.data, "userId") == Str(userId)
  {
    FilterMembership(users, (u: Doc) => MarkedForDeletion(u.data, cutoff), d);
    FilterMembership(reviews, (x: Doc) => Get(x.data, "userId") == Str(userId), d);
  }

  function RefsOf(collection: string, docs: seq<Doc>): (r: seq<Ref>)
    ensures |r| == |docs|
    ensures forall i :: 0 <= i < |docs| ==> r[i] == Ref(collection, docs[i].id)
  {
    seq(|docs|, i requires 0 <= i < |docs| => Ref(collection, docs[i].id))
  }

  /** What one purged user adds to the batch: their own document, then
      each of their reviews. */
  function UserRefs(user: Doc, reviews: seq<Doc>): seq<Ref>
  {
    [Ref("users", user.id)] + RefsOf("reviews", ReviewsOf(reviews, user.id))
  }

  /** The batch, user by user in the order of the given sequence. */
  function Batch(purged: seq<Doc>, reviews: seq<Doc>): seq<Ref>
  {
    if purged == [] then [] else Batch(purged[..|purged| - 1], reviews) + UserRefs(purged[|purged| - 1], reviews)
  }

  /** Everything `cleanupDeletedUsers` sets in motion. */
  datatype Purge = Purge(batch: seq<Ref>, presence: seq<string>, accounts: seq<string>, count: nat)

  /** `cleanupDeletedUsers`: for each user the query returns, their
      document and their reviews join the batch, and their presence entry
      and their sign-in account are queued for deletion; a failure to
      delete one account is logged and the rest go ahead. The count logged
      is the number of users. */
  method CleanupDeletedUsers(users: seq<Doc>, reviews: seq<Doc>, now: int) returns (plan: Purge)
    ensures var purged := ToPurge(users, now - 7 * DAY_MS);
      && plan.batch == Batch(purged, reviews)
      && |plan.presence| == |plan.accounts| == plan.count == |purged|
      && forall i :: 0 <= i < |purged| ==>
           plan.presence[i] == "presence/" + purged[i].id && plan.accounts[i] == purged[i].id
  {
    plan := PurgeUsers(ToPurge(users, now - 7 * DAY_MS), reviews);
  }

  /** The loop over the users the query returned. */
  method PurgeUsers(purged: seq<Doc>, reviews: seq<Doc>) returns (plan: Purge)
    ensures plan.batch == Batch(purged, reviews)
    ensures |plan.presence| == |plan.accounts| == plan.count == |purged|
    ensures forall i :: 0 <= i < |purged| ==>
      plan.presence[i] == "presence/" + purged[i].id && plan.accounts[i] == purged[i].id
  {
    var batch: seq<Ref> := [];
    var presence: seq<string> := [];
    var accounts: seq<string> := [];
    var i := 0;
    while i < |purged|
      invariant 0 <= i <= |purged|
      invariant batch == Batch(purged[..i], reviews)
      invariant |presence| == |accounts| == i
      invariant forall j :: 0 <= j < i ==> presence[j] == "presence/" + purged[j].id && accounts[j] == purged[j].id
    {
      var user := purged[i];
      batch := AddUser(batch, user, reviews);
      presence := presence + ["presence/" + user.id];
      accounts := accounts + [user.id];
      assert purged[..i + 1] == purged[..i] + [user];
      BatchSnoc(purged[..i], user, reviews);
      i := i + 1;
    }
    assert purged[..i] == purged;
    plan := Purge(batch, presence, accounts, |purged|);
  }

  /** One pass of the loop body: the user's document, then each document
      of their `reviews` query, join the batch. */
  method AddUser(batch: seq<Ref>, user: Doc, reviews: seq<Doc>) returns (r: seq<Ref>)
    ensures r == batch + UserRefs(user, reviews)
  {
    var head := batch + [Ref("users", user.id)];
    r := AddReviews(head, ReviewsOf(reviews, user.id));
  }

  /** The inner `forEach`: each review document of the query joins the
      batch, in the order of the given sequence. */
  method AddReviews(batch: seq<Ref>, own: seq<Doc>) returns (r: seq<Ref>)
    ensures r == batch + RefsOf("reviews", own)
  {
    r := batch;
    var k := 0;
    while k < |own|
      invariant 0 <= k <= |own|
      invariant r == batch + RefsOf("reviews", own[..k])
    {
      var next := Ref("reviews", own[k].id);
      assert own[..k + 1] == own[..k] + [own[k]];
      RefsOfSnoc("reviews", own[..k], own[k]);
      r := r + [next];
      k := k + 1;
    }
    assert own[..k] == own;
  }

  lemma RefsOfSnoc(collection: string, docs: seq<Doc>, d: Doc)
    ensures RefsOf(collection, docs + [d]) == RefsOf(collection, docs) + [Ref(collection, d.id)]
  {
  }

  lemma BatchSnoc(purged: seq<Doc>, user: Doc, reviews: seq<Doc>)
    ensures Batch(purged + [user], reviews) == Batch(purged, reviews) + UserRefs(user, reviews)
  {
    assert (purged + [user])[..|purged|] == purged;
  }

  /** A purged user's id. */
  predicate IsPurgedUser(purged: seq<Doc>, id: string)
  {
    exists u :: u in purged && u.id == id
  }

  /** The id of a `reviews` document written by a purged user. */
  predicate IsPurgedReview(purged: seq<Doc>, reviews: seq<Doc>, id: string)
  {
    exists u, d :: u in purged && d in reviews && Get(d.data, "userId") == Str(u.id) && d.id == id
  }

  lemma RefsOfMembership(collection: string, docs: seq<Doc>, r: Ref)
    ensures r in RefsOf(collection, docs) <==> r.collection == collection && exists d :: d in docs && d.id == r.id
  {
    if r in RefsOf(collection, docs) {
      var i :| 0 <= i < |docs| && RefsOf(collection, docs)[i] == r;
      assert docs[i] in docs;
    }
    if r.collection == collection && exists d :: d in docs && d.id == r.id {
      var d :| d in docs && d.id == r.id;
      var i :| 0 <= i < |docs| && docs[i] == d;
      assert RefsOf(collection, docs)[i] == r;
    }
  }

  /** What one user adds: their document and their reviews, nothing else. */
  lemma UserRefsMembership(user: Doc, reviews: seq<Doc>, r: Ref)
    ensures r in UserRefs(user, reviews) <==>
      (r.collection == "users" && r.id == user.id) ||
      (r.collection == "reviews" && exists d :: d in reviews && Get(d.data, "userId") == Str(user.id) && d.id == r.id)
  {
    RefsOfMembership("reviews", ReviewsOf(reviews, user.id), r);
    forall d ensures d in ReviewsOf(reviews, user.id) <==> d in reviews && Get(d.data, "userId") == Str(user.id) {
      QueryMembership([], 0, reviews, user.id, d);
    }
  }

  /** The batch deletes exactly the purged users' documents and the
      `reviews` documents that name one of them as author. */
  lemma {:induction false} BatchMembership(purged: seq<Doc>, reviews: seq<Doc>, r: Ref)
    ensures r in Batch(purged, reviews) <==>
      (r.collection == "users" && IsPurgedUser(purged, r.id)) ||
      (r.collection == "reviews" && IsPurgedReview(purged, reviews, r.id))
  {
    if purged != [] {
      var init := purged[..|purged| - 1];
      var last := purged[|purged| - 1];
      BatchMembership(init, reviews, r);
      UserRefsMembership(last, reviews, r);
      assert purged == init + [last];
      assert IsPurgedUser(purged, r.id) <==> IsPurgedUser(init, r.id) || last.id == r.id;
      assert IsPurgedReview(purged, reviews, r.id) <==>
        IsPurgedReview(init, reviews, r.id) ||
        exists d :: d in reviews && Get(d.data, "userId") == Str(last.id) && d.id == r.id;
    }
  }

  /** A user whose request is less than seven days old, or who withdrew
      it, is not touched; one requested exactly seven days ago is. */
  lemma PurgeBoundary(users: seq<Doc>, now: int, u: Doc)
    requires u in users
    ensures Get(u.data, "deletionRequested") != Bool(true) ==> u !in ToPurge(users, now - 7 * DAY_MS)
    ensures Get(u.data, "deletionRequested") == Bool(true) && Get(u.data, "deletionRequestedAt") == Num(now - 7 * DAY_MS) ==>
              u in ToPurge(users, now - 7 * DAY_MS)
    ensures Get(u.data, "deletionRequestedAt").Num? && Get(u.data, "deletionRequestedAt").n > now - 7 * DAY_MS ==>
              u !in ToPurge(users, now - 7 * DAY_MS)
  {
    QueryMembership(users, now - 7 * DAY_MS, [], "", u);
  }
}
