/**
 * The promise chain of `_processDeployment` as a pure function: listBuckets,
 * then the step functions in their fixed order, each skipped once an earlier
 * request has been rejected, then the upload walk.
 */
module Reconcile {
  import opened Wrappers
  import opened Paths
  import opened S3
  import opened Upload

  /** What the chain threads through: the provider's state, the requests issued so far, and `this.bucketExists`. */
  datatype Cursor = Cursor(store: Store, log: seq<Request>, bucketExists: bool)

  /** How the chain settles: resolved after the uploads were issued, or rejected with the first error. */
  datatype Outcome = Deployed | Failed(error: S3Error)

  /** `this.SDK.request(...)`: the request is logged and served. */
  function Send(c: Cursor, r: Request, faults: set<Request>): (Reply, Cursor)
  {
    var (reply, s) := Serve(c.store, r, r in faults);
    (reply, Cursor(s, c.log + [r], c.bucketExists))
  }

  /** The bucket names of a listBuckets reply. */
  function NamesOf(d: Data): seq<string>
  {
    if d.BucketList? then d.names else []
  }

  /** `listBuckets(data)`: the flag is set on an exact name match and never cleared. */
  function MarkExisting(bucketExists: bool, bucket: string, names: seq<string>): bool
  {
    bucketExists || bucket in names
  }

  /** `listObjectsInBucket()`. */
  function ListObjectsStep(c: Cursor, bucket: string, faults: set<Request>): (Reply, Cursor)
  {
    if !c.bucketExists then (Ok(NoData), c) else Send(c, ListObjects(bucket), faults)
  }

  /** `deleteObjectsFromBucket(data)`: one batch delete of the listed keys, unless nothing was listed. */
  function DeleteObjectsStep(c: Cursor, bucket: string, listing: Data, faults: set<Request>): (Reply, Cursor)
  {
    if !c.bucketExists then (Ok(NoData), c)
    else if listing.ObjectList? && listing.keys != [] then Send(c, DeleteObjects(bucket, listing.keys), faults)
    else (Ok(NoData), c)
  }

  /** `createBucket()`. */
  function CreateBucketStep(c: Cursor, bucket: string, faults: set<Request>): (Reply, Cursor)
  {
    if c.bucketExists then (Ok(NoData), c) else Send(c, CreateBucket(bucket), faults)
  }

  /** `configureBucket()`. */
  function ConfigureBucketStep(c: Cursor, bucket: string, faults: set<Request>): (Reply, Cursor)
  {
    Send(c, PutBucketWebsite(bucket, SiteConfig), faults)
  }

  /** `configurePolicyForBucket()`. */
  function ConfigurePolicyStep(c: Cursor, bucket: string, faults: set<Request>): (Reply, Cursor)
  {
    Send(c, PutBucketPolicy(bucket, PublicReadPolicy(bucket)), faults)
  }

  /** The uploads: every request is issued; a rejected one is ignored and the others still go out. */
  function UploadAll(c: Cursor, reqs: seq<Request>, faults: set<Request>): Cursor
    decreases |reqs|
  {
    if reqs == [] then c else UploadAll(Send(c, reqs[0], faults).1, reqs[1..], faults)
  }

  /** The putObject requests the walk of the build directory issues. */
  function Uploads(bucket: string, clientPath: string, dist: seq<Entry>, mime: string -> string, p: Platform): seq<Request>
  {
    UploadRequests(bucket, clientPath, FilePaths(clientPath, dist, p), mime)
  }

  /** The listBuckets request and `listBuckets(data)`. */
  function Discover(c: Cursor, bucket: string, faults: set<Request>): (Reply, Cursor)
  {
    var (r, c1) := Send(c, ListBuckets, faults);
    if r.Err? then (r, c1)
    else (r, c1.(bucketExists := MarkExisting(c1.bucketExists, bucket, NamesOf(r.data))))
  }

  /** `listObjectsInBucket` then `deleteObjectsFromBucket`. */
  function ClearStale(c: Cursor, bucket: string, faults: set<Request>): (Reply, Cursor)
  {
    var (r, c1) := ListObjectsStep(c, bucket, faults);
    if r.Err? then (r, c1) else DeleteObjectsStep(c1, bucket, r.data, faults)
  }

  /** `createBucket`, `configureBucket`, then `configurePolicyForBucket`. */
  function Provision(c: Cursor, bucket: string, faults: set<Request>): (Reply, Cursor)
  {
    var (r1, c1) := CreateBucketStep(c, bucket, faults);
    if r1.Err? then (r1, c1) else
    var (r2, c2) := ConfigureBucketStep(c1, bucket, faults);
    if r2.Err? then (r2, c2) else ConfigurePolicyStep(c2, bucket, faults)
  }

  /** `_processDeployment()` from the state `c`, for bucket `bucket` and build directory `clientPath`. */
  function Run(c: Cursor, bucket: string, clientPath: string, dist: seq<Entry>, mime: string -> string,
               p: Platform, faults: set<Request>): (Cursor, Outcome)
  {
    var (r1, c1) := Discover(c, bucket, faults);
    if r1.Err? then (c1, Failed(r1.error)) else
    var (r2, c2) := ClearStale(c1, bucket, faults);
    if r2.Err? then (c2, Failed(r2.error)) else
    var (r3, c3) := Provision(c2, bucket, faults);
    if r3.Err? then (c3, Failed(r3.error)) else
    (UploadAll(c3, Uploads(bucket, clientPath, dist, mime, p), faults), Deployed)
  }

  // ---------------------------------------------------------------- the reference script

  /** The keys a listObjects of `bucket` returns. */
  function Listing(s: Store, bucket: string): seq<string>
  {
    if bucket in s.buckets then Keys(s.buckets[bucket].objects) else []
  }

  /** What listObjectsInBucket and deleteObjectsFromBucket issue when nothing fails. */
  function ClearPlan(s: Store, bucketExists: bool, bucket: string): seq<Request>
  {
    var keys := Listing(s, bucket);
    if !bucketExists then [] else [ListObjects(bucket)] + (if keys != [] then [DeleteObjects(bucket, keys)] else [])
  }

  /** What createBucket, configureBucket and configurePolicyForBucket issue when nothing fails. */
  function ProvisionPlan(bucketExists: bool, bucket: string): seq<Request>
  {
    (if bucketExists then [] else [CreateBucket(bucket)])
    + [PutBucketWebsite(bucket, SiteConfig), PutBucketPolicy(bucket, PublicReadPolicy(bucket))]
  }

  /**
   * The reconciliation requests, read off the initial store: list the buckets;
   * for an existing bucket list its objects and delete them if there are any;
   * for a missing one create it; then the website configuration and the policy.
   */
  function ReconcilePlan(s: Store, bucketExists: bool, bucket: string): seq<Request>
  {
    var ex := bucketExists || bucket in s.names;
    [ListBuckets] + ClearPlan(s, ex, bucket) + ProvisionPlan(ex, bucket)
  }

  /** The order of the request kinds in the chain; every upload comes last. */
  function Rank(r: Request): nat
  {
    match r
    case ListBuckets => 0
    case ListObjects(_) => 1
    case DeleteObjects(_, _) => 2
    case CreateBucket(_) => 3
    case PutBucketWebsite(_, _) => 4
    case PutBucketPolicy(_, _) => 5
    case PutObject(_, _, _) => 6
  }

  /** The requests of `reqs` come in the chain's order. */
  predicate RankOrdered(reqs: seq<Request>)
  {
    forall i, j :: 0 <= i < j < |reqs| ==> Rank(reqs[i]) <= Rank(reqs[j])
  }

  /** The objects a bucket holds after the putObject requests among `reqs` that the provider accepts. */
  function AfterUploads(objects: seq<S3Object>, reqs: seq<Request>, faults: set<Request>): seq<S3Object>
    decreases |reqs|
  {
    if reqs == [] then objects
    else if reqs[0].PutObject? && reqs[0] !in faults
    then AfterUploads(Upsert(objects, S3Object(reqs[0].key, reqs[0].contentType)), reqs[1..], faults)
    else AfterUploads(objects, reqs[1..], faults)
  }

  // ---------------------------------------------------------------- properties

  /**
   * A stage that started from `c` and ended in `c'` with reply `r` issued the
   * script `plan` in full, every request of it accepted, if it succeeded, and
   * otherwise a non-empty prefix of it whose requests were all accepted except
   * the last, the one that failed.
   */
  predicate Issued(c: Cursor, c': Cursor, r: Reply, plan: seq<Request>, faults: set<Request>)
  {
    && (r.Ok? ==> c'.log == c.log + plan && forall q :: q in plan ==> q !in faults)
    && (r.Err? ==> exists k :: 0 < k <= |plan| && c'.log == c.log + plan[..k]
                              && (forall i :: 0 <= i < k - 1 ==> plan[i] !in faults)
                              && (r.error == Rejected ==> plan[k - 1] in faults))
  }

  /** A stage that succeeded followed by one more stage issued the two scripts one after the other. */
  lemma IssuedThen(c: Cursor, c1: Cursor, r1: Reply, p1: seq<Request>,
                   c2: Cursor, r2: Reply, p2: seq<Request>, faults: set<Request>)
    requires r1.Ok? && Issued(c, c1, r1, p1, faults) && Issued(c1, c2, r2, p2, faults)
    ensures Issued(c, c2, r2, p1 + p2, faults)
  {
    if r2.Err? {
      var k :| 0 < k <= |p2| && c2.log == c1.log + p2[..k]
               && (forall i :: 0 <= i < k - 1 ==> p2[i] !in faults)
               && (r2.error == Rejected ==> p2[k - 1] in faults);
      assert (p1 + p2)[..|p1| + k] == p1 + p2[..k];
      assert (p1 + p2)[|p1| + k - 1] == p2[k - 1];
      forall i | 0 <= i < |p1| + k - 1
        ensures (p1 + p2)[i] !in faults
      {
        if i < |p1| {
          assert (p1 + p2)[i] == p1[i] && p1[i] in p1;
        } else {
          assert (p1 + p2)[i] == p2[i - |p1|];
        }
      }
    }
  }

  /** A stage that failed issued a prefix of any script that extends its own. */
  lemma IssuedExtend(c: Cursor, c': Cursor, r: Reply, p1: seq<Request>, p2: seq<Request>, faults: set<Request>)
    requires r.Err? && Issued(c, c', r, p1, faults)
    ensures Issued(c, c', r, p1 + p2, faults)
  {
    var k :| 0 < k <= |p1| && c'.log == c.log + p1[..k]
             && (forall i :: 0 <= i < k - 1 ==> p1[i] !in faults)
             && (r.error == Rejected ==> p1[k - 1] in faults);
    assert (p1 + p2)[..k] == p1[..k];
    assert forall i :: 0 <= i < k ==> (p1 + p2)[i] == p1[i];
  }

  /** A stage that failed at once issued only its first request. */
  lemma IssuedFirst(c: Cursor, c': Cursor, r: Reply, plan: seq<Request>, faults: set<Request>)
    requires r.Err? && plan != [] && c'.log == c.log + [plan[0]] && (r.error == Rejected ==> plan[0] in faults)
    ensures Issued(c, c', r, plan, faults)
  {
    assert plan[..1] == [plan[0]];
  }

  /** A successful stage leaves the account's bucket set as it was or larger, and only `bucket` may change. */
  predicate OnlyTouches(s: Store, s': Store, bucket: string)
  {
    (forall n :: n in s.names ==> n in s'.names)
    && forall n :: n in s.buckets && n != bucket ==> n in s'.buckets && s'.buckets[n] == s.buckets[n]
  }

  /** listBuckets: the flag ends true iff it was already true or some listed name equals the bucket name exactly. */
  lemma DiscoverSpec(c: Cursor, bucket: string, faults: set<Request>)
    ensures var (r, c') := Discover(c, bucket, faults);
      && Issued(c, c', r, [ListBuckets], faults)
      && c'.store == c.store
      && c'.bucketExists == (c.bucketExists || (r.Ok? && bucket in c.store.names))
      && (r.Ok? <==> ListBuckets !in faults)
  {
    var (r, c') := Discover(c, bucket, faults);
    if r.Err? {
      IssuedFirst(c, c', r, [ListBuckets], faults);
    }
  }

  /**
   * Clearing stale content: nothing for a bucket believed absent; otherwise
   * the listing, then one batch delete of exactly the listed keys in listing
   * order when there are any, after which the bucket is empty.
   */
  lemma ClearStaleSpec(c: Cursor, bucket: string, faults: set<Request>)
    requires c.store.Valid()
    ensures var (r, c') := ClearStale(c, bucket, faults);
      && Issued(c, c', r, ClearPlan(c.store, c.bucketExists, bucket), faults)
      && c'.bucketExists == c.bucketExists
      && c'.store.Valid() && OnlyTouches(c.store, c'.store, bucket)
      && c'.store.names == c.store.names
      && (r.Err? ==> c'.store == c.store)
      && (r.Ok? && !c.bucketExists ==> c'.store == c.store)
      && (r.Ok? && c.bucketExists ==>
            bucket in c.store.buckets
            && c'.store.buckets == c.store.buckets[bucket := c.store.buckets[bucket].(objects := [])])
  {
    var plan := ClearPlan(c.store, c.bucketExists, bucket);
    var (r1, c1) := ListObjectsStep(c, bucket, faults);
    var (r, c') := ClearStale(c, bucket, faults);
    if c.bucketExists {
      ListObjectsSpec(c, bucket, faults);
      if r1.Err? {
        IssuedFirst(c, c', r, plan, faults);
      } else {
        var keys := Listing(c.store, bucket);
        if keys != [] {
          DeleteObjectsSpec(c1, bucket, faults);
          if r.Err? {
            assert plan[..2] == plan;
          }
        } else {
          var bk := c.store.buckets[bucket];
          assert bk.objects == [];
          assert c.store.buckets[bucket := bk.(objects := [])] == c.store.buckets;
        }
      }
    }
  }

  /** listObjects on a bucket believed to exist: its keys in listing order, or NoSuchBucket when it is gone. */
  lemma ListObjectsSpec(c: Cursor, bucket: string, faults: set<Request>)
    requires c.bucketExists
    ensures var (r, c') := ListObjectsStep(c, bucket, faults);
      && c' == c.(log := c.log + [ListObjects(bucket)])
      && (r.Ok? <==> ListObjects(bucket) !in faults && bucket in c.store.buckets)
      && (r.Ok? ==> r.data == ObjectList(Listing(c.store, bucket)))
      && (r.Err? && r.error == Rejected ==> ListObjects(bucket) in faults)
  {
  }

  /** The batch delete of a non-empty listing of the whole bucket leaves it empty and touches nothing else. */
  lemma DeleteObjectsSpec(c: Cursor, bucket: string, faults: set<Request>)
    requires c.bucketExists && bucket in c.store.buckets && Listing(c.store, bucket) != []
    ensures var keys := Listing(c.store, bucket);
      var (r, c') := DeleteObjectsStep(c, bucket, ObjectList(keys), faults);
      && c'.log == c.log + [DeleteObjects(bucket, keys)] && c'.bucketExists == c.bucketExists
      && c'.store.names == c.store.names
      && (r.Ok? ==> c'.store.buckets == c.store.buckets[bucket := c.store.buckets[bucket].(objects := [])])
      && (r.Err? ==> c'.store == c.store && (r.error == Rejected ==> DeleteObjects(bucket, keys) in faults))
  {
    RemoveListedEmpties(c.store.buckets[bucket].objects);
  }

  /**
   * Provisioning: createBucket exactly when the bucket is believed absent,
   * then the website configuration and the public-read policy, whether or not
   * the bucket existed before; afterwards the bucket exists with both set.
   */
  lemma ProvisionSpec(c: Cursor, bucket: string, faults: set<Request>)
    requires c.store.Valid()
    ensures var (r, c') := Provision(c, bucket, faults);
      && Issued(c, c', r, ProvisionPlan(c.bucketExists, bucket), faults)
      && c'.bucketExists == c.bucketExists
      && c'.store.Valid() && OnlyTouches(c.store, c'.store, bucket)
      && (r.Ok? ==>
            bucket in c'.store.buckets
            && c'.store.buckets[bucket].website == Some(SiteConfig)
            && c'.store.buckets[bucket].policy == Some(PublicReadPolicy(bucket))
            && c'.store.buckets[bucket].objects == (if c.bucketExists then c.store.buckets[bucket].objects else []))
      && (((c.bucketExists <==> bucket in c.store.buckets)
           && (forall q :: q in ProvisionPlan(c.bucketExists, bucket) ==> q !in faults)) ==> r.Ok?)
  {
    ProvisionIssued(c, bucket, faults);
  }

  /** The script part of `ProvisionSpec`, one step at a time. */
  lemma ProvisionIssued(c: Cursor, bucket: string, faults: set<Request>)
    ensures var (r, c') := Provision(c, bucket, faults);
      Issued(c, c', r, ProvisionPlan(c.bucketExists, bucket), faults)
  {
    var w0, w1 := PutBucketWebsite(bucket, SiteConfig), PutBucketPolicy(bucket, PublicReadPolicy(bucket));
    var pre := if c.bucketExists then [] else [CreateBucket(bucket)];
    assert ProvisionPlan(c.bucketExists, bucket) == pre + [w0] + [w1];
    var (r1, c1) := CreateBucketStep(c, bucket, faults);
    if !c.bucketExists {
      SendIssued(c, CreateBucket(bucket), faults);
    }
    if r1.Err? {
      IssuedExtend(c, c1, r1, pre, [w0] + [w1], faults);
      assert pre + ([w0] + [w1]) == pre + [w0] + [w1];
    } else {
      var (r2, c2) := ConfigureBucketStep(c1, bucket, faults);
      SendIssued(c1, w0, faults);
      IssuedThen(c, c1, r1, pre, c2, r2, [w0], faults);
      if r2.Err? {
        IssuedExtend(c, c2, r2, pre + [w0], [w1], faults);
      } else {
        var (r3, c3) := ConfigurePolicyStep(c2, bucket, faults);
        SendIssued(c2, w1, faults);
        IssuedThen(c, c2, r2, pre + [w0], c3, r3, [w1], faults);
      }
    }
  }

  /** Sending one request issues the script made of that request alone. */
  lemma SendIssued(c: Cursor, q: Request, faults: set<Request>)
    ensures var (r, c') := Send(c, q, faults);
      Issued(c, c', r, [q], faults)
  {
    var (r, c') := Send(c, q, faults);
    if r.Err? {
      assert [q][..1] == [q];
    }
  }

  /** The uploads go out one after the other, each logged, none skipped. */
  lemma {:induction false} UploadAllLog(c: Cursor, reqs: seq<Request>, faults: set<Request>)
    ensures UploadAll(c, reqs, faults).log == c.log + reqs
    ensures UploadAll(c, reqs, faults).bucketExists == c.bucketExists
    decreases |reqs|
  {
    if reqs != [] {
      var c' := Send(c, reqs[0], faults).1;
      SendLog(c, reqs[0], faults);
      UploadAllLog(c', reqs[1..], faults);
      assert [reqs[0]] + reqs[1..] == reqs;
      ConcatAssoc(c.log, [reqs[0]], reqs[1..]);
    }
  }

  /** Sending a request appends it to the log and leaves the flag alone. */
  lemma SendLog(c: Cursor, r: Request, faults: set<Request>)
    ensures Send(c, r, faults).1.log == c.log + [r]
    ensures Send(c, r, faults).1.bucketExists == c.bucketExists
  {
  }

  /** Issuing two batches of uploads one after the other is issuing their concatenation. */
  lemma {:induction false} UploadAllAppend(c: Cursor, a: seq<Request>, b: seq<Request>, faults: set<Request>)
    ensures UploadAll(c, a + b, faults) == UploadAll(UploadAll(c, a, faults), b, faults)
    decreases |a|
  {
    if a != [] {
      assert (a + b)[0] == a[0];
      assert (a + b)[1..] == a[1..] + b;
      UploadAllAppend(Send(c, a[0], faults).1, a[1..], b, faults);
    } else {
      assert a + b == b;
    }
  }

  /**
   * One more entry of a directory: the uploads of its first `i + 1` entries
   * are those of the first `i` followed by the uploads that entry causes.
   */
  lemma WalkStep(c: Cursor, bucket: string, clientPath: string, dir: string, entries: seq<Entry>, i: nat,
                 mime: string -> string, p: Platform, faults: set<Request>)
    requires i < |entries|
    ensures var e := entries[i];
      var here := if e.File? then [Join(dir, e.name, p)] else FilePaths(Join(dir, e.name, p), e.entries, p);
      UploadAll(c, UploadRequests(bucket, clientPath, FilePaths(dir, entries[..i + 1], p), mime), faults)
      == UploadAll(UploadAll(c, UploadRequests(bucket, clientPath, FilePaths(dir, entries[..i], p), mime), faults),
                   UploadRequests(bucket, clientPath, here, mime), faults)
  {
    assert entries[..i + 1] == entries[..i] + [entries[i]];
    FilePathsAppend(dir, entries[..i], [entries[i]], p);
    FilePathsSingle(dir, entries[i], p);
    UploadRequestsAppend(bucket, clientPath, FilePaths(dir, entries[..i], p), FilePaths(dir, [entries[i]], p), mime);
    UploadAllAppend(c, UploadRequests(bucket, clientPath, FilePaths(dir, entries[..i], p), mime),
                    UploadRequests(bucket, clientPath, FilePaths(dir, [entries[i]], p), mime), faults);
  }

  /**
   * Uploads into an existing bucket: each accepted putObject upserts one
   * object; nothing else in the account changes.
   */
  lemma {:induction false} UploadAllStore(c: Cursor, bucket: string, reqs: seq<Request>, faults: set<Request>)
    requires c.store.Valid() && bucket in c.store.buckets
    requires forall i :: 0 <= i < |reqs| ==> reqs[i].PutObject? && reqs[i].bucket == bucket
    ensures var c' := UploadAll(c, reqs, faults);
      && c'.store.Valid()
      && c'.store.names == c.store.names && c'.store.buckets.Keys == c.store.buckets.Keys
      && (forall n :: n in c.store.buckets && n != bucket ==> c'.store.buckets[n] == c.store.buckets[n])
      && c'.store.buckets[bucket] == c.store.buckets[bucket].(objects := AfterUploads(c.store.buckets[bucket].objects, reqs, faults))
    decreases |reqs|
  {
    if reqs != [] {
      var c1 := Send(c, reqs[0], faults).1;
      PutStep(c, reqs[0], faults);
      UploadAllStore(c1, bucket, reqs[1..], faults);
    }
  }

  /** One putObject into an existing bucket: accepted, it upserts the object there; rejected, it changes nothing. */
  lemma PutStep(c: Cursor, r: Request, faults: set<Request>)
    requires c.store.Valid() && r.PutObject? && r.bucket in c.store.buckets
    ensures var bk := c.store.buckets[r.bucket];
      Send(c, r, faults).1
      == c.(store := c.store.(buckets := c.store.buckets[r.bucket := bk.(objects :=
              if r in faults then bk.objects else Upsert(bk.objects, S3Object(r.key, r.contentType)))]),
            log := c.log + [r])
  {
    if r in faults {
      assert c.store.buckets[r.bucket := c.store.buckets[r.bucket]] == c.store.buckets;
    }
  }

  /** Any sequence of requests, accepted or rejected, leaves a well-formed account well-formed. */
  lemma {:induction false} UploadAllValid(c: Cursor, reqs: seq<Request>, faults: set<Request>)
    requires c.store.Valid()
    ensures UploadAll(c, reqs, faults).store.Valid()
    decreases |reqs|
  {
    if reqs != [] {
      UploadAllValid(Send(c, reqs[0], faults).1, reqs[1..], faults);
    }
  }

  /** Whatever the outcome, a deployment leaves a well-formed account well-formed. */
  lemma RunKeepsValid(c: Cursor, bucket: string, clientPath: string, dist: seq<Entry>, mime: string -> string,
                      p: Platform, faults: set<Request>)
    requires c.store.Valid()
    ensures Run(c, bucket, clientPath, dist, mime, p, faults).0.store.Valid()
  {
    var (r1, c1) := Discover(c, bucket, faults);
    var (r2, c2) := ClearStale(c1, bucket, faults);
    var (r3, c3) := Provision(c2, bucket, faults);
    UploadAllValid(c3, Uploads(bucket, clientPath, dist, mime, p), faults);
  }

  // ---------------------------------------------------------------- the whole chain

  /**
   * The requests `_processDeployment` issues follow the reference script: all
   * of it, every request accepted, and then the uploads when the chain
   * resolves, otherwise a non-empty prefix of the reconciliation part whose
   * requests were accepted up to the one that failed, so that nothing after a
   * failing step, no upload in particular, is issued.
   * The flag ends true iff it was true already or listBuckets named the bucket.
   */
  lemma RunFollowsPlan(c: Cursor, bucket: string, clientPath: string, dist: seq<Entry>, mime: string -> string,
                       p: Platform, faults: set<Request>)
    requires c.store.Valid()
    ensures var (c', o) := Run(c, bucket, clientPath, dist, mime, p, faults);
      var plan := ReconcilePlan(c.store, c.bucketExists, bucket);
      && (o.Deployed? ==> c'.log == c.log + plan + Uploads(bucket, clientPath, dist, mime, p)
                          && forall q :: q in plan ==> q !in faults)
      && (o.Failed? ==> Issued(c, c', Err(o.error), plan, faults))
      && c'.bucketExists == (c.bucketExists || (ListBuckets !in faults && bucket in c.store.names))
  {
    var ex := c.bucketExists || bucket in c.store.names;
    DiscoverSpec(c, bucket, faults);
    var (r1, c1) := Discover(c, bucket, faults);
    var p1, p2, p3 := [ListBuckets], ClearPlan(c.store, ex, bucket), ProvisionPlan(ex, bucket);
    if r1.Ok? {
      ClearStaleSpec(c1, bucket, faults);
      var (r2, c2) := ClearStale(c1, bucket, faults);
      IssuedThen(c, c1, r1, p1, c2, r2, p2, faults);
      if r2.Ok? {
        ProvisionSpec(c2, bucket, faults);
        var (r3, c3) := Provision(c2, bucket, faults);
        IssuedThen(c, c2, r2, p1 + p2, c3, r3, p3, faults);
        if r3.Ok? {
          UploadAllLog(c3, Uploads(bucket, clientPath, dist, mime, p), faults);
        }
      } else {
        IssuedExtend(c, c2, r2, p1 + p2, p3, faults);
      }
    } else {
      IssuedExtend(c, c1, r1, p1, p2 + p3, faults);
      assert p1 + (p2 + p3) == p1 + p2 + p3;
    }
  }

  /**
   * After a deployment that resolved, the bucket exists, holds exactly the
   * accepted uploads (every object it held before is gone), serves the site
   * with `index.html` and `error.html` and carries the public-read policy; no
   * other bucket changed and none disappeared.
   */
  lemma DeployedState(c: Cursor, bucket: string, clientPath: string, dist: seq<Entry>, mime: string -> string,
                      p: Platform, faults: set<Request>)
    requires c.store.Valid()
    ensures var (c', o) := Run(c, bucket, clientPath, dist, mime, p, faults);
      o.Deployed? ==>
        && c'.store.Valid() && OnlyTouches(c.store, c'.store, bucket)
        && bucket in c'.store.buckets
        && c'.store.buckets[bucket]
           == Bucket(AfterUploads([], Uploads(bucket, clientPath, dist, mime, p), faults),
                     Some(SiteConfig), Some(PublicReadPolicy(bucket)))
  {
    DiscoverSpec(c, bucket, faults);
    var (r1, c1) := Discover(c, bucket, faults);
    if r1.Ok? {
      ClearStaleSpec(c1, bucket, faults);
      var (r2, c2) := ClearStale(c1, bucket, faults);
      if r2.Ok? {
        ProvisionSpec(c2, bucket, faults);
        var (r3, c3) := Provision(c2, bucket, faults);
        if r3.Ok? {
          var ups := Uploads(bucket, clientPath, dist, mime, p);
          assert c3.store.buckets[bucket].objects == [];
          UploadAllStore(c3, bucket, ups, faults);
        }
      }
    }
  }

  /**
   * A plugin object that has not yet seen the bucket, against a provider that
   * rejects none of the reconciliation requests, always reaches the uploads.
   */
  lemma CleanRunDeploys(c: Cursor, bucket: string, clientPath: string, dist: seq<Entry>, mime: string -> string,
                        p: Platform, faults: set<Request>)
    requires c.store.Valid() && !c.bucketExists
    requires forall q :: q in ReconcilePlan(c.store, c.bucketExists, bucket) ==> q !in faults
    ensures Run(c, bucket, clientPath, dist, mime, p, faults).1 == Deployed
  {
    var ex := bucket in c.store.names;
    var plan := ReconcilePlan(c.store, c.bucketExists, bucket);
    assert plan == [ListBuckets] + ClearPlan(c.store, ex, bucket) + ProvisionPlan(ex, bucket);
    DiscoverSpec(c, bucket, faults);
    var (r1, c1) := Discover(c, bucket, faults);
    assert ListBuckets in plan;
    ClearStaleSpec(c1, bucket, faults);
    var (r2, c2) := ClearStale(c1, bucket, faults);
    if ex {
      ListObjectsSpec(c1, bucket, faults);
      assert ListObjects(bucket) in plan;
      if Listing(c.store, bucket) != [] {
        assert DeleteObjects(bucket, Listing(c.store, bucket)) in plan;
        DeleteObjectsSpec(ListObjectsStep(c1, bucket, faults).1, bucket, faults);
      }
    }
    assert r2.Ok?;
    ProvisionSpec(c2, bucket, faults);
    assert forall q :: q in ProvisionPlan(ex, bucket) ==> q in plan;
  }

  /**
   * The flag is never reset: a plugin object that believes in a bucket the
   * account no longer has skips createBucket and fails at listObjects.
   */
  lemma StaleFlagFails(c: Cursor, bucket: string, clientPath: string, dist: seq<Entry>, mime: string -> string,
                       p: Platform, faults: set<Request>)
    requires c.store.Valid() && c.bucketExists && bucket !in c.store.buckets
    requires ListBuckets !in faults && ListObjects(bucket) !in faults
    ensures var (c', o) := Run(c, bucket, clientPath, dist, mime, p, faults);
      o == Failed(NoSuchBucket) && c'.log == c.log + [ListBuckets, ListObjects(bucket)] && c'.store == c.store
  {
    DiscoverSpec(c, bucket, faults);
    var (r1, c1) := Discover(c, bucket, faults);
    ListObjectsSpec(c1, bucket, faults);
  }

  // ---------------------------------------------------------------- the script

  /** The three shapes the script can take. */
  lemma PlanShape(s: Store, bucketExists: bool, bucket: string)
    ensures var plan := ReconcilePlan(s, bucketExists, bucket);
      var ex := bucketExists || bucket in s.names;
      var keys := Listing(s, bucket);
      var tail := [PutBucketWebsite(bucket, SiteConfig), PutBucketPolicy(bucket, PublicReadPolicy(bucket))];
      && (ex && keys != [] ==> plan == [ListBuckets, ListObjects(bucket), DeleteObjects(bucket, keys)] + tail)
      && (ex && keys == [] ==> plan == [ListBuckets, ListObjects(bucket)] + tail)
      && (!ex ==> plan == [ListBuckets, CreateBucket(bucket)] + tail)
  {
    var ex := bucketExists || bucket in s.names;
    var keys := Listing(s, bucket);
    var tail := [PutBucketWebsite(bucket, SiteConfig), PutBucketPolicy(bucket, PublicReadPolicy(bucket))];
    if ex && keys != [] {
      assert ClearPlan(s, ex, bucket) == [ListObjects(bucket), DeleteObjects(bucket, keys)];
    } else if ex {
      assert ClearPlan(s, ex, bucket) == [ListObjects(bucket)];
    }
  }

  /**
   * The reference script in order: listBuckets, listObjects, deleteObjects,
   * createBucket, putBucketWebsite, putBucketPolicy, each at most once and in
   * this order, then the uploads; everything is addressed to the deployed bucket.
   */
  lemma PlanOrder(s: Store, bucketExists: bool, bucket: string, ups: seq<Request>)
    requires forall i :: 0 <= i < |ups| ==> ups[i].PutObject?
    ensures var plan := ReconcilePlan(s, bucketExists, bucket);
      && (forall i, j :: 0 <= i < j < |plan| ==> Rank(plan[i]) < Rank(plan[j]))
      && RankOrdered(plan + ups)
      && (forall i :: 0 <= i < |plan| ==> plan[i] == ListBuckets || Addresses(plan[i], bucket))
      && (forall i :: 0 <= i < |plan| ==> Rank(plan[i]) < 6)
  {
    var plan := ReconcilePlan(s, bucketExists, bucket);
    PlanShape(s, bucketExists, bucket);
    assert forall i :: 0 <= i < |plan| ==> Rank(plan[i]) < 6;
    forall i, j | 0 <= i < j < |plan + ups| ensures Rank((plan + ups)[i]) <= Rank((plan + ups)[j]) {
      if j >= |plan| {
        assert (plan + ups)[j] == ups[j - |plan|];
      }
    }
  }

  /**
   * What the script holds, read off the initial store: createBucket iff the
   * bucket is not known to exist; listObjects iff it is; one deleteObjects iff
   * it is known to exist and its listing is non-empty, carrying exactly the
   * listed keys in listing order; the website configuration and the policy always.
   */
  lemma PlanContents(s: Store, bucketExists: bool, bucket: string)
    ensures var plan := ReconcilePlan(s, bucketExists, bucket);
      var ex := bucketExists || bucket in s.names;
      && (CreateBucket(bucket) in plan <==> !ex)
      && (forall q :: q in plan && q.CreateBucket? ==> q == CreateBucket(bucket))
      && (ListObjects(bucket) in plan <==> ex)
      && ((exists q :: q in plan && q.DeleteObjects?) <==> ex && Listing(s, bucket) != [])
      && (forall q :: q in plan && q.DeleteObjects? ==> q == DeleteObjects(bucket, Listing(s, bucket)))
      && PutBucketWebsite(bucket, WebsiteConfig("index.html", "error.html")) in plan
      && PutBucketPolicy(bucket, PublicReadPolicy(bucket)) in plan
  {
    var plan := ReconcilePlan(s, bucketExists, bucket);
    PlanShape(s, bucketExists, bucket);
    if (bucketExists || bucket in s.names) && Listing(s, bucket) != [] {
      assert plan[2] in plan && plan[2].DeleteObjects?;
    }
  }

  /**
   * The issued requests keep the chain's order, and a putObject is issued
   * only when the whole reconciliation, the policy included, succeeded.
   */
  lemma IssuedInOrder(c: Cursor, bucket: string, clientPath: string, dist: seq<Entry>, mime: string -> string,
                      p: Platform, faults: set<Request>)
    requires c.store.Valid()
    ensures var (c', o) := Run(c, bucket, clientPath, dist, mime, p, faults);
      && |c.log| <= |c'.log| && c'.log[..|c.log|] == c.log
      && RankOrdered(c'.log[|c.log|..])
      && (o.Failed? ==> forall i :: |c.log| <= i < |c'.log| ==> !c'.log[i].PutObject?)
  {
    var (c', o) := Run(c, bucket, clientPath, dist, mime, p, faults);
    var plan := ReconcilePlan(c.store, c.bucketExists, bucket);
    var ups := Uploads(bucket, clientPath, dist, mime, p);
    RunFollowsPlan(c, bucket, clientPath, dist, mime, p, faults);
    PlanOrder(c.store, c.bucketExists, bucket, ups);
    ScriptOrder(c.log, c'.log, plan, ups, o.Deployed?);
  }

  /** The log of a run that issued the script, or a prefix of its reconciliation part. */
  lemma ScriptOrder(log: seq<Request>, log': seq<Request>, plan: seq<Request>, ups: seq<Request>, deployed: bool)
    requires RankOrdered(plan + ups) && forall i :: 0 <= i < |plan| ==> Rank(plan[i]) < 6
    requires deployed ==> log' == log + plan + ups
    requires !deployed ==> exists k :: 0 < k <= |plan| && log' == log + plan[..k]
    ensures |log| <= |log'| && log'[..|log|] == log
    ensures RankOrdered(log'[|log|..])
    ensures !deployed ==> forall i :: |log| <= i < |log'| ==> !log'[i].PutObject?
  {
    if deployed {
      assert (plan + ups)[..|plan + ups|] == plan + ups;
      LogOrder(log, log', plan + ups, |plan + ups|);
    } else {
      var k :| 0 < k <= |plan| && log' == log + plan[..k];
      assert (plan + ups)[..k] == plan[..k];
      LogOrder(log, log', plan + ups, k);
      forall i | |log| <= i < |log'| ensures !log'[i].PutObject? {
        assert log'[i] == plan[i - |log|];
      }
    }
  }

  /** A log extended by a prefix of an ordered script: the new part is that prefix, in order. */
  lemma LogOrder(log: seq<Request>, log': seq<Request>, script: seq<Request>, k: nat)
    requires RankOrdered(script) && k <= |script| && log' == log + script[..k]
    ensures |log| <= |log'| && log'[..|log|] == log && log'[|log|..] == script[..k]
    ensures RankOrdered(log'[|log|..])
    ensures forall i :: |log| <= i < |log'| ==> log'[i] == script[i - |log|]
  {
    assert log'[|log|..] == script[..k];
    forall i, j | 0 <= i < j < k ensures Rank(script[..k][i]) <= Rank(script[..k][j]) {
      assert script[..k][i] == script[i] && script[..k][j] == script[j];
    }
  }

  // ---------------------------------------------------------------- what the bucket ends up holding

  /** The objects a list of putObject requests describes, in request order. */
  function Stored(reqs: seq<Request>): (r: seq<S3Object>)
    requires forall i :: 0 <= i < |reqs| ==> reqs[i].PutObject?
    ensures |r| == |reqs| && forall i :: 0 <= i < |r| ==> r[i] == S3Object(reqs[i].key, reqs[i].contentType)
  {
    if reqs == [] then [] else [S3Object(reqs[0].key, reqs[0].contentType)] + Stored(reqs[1..])
  }

  lemma ConcatAssoc<T>(a: seq<T>, b: seq<T>, c: seq<T>)
    ensures a + b + c == a + (b + c)
  {
  }

  /** The keys present among `objects`. */
  function KeySet(objects: seq<S3Object>): (r: set<string>)
    ensures forall x :: x in objects ==> x.key in r
  {
    if objects == [] then {} else {objects[0].key} + KeySet(objects[1..])
  }

  lemma {:induction false} KeySetAppend(objects: seq<S3Object>, o: S3Object)
    ensures KeySet(objects + [o]) == KeySet(objects) + {o.key}
    decreases |objects|
  {
    if objects == [] {
      assert [] + [o] == [o];
      assert [o][1..] == [];
    } else {
      assert (objects + [o])[1..] == objects[1..] + [o];
      KeySetAppend(objects[1..], o);
    }
  }

  /** Removing a key no object has changes nothing. */
  lemma {:induction false} RemoveAbsent(objects: seq<S3Object>, k: string)
    requires k !in KeySet(objects)
    ensures RemoveKeys(objects, [k]) == objects
    decreases |objects|
  {
    if objects != [] {
      RemoveAbsent(objects[1..], k);
      assert objects == [objects[0]] + objects[1..];
    }
  }

  /** After the first of such uploads, the remaining ones are still fresh for the grown bucket. */
  lemma FreshTail(objects: seq<S3Object>, reqs: seq<Request>, faults: set<Request>)
    requires reqs != [] && reqs[0].PutObject?
    requires forall i :: 0 <= i < |reqs| ==> reqs[i].PutObject? && reqs[i] !in faults
    requires forall i :: 0 <= i < |reqs| ==> reqs[i].key !in KeySet(objects)
    requires forall i, j :: 0 <= i < j < |reqs| ==> reqs[i].key != reqs[j].key
    ensures var objects' := objects + [S3Object(reqs[0].key, reqs[0].contentType)];
      && (forall i :: 0 <= i < |reqs[1..]| ==> reqs[1..][i].PutObject? && reqs[1..][i] !in faults)
      && (forall i :: 0 <= i < |reqs[1..]| ==> reqs[1..][i].key !in KeySet(objects'))
      && (forall i, j :: 0 <= i < j < |reqs[1..]| ==> reqs[1..][i].key != reqs[1..][j].key)
  {
    var rest := reqs[1..];
    KeySetAppend(objects, S3Object(reqs[0].key, reqs[0].contentType));
    forall i | 0 <= i < |rest| ensures rest[i].key !in KeySet(objects + [S3Object(reqs[0].key, reqs[0].contentType)]) {
      assert rest[i] == reqs[i + 1];
    }
    forall i, j | 0 <= i < j < |rest| ensures rest[i].key != rest[j].key {
      assert rest[i] == reqs[i + 1] && rest[j] == reqs[j + 1];
    }
  }

  /**
   * Accepted uploads under distinct keys new to the bucket add one object
   * each, in request order.
   */
  lemma {:induction false} AfterFreshUploads(objects: seq<S3Object>, reqs: seq<Request>, faults: set<Request>)
    requires forall i :: 0 <= i < |reqs| ==> reqs[i].PutObject? && reqs[i] !in faults
    requires forall i :: 0 <= i < |reqs| ==> reqs[i].key !in KeySet(objects)
    requires forall i, j :: 0 <= i < j < |reqs| ==> reqs[i].key != reqs[j].key
    ensures AfterUploads(objects, reqs, faults) == objects + Stored(reqs)
    decreases |reqs|
  {
    if reqs == [] {
      assert objects + Stored(reqs) == objects;
    } else {
      var o := S3Object(reqs[0].key, reqs[0].contentType);
      var rest := reqs[1..];
      RemoveAbsent(objects, o.key);
      assert Upsert(objects, o) == objects + [o];
      FreshTail(objects, reqs, faults);
      AfterFreshUploads(objects + [o], rest, faults);
      assert Stored(reqs) == [o] + Stored(rest);
      ConcatAssoc(objects, [o], Stored(rest));
    }
  }

  /** Accepted uploads under distinct keys into an empty bucket: it ends up holding exactly their objects. */
  lemma UploadsIntoEmpty(reqs: seq<Request>, faults: set<Request>)
    requires forall i :: 0 <= i < |reqs| ==> reqs[i].PutObject? && reqs[i] !in faults
    requires forall i, j :: 0 <= i < j < |reqs| ==> reqs[i].key != reqs[j].key
    ensures AfterUploads([], reqs, faults) == Stored(reqs)
  {
    assert KeySet([]) == {};
    AfterFreshUploads([], reqs, faults);
    assert [] + Stored(reqs) == Stored(reqs);
  }

  /** The uploads `ups` of the POSIX walk are putObject requests under pairwise distinct keys. */
  lemma PosixUploadKeys(bucket: string, clientPath: string, dist: seq<Entry>, mime: string -> string, ups: seq<Request>)
    requires DirPath(clientPath, Posix) && Portable(dist)
    requires ups == UploadRequests(bucket, clientPath, FilePaths(clientPath, dist, Posix), mime)
    ensures forall i :: 0 <= i < |ups| ==> ups[i].PutObject?
    ensures forall i, j :: 0 <= i < j < |ups| ==> ups[i].key != ups[j].key
  {
    forall i, j | 0 <= i < j < |ups| ensures ups[i].key != ups[j].key {
      PosixUploadKeyPair(bucket, clientPath, dist, mime, ups, i, j);
    }
  }

  /**
   * The uploads `ups` of the POSIX walk, all accepted, leave an empty bucket
   * holding one object per file, keyed by its relative path and typed by `mime`.
   */
  lemma PosixUploadsMirror(bucket: string, clientPath: string, dist: seq<Entry>, mime: string -> string,
                           ups: seq<Request>, faults: set<Request>)
    requires DirPath(clientPath, Posix) && Portable(dist)
    requires ups == UploadRequests(bucket, clientPath, FilePaths(clientPath, dist, Posix), mime)
    requires forall i :: 0 <= i < |ups| ==> ups[i] !in faults
    ensures var objects := AfterUploads([], ups, faults);
      && (forall x :: x in objects <==>
            exists rel :: Reaches(dist, rel, false) && x == S3Object(JoinNames(rel, '/'), mime(PathOf(clientPath, rel, Posix))))
      && (forall i, j :: 0 <= i < j < |objects| ==> objects[i].key != objects[j].key)
  {
    PosixUploadKeys(bucket, clientPath, dist, mime, ups);
    UploadsIntoEmpty(ups, faults);
    forall x ensures x in Stored(ups) <==>
      exists rel :: Reaches(dist, rel, false) && x == S3Object(JoinNames(rel, '/'), mime(PathOf(clientPath, rel, Posix)))
    {
      if x in Stored(ups) {
        StoredSound(bucket, clientPath, dist, mime, ups, x);
      }
      if exists rel :: Reaches(dist, rel, false) && x == S3Object(JoinNames(rel, '/'), mime(PathOf(clientPath, rel, Posix))) {
        var rel :| Reaches(dist, rel, false) && x == S3Object(JoinNames(rel, '/'), mime(PathOf(clientPath, rel, Posix)));
        StoredComplete(bucket, clientPath, dist, mime, ups, rel);
      }
    }
  }

  lemma StoredSound(bucket: string, clientPath: string, dist: seq<Entry>, mime: string -> string,
                    ups: seq<Request>, x: S3Object)
    requires DirPath(clientPath, Posix) && Portable(dist)
    requires ups == UploadRequests(bucket, clientPath, FilePaths(clientPath, dist, Posix), mime)
    requires x in Stored(ups)
    ensures exists rel :: Reaches(dist, rel, false) && x == S3Object(JoinNames(rel, '/'), mime(PathOf(clientPath, rel, Posix)))
  {
    var objects := Stored(ups);
    var i :| 0 <= i < |objects| && objects[i] == x;
    PosixUploadSound(bucket, clientPath, dist, mime, ups, i);
  }

  lemma StoredComplete(bucket: string, clientPath: string, dist: seq<Entry>, mime: string -> string,
                       ups: seq<Request>, rel: seq<string>)
    requires DirPath(clientPath, Posix) && Portable(dist) && Reaches(dist, rel, false)
    requires ups == UploadRequests(bucket, clientPath, FilePaths(clientPath, dist, Posix), mime)
    ensures S3Object(JoinNames(rel, '/'), mime(PathOf(clientPath, rel, Posix))) in Stored(ups)
  {
    PosixUploadComplete(bucket, clientPath, dist, mime, ups, rel);
    var key, ct := JoinNames(rel, '/'), mime(PathOf(clientPath, rel, Posix));
    var i :| 0 <= i < |ups| && ups[i] == PutObject(bucket, key, ct);
    UploadsArePuts(bucket, clientPath, FilePaths(clientPath, dist, Posix), mime, ups);
    StoredAt(ups, i);
  }

  /** The walk's requests are all putObject requests. */
  lemma UploadsArePuts(bucket: string, clientPath: string, paths: seq<string>, mime: string -> string, ups: seq<Request>)
    requires ups == UploadRequests(bucket, clientPath, paths, mime)
    ensures forall j :: 0 <= j < |ups| ==> ups[j].PutObject?
  {
  }

  /** The object of every putObject in `reqs` is among `Stored(reqs)`. */
  lemma StoredAt(reqs: seq<Request>, i: nat)
    requires forall i :: 0 <= i < |reqs| ==> reqs[i].PutObject?
    requires i < |reqs|
    ensures S3Object(reqs[i].key, reqs[i].contentType) in Stored(reqs)
  {
    assert Stored(reqs)[i] == S3Object(reqs[i].key, reqs[i].contentType);
  }

  /**
   * End to end on POSIX: once the chain resolves and no upload was rejected,
   * the bucket holds exactly one object per file below the build
   * folder, keyed by the file's path relative to it and typed by `mime`.
   */
  lemma MirrorsBuildFolder(c: Cursor, bucket: string, clientPath: string, dist: seq<Entry>, mime: string -> string,
                           faults: set<Request>)
    requires c.store.Valid() && DirPath(clientPath, Posix) && Portable(dist)
    requires forall q :: q in Uploads(bucket, clientPath, dist, mime, Posix) ==> q !in faults
    ensures var (c', o) := Run(c, bucket, clientPath, dist, mime, Posix, faults);
      o.Deployed? ==>
        && bucket in c'.store.buckets
        && (forall x :: x in c'.store.buckets[bucket].objects <==>
              exists rel :: Reaches(dist, rel, false) && x == S3Object(JoinNames(rel, '/'), mime(PathOf(clientPath, rel, Posix))))
        && (forall i, j :: 0 <= i < j < |c'.store.buckets[bucket].objects| ==>
              c'.store.buckets[bucket].objects[i].key != c'.store.buckets[bucket].objects[j].key)
  {
    var ups := Uploads(bucket, clientPath, dist, mime, Posix);
    DeployedState(c, bucket, clientPath, dist, mime, Posix, faults);
    var (c', o) := Run(c, bucket, clientPath, dist, mime, Posix, faults);
    if o.Deployed? {
      assert c'.store.buckets[bucket].objects == AfterUploads([], ups, faults);
      forall i | 0 <= i < |ups| ensures ups[i] !in faults {
        assert ups[i] in ups;
      }
      PosixUploadsMirror(bucket, clientPath, dist, mime, ups, faults);
    }
  }
}
