/**
 * An abstract S3 account as the plugin sees it through `this.SDK.request('S3', ...)`:
 * the buckets it owns, each with its objects, website configuration and policy,
 * and the effect of each request the plugin issues.
 */
module S3 {
  import opened Wrappers

  // ---------------------------------------------------------------- configuration documents

  /** `WebsiteConfiguration`: `IndexDocument.Suffix` and `ErrorDocument.Key`. */
  datatype WebsiteConfig = WebsiteConfig(indexSuffix: string, errorKey: string)

  /** One policy statement; `principal` is the value of `Principal.AWS`. */
  datatype Statement = Statement(sid: string, effect: string, principal: string, action: string, resource: string)

  /** A bucket policy document (kept structured; its JSON text is not modelled). */
  datatype Policy = Policy(version: string, id: string, statement: seq<Statement>)

  /** The website configuration the plugin applies to every bucket it deploys to. */
  const SiteConfig := WebsiteConfig("index.html", "error.html")

  /** The ARN of object `key` in bucket `bucket`. */
  function ObjectArn(bucket: string, key: string): string
  {
    "arn:aws:s3:::" + bucket + "/" + key
  }

  /** The public-read policy the plugin writes; only the Resource depends on the bucket. */
  function PublicReadPolicy(bucket: string): Policy
  {
    Policy("2008-10-17", "Policy1392681112290",
           [Statement("Stmt1392681101677", "Allow", "*", "s3:GetObject", "arn:aws:s3:::" + bucket + "/*")])
  }

  /** A Resource pattern matches an ARN: a trailing `*` matches any rest, otherwise equality. */
  predicate ResourceMatches(pattern: string, arn: string)
  {
    if pattern != [] && pattern[|pattern| - 1] == '*' then pattern[..|pattern| - 1] <= arn
    else pattern == arn
  }

  /** Some statement of `policy` allows `who` to perform `action` on the resource `arn`. */
  predicate Allows(policy: Policy, who: string, action: string, arn: string)
  {
    exists st :: st in policy.statement && st.effect == "Allow" && (st.principal == "*" || st.principal == who)
                 && st.action == action && ResourceMatches(st.resource, arn)
  }

  /** S3 bucket names never contain a slash. */
  predicate BucketName(name: string)
  {
    '/' !in name
  }

  // ---------------------------------------------------------------- the store

  datatype S3Object = S3Object(key: string, contentType: string)

  /** A bucket: its objects in listing order, and its website configuration and policy, if set. */
  datatype Bucket = Bucket(objects: seq<S3Object>, website: Option<WebsiteConfig>, policy: Option<Policy>)

  /** The account: bucket names in listing order and each bucket's state. */
  datatype Store = Store(names: seq<string>, buckets: map<string, Bucket>) {
    /** The listing and the buckets agree. */
    ghost predicate Valid()
    {
      forall n :: n in names <==> n in buckets
    }
  }

  datatype Request =
    | ListBuckets
    | ListObjects(bucket: string)
    | DeleteObjects(bucket: string, keys: seq<string>)
    | CreateBucket(bucket: string)
    | PutBucketWebsite(bucket: string, config: WebsiteConfig)
    | PutBucketPolicy(bucket: string, policy: Policy)
    | PutObject(bucket: string, key: string, contentType: string)

  /** `Rejected` stands for every error the provider may return for its own reasons (credentials, limits, ...). */
  datatype S3Error = NoSuchBucket | BucketAlreadyOwnedByYou | Rejected

  /** The payload of a successful reply: `Buckets[].Name`, `Contents[].Key`, or nothing. */
  datatype Data = NoData | BucketList(names: seq<string>) | ObjectList(keys: seq<string>)

  datatype Reply = Ok(data: Data) | Err(error: S3Error)

  function Keys(objects: seq<S3Object>): (r: seq<string>)
    ensures |r| == |objects| && forall i :: 0 <= i < |r| ==> r[i] == objects[i].key
  {
    if objects == [] then [] else [objects[0].key] + Keys(objects[1..])
  }

  /**
   * putObject: an object with the same key is replaced; the new object is
   * listed last (listing order is kept as insertion order).
   */
  function Upsert(objects: seq<S3Object>, o: S3Object): (r: seq<S3Object>)
    ensures forall x :: x in r <==> x == o || (x in objects && x.key != o.key)
    ensures |r| > 0 && r[|r| - 1] == o
  {
    RemoveKeys(objects, [o.key]) + [o]
  }

  /** deleteObjects: every object whose key is listed goes, the others stay in order. */
  function RemoveKeys(objects: seq<S3Object>, keys: seq<string>): (r: seq<S3Object>)
    ensures forall x :: x in r <==> x in objects && x.key !in keys
  {
    if objects == [] then []
    else if objects[0].key in keys then RemoveKeys(objects[1..], keys)
    else [objects[0]] + RemoveKeys(objects[1..], keys)
  }

  /** The bucket a request addresses; every request but listBuckets addresses one. */
  predicate Addresses(r: Request, n: string)
  {
    !r.ListBuckets? && r.bucket == n
  }

  /**
   * The provider's answer to `r` and the store afterwards. A request in the
   * provider's rejected set fails; a request on a missing bucket fails with
   * NoSuchBucket; createBucket on an owned bucket fails; a failed request
   * changes nothing.
   */
  function Serve(s: Store, r: Request, rejected: bool): (out: (Reply, Store))
    ensures rejected ==> out == (Err(Rejected), s)
    ensures out.0.Err? ==> out.1 == s
    ensures s.Valid() ==> out.1.Valid()
    ensures forall n :: n in s.names ==> n in out.1.names
    ensures forall n :: n in s.buckets && !Addresses(r, n) ==> n in out.1.buckets && out.1.buckets[n] == s.buckets[n]
    ensures !r.CreateBucket? ==> out.1.names == s.names && out.1.buckets.Keys == s.buckets.Keys
  {
    if rejected then (Err(Rejected), s)
    else match r
      case ListBuckets => (Ok(BucketList(s.names)), s)
      case CreateBucket(b) =>
        if b in s.buckets then (Err(BucketAlreadyOwnedByYou), s)
        else (Ok(NoData), Store(s.names + [b], s.buckets[b := Bucket([], None, None)]))
      case _ =>
        if r.bucket !in s.buckets then (Err(NoSuchBucket), s)
        else
          var bk := s.buckets[r.bucket];
          match r
          case ListObjects(b) => (Ok(ObjectList(Keys(bk.objects))), s)
          case DeleteObjects(b, ks) =>
            (Ok(NoData), s.(buckets := s.buckets[b := bk.(objects := RemoveKeys(bk.objects, ks))]))
          case PutBucketWebsite(b, w) =>
            (Ok(NoData), s.(buckets := s.buckets[b := bk.(website := Some(w))]))
          case PutBucketPolicy(b, pol) =>
            (Ok(NoData), s.(buckets := s.buckets[b := bk.(policy := Some(pol))]))
          case PutObject(b, k, ct) =>
            (Ok(NoData), s.(buckets := s.buckets[b := bk.(objects := Upsert(bk.objects, S3Object(k, ct)))]))
  }

  // ---------------------------------------------------------------- properties

  /** Deleting a set of keys that covers every object empties the bucket. */
  lemma {:induction false} RemoveCoveredEmpties(objects: seq<S3Object>, keys: seq<string>)
    requires forall i :: 0 <= i < |objects| ==> objects[i].key in keys
    ensures RemoveKeys(objects, keys) == []
  {
    if objects != [] {
      assert objects[0].key in keys;
      RemoveCoveredEmpties(objects[1..], keys);
    }
  }

  /** Deleting the keys a listing returned empties the bucket. */
  lemma RemoveListedEmpties(objects: seq<S3Object>)
    ensures RemoveKeys(objects, Keys(objects)) == []
  {
    var keys := Keys(objects);
    forall i | 0 <= i < |objects| ensures objects[i].key in keys {
      assert keys[i] == objects[i].key;
    }
    RemoveCoveredEmpties(objects, keys);
  }

  lemma AppendPrefix(p: string, x: string, y: string)
    ensures p + x <= p + y <==> x <= y
  {
    if p + x <= p + y {
      assert (p + y)[|p|..|p| + |x|] == y[..|x|];
      assert (p + x)[|p|..] == x;
    }
    if x <= y {
      assert p + y == (p + x) + y[|x|..];
    }
  }

  /** Two slash-free names followed by `/` are in the prefix relation only when they are equal. */
  lemma SlashPrefix(b: string, c: string, key: string)
    requires BucketName(b) && BucketName(c)
    ensures b + "/" <= c + "/" + key <==> b == c
  {
    var s := c + "/" + key;
    var t := b + "/";
    if t <= s {
      assert s[|b|] == t[|b|] == '/';
      assert forall i :: 0 <= i < |c| ==> s[i] == c[i];
      assert |c| <= |b|;
      assert s[|c|] == '/';
      assert forall i :: 0 <= i < |b| ==> t[i] == b[i];
      assert |b| <= |c|;
      assert b == t[..|b|] == s[..|c|] == c;
    }
    if b == c {
      assert s == b + "/" + key;
    }
  }

  /**
   * The public-read policy of `b` lets anyone read every object of `b` and
   * grants nothing else: no other action, and no object of another bucket.
   */
  lemma PublicReadAllows(b: string, c: string, key: string, who: string, action: string)
    requires BucketName(b) && BucketName(c)
    ensures Allows(PublicReadPolicy(b), who, action, ObjectArn(c, key)) <==> b == c && action == "s3:GetObject"
  {
    var st := PublicReadPolicy(b).statement[0];
    var pattern := "arn:aws:s3:::" + b + "/*";
    assert st.resource == pattern;
    assert pattern[..|pattern| - 1] == "arn:aws:s3:::" + (b + "/");
    assert ObjectArn(c, key) == "arn:aws:s3:::" + (c + "/" + key);
    AppendPrefix("arn:aws:s3:::", b + "/", c + "/" + key);
    SlashPrefix(b, c, key);
    if b == c && action == "s3:GetObject" {
      assert st in PublicReadPolicy(b).statement;
    }
  }

  /** The policy is a function of the bucket name alone, and different buckets get different policies. */
  lemma PublicReadInjective(a: string, b: string)
    ensures PublicReadPolicy(a) == PublicReadPolicy(b) <==> a == b
  {
    if PublicReadPolicy(a) == PublicReadPolicy(b) {
      var ra := "arn:aws:s3:::" + a + "/*";
      var rb := "arn:aws:s3:::" + b + "/*";
      assert ra == PublicReadPolicy(a).statement[0].resource == rb;
      assert |a| == |b|;
      assert a == ra[13..13 + |a|] == rb[13..13 + |b|] == b;
    }
  }
}
