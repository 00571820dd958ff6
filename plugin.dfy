/**
 * The plugin object itself: `this.SDK` as a provider whose state the requests
 * change, and the `Client` class whose fields `bucketName`, `clientPath` and
 * `bucketExists` its methods update, each method proved against the step of
 * the reference chain it implements.
 */
module Plugin {
  import opened Wrappers
  import opened Paths
  import opened Config
  import opened S3
  import opened Upload
  import opened Reconcile
  import opened JsString

  /** `this.SDK`: the account's buckets, every request it has received, and the requests it rejects. */
  class Provider {
    var store: Store
    var log: seq<Request>
    const faults: set<Request>

    ghost predicate Valid()
      reads this
    {
      store.Valid()
    }

    constructor (store0: Store, faults0: set<Request>)
      requires store0.Valid()
      ensures Valid()
      ensures store == store0 && log == [] && faults == faults0
    {
      store := store0;
      log := [];
      faults := faults0;
    }

    /** `this.SDK.request('S3', ...)`: the request is recorded and served. */
    method Request(r: Request) returns (reply: Reply)
      modifies this
      ensures (reply, store) == Serve(old(store), r, r in faults)
      ensures log == old(log) + [r]
      ensures old(Valid()) ==> Valid()
    {
      var out := Serve(store, r, r in faults);
      reply, store := out.0, out.1;
      log := log + [r];
    }
  }

  class Client {
    const sdk: Provider
    const platform: Platform
    /** `this.serverless.config.servicePath`. */
    const servicePath: string
    /** `this.serverless.service.custom`. */
    const custom: Option<CustomSettings>
    var bucketName: string
    var clientPath: string
    var bucketExists: bool

    /** The point of the chain the object and its provider are at. */
    ghost function State(): Cursor
      reads this, sdk
    {
      Cursor(sdk.store, sdk.log, bucketExists)
    }

    /** A fresh plugin object: no bucket name, no build path, and the flag is falsy. */
    constructor (sdk0: Provider, platform0: Platform, servicePath0: string, custom0: Option<CustomSettings>)
      ensures sdk == sdk0 && platform == platform0 && servicePath == servicePath0 && custom == custom0
      ensures bucketName == "" && clientPath == "" && !bucketExists
    {
      sdk, platform, servicePath, custom := sdk0, platform0, servicePath0, custom0;
      bucketName, clientPath, bucketExists := "", "", false;
    }

    /**
     * `_validateAndPrepare()`: on success the two fields hold the configured
     * name and the build folder; on failure nothing changes. `dirs` is the set
     * of directories on the local filesystem.
     */
    method ValidateAndPrepare(dirs: set<string>) returns (r: Result<(), ConfigError>)
      modifies this`bucketName, this`clientPath
      ensures var v := Validate(servicePath, custom, dirs, platform);
        && (v.Success? ==> r == Success(()) && bucketName == v.value.bucketName && clientPath == v.value.clientPath)
        && (v.Failure? ==> r == Failure(v.error) && bucketName == old(bucketName) && clientPath == old(clientPath))
    {
      var distPath := Join(Join(servicePath, "client", platform), "dist", platform);
      if distPath !in dirs {
        return Failure(DistFolderMissing);
      }
      if custom.None? || custom.value.client.None? || custom.value.client.value.bucketName.None?
         || custom.value.client.value.bucketName.value == "" {
        return Failure(BucketNameMissing);
      }
      bucketName := custom.value.client.value.bucketName.value;
      clientPath := distPath;
      return Success(());
    }

    /** `listBuckets(data)`: the flag is raised by an exact name match and never lowered. */
    method ListBuckets(names: seq<string>)
      modifies this`bucketExists
      ensures bucketExists == MarkExisting(old(bucketExists), bucketName, names)
    {
      for i := 0 to |names|
        invariant bucketExists == MarkExisting(old(bucketExists), bucketName, names[..i])
      {
        if names[i] == bucketName {
          bucketExists := true;
        }
      }
      assert names[..|names|] == names;
    }

    /** `listObjectsInBucket()`. */
    method ListObjectsInBucket() returns (reply: Reply)
      modifies sdk
      ensures (reply, State()) == ListObjectsStep(old(State()), bucketName, sdk.faults)
    {
      if !bucketExists {
        return Ok(NoData);
      }
      reply := sdk.Request(ListObjects(bucketName));
    }

    /** `deleteObjectsFromBucket(data)`, `data` being what the listing returned. */
    method DeleteObjectsFromBucket(data: Data) returns (reply: Reply)
      modifies sdk
      ensures (reply, State()) == DeleteObjectsStep(old(State()), bucketName, data, sdk.faults)
    {
      if !bucketExists {
        return Ok(NoData);
      }
      if !data.ObjectList? || data.keys == [] {
        return Ok(NoData);
      }
      reply := sdk.Request(DeleteObjects(bucketName, data.keys));
    }

    /** `createBucket()`. */
    method CreateBucket() returns (reply: Reply)
      modifies sdk
      ensures (reply, State()) == CreateBucketStep(old(State()), bucketName, sdk.faults)
    {
      if bucketExists {
        return Ok(NoData);
      }
      reply := sdk.Request(S3.CreateBucket(bucketName));
    }

    /** `configureBucket()`. */
    method ConfigureBucket() returns (reply: Reply)
      modifies sdk
      ensures (reply, State()) == ConfigureBucketStep(old(State()), bucketName, sdk.faults)
    {
      reply := sdk.Request(PutBucketWebsite(bucketName, WebsiteConfig("index.html", "error.html")));
    }

    /** `configurePolicyForBucket()`. */
    method ConfigurePolicyForBucket() returns (reply: Reply)
      modifies sdk
      ensures (reply, State()) == ConfigurePolicyStep(old(State()), bucketName, sdk.faults)
    {
      var statement := Statement("Stmt1392681101677", "Allow", "*", "s3:GetObject", "arn:aws:s3:::" + bucketName + "/*");
      reply := sdk.Request(PutBucketPolicy(bucketName, Policy("2008-10-17", "Policy1392681112290", [statement])));
    }

    /** `_uploadFile(filePath)`: one putObject under the derived key; its reply is ignored. */
    method UploadFile(filePath: string, mime: string -> string)
      modifies sdk
      ensures State() == UploadAll(old(State()), UploadRequests(bucketName, clientPath, [filePath], mime), sdk.faults)
    {
      var fileKey := Replace(Substr(Replace(filePath, clientPath, ""), 1), "\\", "/");
      var _ := sdk.Request(PutObject(bucketName, fileKey, mime(filePath)));
    }

    /**
     * `_uploadDirectory(directoryPath)`, `entries` being what lies below it:
     * every file is uploaded, a directory is walked, in directory order.
     */
    method UploadDirectory(directoryPath: string, entries: seq<Entry>, mime: string -> string)
      modifies sdk
      ensures State() == UploadAll(old(State()), UploadRequests(bucketName, clientPath, FilePaths(directoryPath, entries, platform), mime), sdk.faults)
      decreases entries
    {
      ghost var start := State();
      for i := 0 to |entries|
        invariant State() == UploadAll(start, UploadRequests(bucketName, clientPath, FilePaths(directoryPath, entries[..i], platform), mime), sdk.faults)
      {
        var path := Join(directoryPath, entries[i].name, platform);
        match entries[i] {
          case File(_) =>
            UploadFile(path, mime);
          case Dir(_, children) =>
            UploadDirectory(path, children, mime);
        }
        WalkStep(start, bucketName, clientPath, directoryPath, entries, i, mime, platform, sdk.faults);
      }
      assert entries[..|entries|] == entries;
    }

    /**
     * `_processDeployment()`, `dist` being what lies below the build folder: it
     * follows the reference chain step by step and settles as it does.
     */
    method ProcessDeployment(dist: seq<Entry>, mime: string -> string) returns (o: Outcome)
      modifies this`bucketExists, sdk
      ensures (State(), o) == Run(old(State()), bucketName, clientPath, dist, mime, platform, sdk.faults)
    {
      var reply := sdk.Request(S3.ListBuckets);
      if reply.Err? {
        return Failed(reply.error);
      }
      ListBuckets(NamesOf(reply.data));
      reply := ListObjectsInBucket();
      if reply.Err? {
        return Failed(reply.error);
      }
      reply := DeleteObjectsFromBucket(reply.data);
      if reply.Err? {
        return Failed(reply.error);
      }
      reply := CreateBucket();
      if reply.Err? {
        return Failed(reply.error);
      }
      reply := ConfigureBucket();
      if reply.Err? {
        return Failed(reply.error);
      }
      reply := ConfigurePolicyForBucket();
      if reply.Err? {
        return Failed(reply.error);
      }
      UploadDirectory(clientPath, dist, mime);
      return Deployed;
    }

    /**
     * The `client:deploy:deploy` hook: the guard, then the deployment. A guard
     * that fails sends no request to the provider.
     */
    method Deploy(dirs: set<string>, dist: seq<Entry>, mime: string -> string) returns (r: Result<Outcome, ConfigError>)
      modifies this, sdk
      ensures var v := Validate(servicePath, custom, dirs, platform);
        && (v.Failure? ==>
              && r == Failure(v.error) && sdk.log == old(sdk.log) && sdk.store == old(sdk.store)
              && bucketName == old(bucketName) && clientPath == old(clientPath) && bucketExists == old(bucketExists))
        && (v.Success? ==>
              && bucketName == v.value.bucketName && clientPath == v.value.clientPath && r.Success?
              && (State(), r.value)
                 == Run(Cursor(old(sdk.store), old(sdk.log), old(bucketExists)), v.value.bucketName,
                        v.value.clientPath, dist, mime, platform, sdk.faults))
      ensures old(sdk.Valid()) ==> sdk.Valid()
    {
      var ready := ValidateAndPrepare(dirs);
      if ready.Failure? {
        return Failure(ready.error);
      }
      ghost var start := State();
      var o := ProcessDeployment(dist, mime);
      if start.store.Valid() {
        RunKeepsValid(start, bucketName, clientPath, dist, mime, platform, sdk.faults);
      }
      return Success(o);
    }
  }
}
