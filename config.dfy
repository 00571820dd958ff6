/**
 * The configuration guard that runs before any request: the build folder
 * must exist and `custom.client.bucketName` must be set in serverless.yml.
 */
module Config {
  import opened Wrappers
  import opened Paths

  /** `custom.client` in serverless.yml; an absent key is None. */
  datatype ClientSettings = ClientSettings(bucketName: Option<string>)

  /** `custom` in serverless.yml. */
  datatype CustomSettings = CustomSettings(client: Option<ClientSettings>)

  datatype ConfigError = DistFolderMissing | BucketNameMissing

  /** What the plugin keeps once the guard passes: `this.bucketName` and `this.clientPath`. */
  datatype Prepared = Prepared(bucketName: string, clientPath: string)

  function Message(e: ConfigError): string
  {
    match e
    case DistFolderMissing => "Could not find \"client/dist\" folder in your project root."
    case BucketNameMissing => "Please specify a bucket name for the client in serverless.yml."
  }

  /**
   * `custom && custom.client && custom.client.bucketName` is truthy: every
   * level is present and the name is not the empty string.
   */
  predicate HasBucketName(custom: Option<CustomSettings>)
  {
    custom.Some? && custom.value.client.Some? && custom.value.client.value.bucketName.Some?
    && custom.value.client.value.bucketName.value != ""
  }

  /**
   * The two guards in their fixed order: the build folder first, then the bucket
   * name. `dirs` is the set of directories that exist on the local filesystem.
   */
  function Validate(servicePath: string, custom: Option<CustomSettings>, dirs: set<string>, p: Platform)
    : (r: Result<Prepared, ConfigError>)
    ensures r == Failure(DistFolderMissing) <==> ClientDistPath(servicePath, p) !in dirs
    ensures r == Failure(BucketNameMissing) <==> ClientDistPath(servicePath, p) in dirs && !HasBucketName(custom)
    ensures r.Success? <==> ClientDistPath(servicePath, p) in dirs && HasBucketName(custom)
    ensures r.Success? ==> r.value.bucketName == custom.value.client.value.bucketName.value
    ensures r.Success? ==> r.value.bucketName != "" && r.value.clientPath == ClientDistPath(servicePath, p)
  {
    var distPath := ClientDistPath(servicePath, p);
    if distPath !in dirs then Failure(DistFolderMissing)
    else if !HasBucketName(custom) then Failure(BucketNameMissing)
    else Success(Prepared(custom.value.client.value.bucketName.value, distPath))
  }
}
