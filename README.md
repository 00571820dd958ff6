# serverless-client-s3: a Dafny model of the deploy hook

This model covers the `Client` plugin class in `index.js` of a Serverless Framework plugin. Its `client:deploy:deploy` hook publishes a static site from `client/dist` to an S3 bucket. It works in two parts:

1. **Guard.** `_validateAndPrepare` checks that the build folder exists and that `custom.client.bucketName` is set. It then records the bucket name and the build path on the plugin object.
2. **Deployment chain.** `_processDeployment` runs one promise chain against the AWS provider (`this.SDK`):
   - it lists the buckets and sets `this.bucketExists` on an exact name match;
   - for a bucket it already knows, it lists the objects and removes them in one `deleteObjects`;
   - it creates the bucket when it is not known;
   - it always installs the website configuration (`index.html` / `error.html`) and the public-read policy;
   - it then walks the build folder, issuing one `putObject` per entry that `fs.stat` does not report as a directory (called a file below).

The model is layered as follows.

- `Wrappers`: `Option` and `Result`.
- `JsString`:
  - the JavaScript `indexOf`;
  - `replace` with a string pattern, which replaces only the first occurrence;
  - `substr`.
- `Paths`: `path.join` for a POSIX or a Windows host (the separator is a parameter).
- `Config`: the guard, as the function `Validate`.
- `S3`:
  - the provider as an abstract store: bucket names in creation order, and per bucket its objects, website configuration and policy;
  - the requests the plugin sends;
  - `Serve`, which gives the provider's reply and the new store;
  - the public-read policy and what it allows.
- `Upload`:
  - the local build tree (`Entry`) and the paths the recursive walk visits (`FilePaths`);
  - the object-key derivation `ObjectKey`;
  - the reference description of the tree (`Reaches`, `PathOf`);
  - two rules on names: `PortableOn(entries, p)`, any tree the host `p` can hold (sibling names distinct, non-empty and free of the host separator), which the walk lemmas assume; and the stricter `Portable`, names free of both separators, which the POSIX key lemmas assume;
  - the lemmas that tie these together.
- `Reconcile`:
  - the promise chain as a pure function `Run` over a `Cursor`. A cursor holds the store, the requests issued so far, and `this.bucketExists`;
  - an independent reference script `ReconcilePlan`, read off the initial store;
  - the lemmas that relate `Run` to that script and describe the final state.
- `Plugin`: the two stateful objects.
  - `Provider` is `this.SDK`. Its `Request` method records and serves a request.
  - `Client` is the plugin class, with the fields `bucketName`, `clientPath` and `bucketExists`. Each of its methods is proved against the `Reconcile` or `Config` function for the step it implements.

Provider failures are described by a set `faults` of requests the provider rejects, which is a parameter. The provider also fails on its own when the store's state calls for it: `NoSuchBucket` for a missing bucket, `BucketAlreadyOwnedByYou` for a repeated `createBucket`.

Two inputs are parameters rather than something the model reads:

- The local filesystem is the set `dirs` of existing directories (for the guard) and the `Entry` tree below the build folder (for the walk).
- `mime.lookup` is the function `mime`.

What the code does that the model does not assume in the code's favour:

- **Only the first backslash becomes `/`.** The key expression replaces just the first `\` of the relative path. On a Windows host, a file two or more directories deep therefore keeps a backslash in its S3 key. `Upload.WindowsFileKey` states this as a property of the code. On POSIX the key is the relative path as long as no name holds a backslash (`Upload.PosixFileKey`). POSIX allows a backslash inside a file name, and the key rewrites the first one to `/` all the same. So the file `d\n` and the file `n` in the directory `d` are two different paths uploaded under the same key `d/n` (`Upload.PosixBackslashCollision`). One of the two uploads overwrites the other; `async.each` does not fix which one lands last (index.js:187-188).
- **The flag is never reset.** `this.bucketExists` is only ever set to true, never back to false. A plugin object that saw the bucket once skips `createBucket` on a later run, even if the bucket has since disappeared. That run fails at `listObjects` with `NoSuchBucket` (`Reconcile.StaleFlagFails`).
- **Any error aborts.** Every rejected request stops the chain. A `NoSuchBucket` reply during the clean-out is not treated as success either: the chain stops there (index.js:166-173).
- **Upload failures are ignored.** Their replies are never examined. The chain settles as deployed once the policy has been installed.

## Model

| member | source | states |
|---|---|---|
| `JsString.IndexOf` | index.js:201 | the index found is the first occurrence of the pattern, and none means the pattern does not occur at all |
| `JsString.Replace` | index.js:201 | with a string pattern only the first occurrence is replaced; without an occurrence the string is unchanged |
| `JsString.Substr` | index.js:201 | `substr(start)` is the suffix after the first `start` characters, empty when the string is shorter |
| `JsString.ReplacePrefix` | index.js:201 | removing a string that the text starts with leaves exactly the rest of the text |
| `JsString.ReplaceFirstChar` | index.js:201 | replacing a character removes its first occurrence only; the part of the text after it is untouched |
| `Paths.Join` | index.js:185 | joining a directory path and a name inserts exactly one separator, and the result is again a directory path when the name is one segment |
| `Paths.ClientDistPath` | index.js:52-63 | the build folder is `<servicePath>/client/dist` with the host separator, and it ends in `dist` |
| `Config.Message` | index.js:53-59 | definition, without a contract of its own: the text each guard failure is rejected with |
| `Config.HasBucketName` | index.js:56-58 | definition, without a contract of its own: `custom`, `custom.client` and `custom.client.bucketName` are all present and the name is not the empty string |
| `Config.Validate` | index.js:47-66 | the build folder is checked before the bucket name; each error arises exactly in its case; on success the bucket name is the configured non-empty name and the build path is `<servicePath>/client/dist` |
| `S3.Keys` | index.js:101-103 | the keys of a listing, one per object, in listing order |
| `S3.Upsert` | index.js:207-215 | a putObject replaces any object with the same key, keeps every other object and lists the new one last |
| `S3.RemoveKeys` | index.js:105-110 | deleteObjects removes exactly the objects whose key is listed and keeps the others |
| `S3.Serve` | index.js:166-173 | a rejected request changes nothing; a failed one changes nothing; the store stays well-formed, bucket names are only ever added, and a request leaves every bucket it does not address unchanged |
| `S3.RemoveListedEmpties` | index.js:98-110 | deleting every listed key leaves the bucket empty |
| `S3.PublicReadPolicy` | index.js:142-156 | definition, without a contract of its own: version `2008-10-17`, one `Allow` statement for the principal `*` on `s3:GetObject` over `arn:aws:s3:::<bucket>/*`; `PublicReadAllows` states what it allows |
| `S3.PublicReadAllows` | index.js:142-156 | the policy lets anyone `s3:GetObject` any object of that bucket, and allows nothing else and nothing in another bucket |
| `S3.PublicReadInjective` | index.js:153 | different buckets get different policies |
| `Upload.FilePaths` | index.js:179-197 | definition, without a contract of its own: each listed entry is joined to the directory, a directory is recursed into and a file is passed on for upload, in listing order; `WalkComplete`, `WalkSound` and `WalkDistinct` state what it visits |
| `Upload.UploadRequests` | index.js:199-215 | each visited file path causes one putObject to the bucket, under the derived key, typed by `mime` of the local path |
| `Upload.SplitJoinNames` | index.js:185 | splitting a path joined from segments gives the segments back |
| `Upload.FileIsNotDir` | index.js:191-193 | in any tree the host can hold (sibling names distinct and free of the host separator), a relative path reaches a file or a directory, never both |
| `Upload.WalkComplete` | index.js:179-197 | in any tree the host can hold, every file below the folder is visited by the recursive walk |
| `Upload.WalkSound` | index.js:179-197 | in any tree the host can hold, every path the walk visits is the path of a file below the folder |
| `Upload.WalkDistinct` | index.js:179-197 | in any tree the host can hold, the walk visits no path twice |
| `Upload.EveryFileOnce` | index.js:188-194 | in any tree the host can hold, each file is uploaded exactly once, and no directory is uploaded |
| `Upload.ObjectKey` | index.js:201 | definition, without a contract of its own: the first occurrence of the build path is removed, the leading separator dropped and the first backslash made a slash; what it yields is stated by `PosixKey`, `WindowsKey` and the lemmas after them |
| `Upload.PosixKey` | index.js:201 | on POSIX the key of `<clientPath>/<rel>` is `rel` with its first backslash made a slash, so exactly `rel` when `rel` has no backslash |
| `Upload.WindowsKey` | index.js:201 | on Windows the key of `<clientPath>\<rel>` is `rel` with only its first backslash made a slash |
| `Upload.PosixFileKey` | index.js:201 | on POSIX a file's key is its path relative to the build folder, segments joined by `/` |
| `Upload.WindowsFileKey` | index.js:201 | on Windows a file at least two levels deep gets `first/rest` with the rest still backslash-joined, so a key holds a backslash exactly when the file is three or more levels deep |
| `Upload.PosixKeyInjective` | index.js:201 | different files get different POSIX keys |
| `Upload.PosixUploadSound` | index.js:179-215 | on POSIX every upload of the walk is the putObject for some file below the build folder, keyed by its relative path and typed by `mime` of its local path |
| `Upload.PosixUploadComplete` | index.js:179-215 | on POSIX every file below the build folder has its putObject among the uploads |
| `Upload.PosixUploadKeyPair` | index.js:179-215 | on POSIX no two uploads of the walk share a key |
| `Upload.BackslashKeys` | index.js:201 | on POSIX `<clientPath>/d\n` and `<clientPath>/d/n` both get the key `d/n` |
| `Upload.PosixBackslashCollision` | index.js:179-215 | a POSIX folder holding the file `d\n` and the directory `d` with the file `n` is a tree the host can hold, but not one free of both separators; its walk visits two different paths whose two uploads share the key `d/n` |
| `Reconcile.Send` | index.js:90 | definition, without a contract of its own: `this.SDK.request` in the pure chain, the request appended to the log and served by `S3.Serve`; the step methods of `Plugin.Client`, which call `Plugin.Provider.Request`, are proved against the step functions built on it |
| `Reconcile.NamesOf` | index.js:74-75 | definition, without a contract of its own: the `Name` of every entry of `data.Buckets`, in listing order |
| `Reconcile.Uploads` | index.js:174-176 | definition, without a contract of its own: the putObject requests of the walk of the build folder, `UploadRequests` over `FilePaths` |
| `Reconcile.MarkExisting` | index.js:73-80 | definition, without a contract of its own: the flag is raised by an exact match of a listed name and never lowered; `Plugin.Client.ListBuckets` is proved against it |
| `Reconcile.Discover` | index.js:166-168 | definition, without a contract of its own: listBuckets, then the flag update on success; `DiscoverSpec` states what it does |
| `Reconcile.ListObjectsStep` | index.js:82-91 | definition, without a contract of its own: no request for a bucket believed absent, otherwise one listObjects; `ListObjectsSpec` states what it does |
| `Reconcile.DeleteObjectsStep` | index.js:93-112 | definition, without a contract of its own: no request for a bucket believed absent or an empty listing, otherwise one deleteObjects of the listed keys; `DeleteObjectsSpec` states what it does |
| `Reconcile.ClearStale` | index.js:169-170 | definition, without a contract of its own: the listing step, then the clean-out step on its reply unless it failed; `ClearStaleSpec` states what it does |
| `Reconcile.CreateBucketStep` | index.js:114-123 | definition, without a contract of its own: one createBucket unless the bucket is believed to exist; `ProvisionSpec` states what it does |
| `Reconcile.ConfigureBucketStep` | index.js:125-137 | definition, without a contract of its own: one putBucketWebsite with the constant `S3.SiteConfig`, index document `index.html` and error document `error.html` |
| `Reconcile.ConfigurePolicyStep` | index.js:139-164 | definition, without a contract of its own: one putBucketPolicy with `S3.PublicReadPolicy` of the bucket |
| `Reconcile.Provision` | index.js:171-173 | definition, without a contract of its own: create, configure, then set the policy, stopping at the first failure; `ProvisionSpec` states what it does |
| `Reconcile.UploadAll` | index.js:188-215 | definition, without a contract of its own: every upload is sent in turn and its reply is ignored; `UploadAllLog` and `UploadAllStore` state what it does |
| `Reconcile.Run` | index.js:166-177 | definition, without a contract of its own: the three stages in order, each skipped after a failure, then the uploads; `RunFollowsPlan`, `DeployedState` and `IssuedInOrder` state what it does |
| `Reconcile.DiscoverSpec` | index.js:73-80 | listBuckets is issued first; the flag ends true iff it was already true or some listed name equals the bucket name exactly; the store is unchanged |
| `Reconcile.ListObjectsSpec` | index.js:82-91 | for a bucket believed to exist exactly one listObjects is issued; it succeeds iff the provider accepts it and the bucket exists, returning the bucket's keys in listing order |
| `Reconcile.DeleteObjectsSpec` | index.js:93-112 | for a non-empty listing exactly one deleteObjects is issued, carrying the listed keys in listing order; on success the bucket is empty and no other bucket changes, and on failure nothing changes |
| `Reconcile.ClearStaleSpec` | index.js:82-112 | listing then clearing issue their script, every request of it accepted, or a prefix whose requests were accepted up to the one that failed; a bucket believed absent is untouched; on success an existing bucket ends up empty and nothing else changes |
| `Reconcile.ProvisionSpec` | index.js:114-164 | createBucket is issued iff the bucket is not known to exist; the website configuration and the policy follow, each only after the one before it was accepted; on success the bucket has `index.html`/`error.html` hosting and the public-read policy, and it keeps its objects |
| `Reconcile.UploadAllLog` | index.js:188-195 | every upload is issued, in walk order, whatever the earlier ones answered; the flag is unchanged |
| `Reconcile.UploadAllStore` | index.js:205-215 | uploads into an existing bucket change only that bucket's objects, each accepted one upserted |
| `Reconcile.UploadAllAppend` | index.js:188-195 | uploading two batches one after the other is uploading their concatenation |
| `Reconcile.UploadAllValid` | index.js:188-215 | the uploads keep the account well-formed, whichever of them are rejected |
| `Reconcile.RunFollowsPlan` | index.js:166-177 | a resolved chain issued the whole reference script, the provider accepting every request of it, and then the uploads; a rejected chain issued a non-empty prefix of the script in which every request before the failing one was accepted, nothing after it, and no upload; the flag is never reset |
| `Reconcile.RunKeepsValid` | index.js:166-177 | a deployment keeps the account well-formed whether it resolves or is rejected |
| `Reconcile.DeployedState` | index.js:166-176 | after a resolved chain the bucket exists with hosting, policy and exactly the accepted uploads; every other bucket is unchanged and none disappeared |
| `Reconcile.CleanRunDeploys` | index.js:166-176 | a fresh plugin object whose requests the provider accepts always reaches the uploads |
| `Reconcile.StaleFlagFails` | index.js:75-83 | a flag left true for a bucket that no longer exists makes the chain skip createBucket and fail at listObjects |
| `Reconcile.PlanOrder` | index.js:166-176 | the script lists buckets, lists, deletes, creates, configures, then sets the policy, each kind at most once and in that order, all for the deployed bucket; the uploads come after |
| `Reconcile.PlanContents` | index.js:83-163 | the script holds createBucket iff the bucket is not known; listObjects iff it is; one deleteObjects iff it is known and non-empty, with exactly its keys; and always the website configuration and the policy |
| `Reconcile.IssuedInOrder` | index.js:166-176 | the requests actually issued keep the chain's order, and a putObject is issued only when the chain resolved |
| `Reconcile.UploadsIntoEmpty` | index.js:205-215 | accepted uploads with distinct keys into an empty bucket leave exactly their objects, in order |
| `Reconcile.PosixUploadsMirror` | index.js:179-215 | on POSIX, with every upload accepted, the bucket holds one object per file, keyed by its relative path, with no key twice |
| `Reconcile.MirrorsBuildFolder` | index.js:69-215 | end to end on POSIX: after a resolved deployment with every upload accepted, the bucket mirrors the build folder |
| `Plugin.Provider.constructor` | index.js:14 | the provider starts from the given well-formed store, with no request received |
| `Plugin.Provider.Request` | index.js:90 | a request is recorded and answered as the store model says, keeping the store well-formed |
| `Plugin.Client.constructor` | index.js:12-14 | a new plugin object has no bucket name, no build path, and the flag is false |
| `Plugin.Client.ValidateAndPrepare` | index.js:47-66 | on success the fields hold the configured name and build path; on failure it returns the error and leaves the fields unchanged |
| `Plugin.Client.ListBuckets` | index.js:73-80 | the loop over the listed names raises the flag on an exact match and never lowers it |
| `Plugin.Client.ListObjectsInBucket` | index.js:82-91 | implements the listing step |
| `Plugin.Client.DeleteObjectsFromBucket` | index.js:93-112 | implements the clean-out step |
| `Plugin.Client.CreateBucket` | index.js:114-123 | implements the creation step |
| `Plugin.Client.ConfigureBucket` | index.js:125-137 | implements the website step with `index.html`/`error.html` |
| `Plugin.Client.ConfigurePolicyForBucket` | index.js:139-164 | builds the policy document field by field, and it equals the public-read policy of the bucket |
| `Plugin.Client.UploadFile` | index.js:199-218 | one putObject under `replace`/`substr`/`replace` of the path, typed by `mime` |
| `Plugin.Client.UploadDirectory` | index.js:179-197 | the recursive walk issues the uploads of every file below the folder, in walk order |
| `Plugin.Client.ProcessDeployment` | index.js:69-177 | the chain of step methods issues the same requests, ends in the same state and settles the same way as `Run` |
| `Plugin.Client.Deploy` | index.js:40-43 | a failing guard issues no request and leaves the three fields as they were; otherwise the fields are set and the deployment runs as `Run` from the state the hook found; a well-formed account stays well-formed |

## Left out

- The AWS SDK as a network service is not modelled. The provider is an abstract store plus a parameter set of rejected requests; signing, stages, regions and throttling are not modelled.
- S3's global bucket namespace is not modelled. A name that another account owns is simply absent from the store, so `createBucket` on it succeeds in the model, where S3 answers `BucketAlreadyExists`; that answer can be expressed only by putting the request in `faults`.
- Pagination of `listObjects` is not modelled: a listing returns every key. The 1000-key limit of one `deleteObjects` is not modelled either.
- A `deleteObjects` reply that reports errors for some keys is not modelled; the model deletes every listed key or none. The code never reads the reply's `Errors` (index.js:110, 170-171), so in S3 such objects survive the clean-out, while `Reconcile.DeleteObjectsSpec` and `Reconcile.DeployedState` promise that every object the bucket held before is gone.
- The local filesystem is a parameter, not something the model reads. `fs.readdir`, `fs.stat` and `fs.readFile` always succeed in the model; their failures are not modelled. In the code they go three different ways:
  - a `readdir` error ends the waterfall for that directory silently, so nothing below it is uploaded (index.js:183);
  - a `stat` error leaves `stats` undefined, so `stats.isDirectory()` throws a TypeError inside the callback, an exception nothing catches (index.js:189-191);
  - a `readFile` error still sends the putObject, with an undefined body (index.js:205-215).
- Symbolic links and special files are not modelled. `fs.stat` follows a link, so a link to a directory is walked like a directory. A link cycle is walked level by level until the path holds more links than the kernel follows; `fs.stat` then fails with `ELOOP`, `stats` is undefined and `stats.isDirectory()` throws an uncaught TypeError (index.js:189-191). By then the files met on the levels already walked may have been handed to `_uploadFile`. An `Entry` tree is finite and cannot express a cycle. Anything `stat` does not report as a directory (a socket, a device, a FIFO) is uploaded like a file.
- File contents are not modelled; an object is its key and its content type.
- `mime.lookup` is a function parameter.
- Concurrency is not modelled. `async.each` and `fs.stat` dispatch the uploads without awaiting them, and the hook does not return its promise. The model issues the uploads one after another in directory order and does not model their interleaving. `Deployed` means the chain reached the uploads, not that they have landed.
- Path normalisation by `path.join` is not modelled: `.` and `..` segments and repeated or mixed separators. `Paths.Join` covers a base without a trailing separator, an empty base, and a base that ends in one.
- Settings that are not strings are not modelled: a non-string `bucketName` (a number, say) is outside the model.
- Listing order is taken as creation order for buckets and as insertion order for objects. S3 itself sorts keys, which nothing in the code depends on.
- Policy documents are compared as values. Their `JSON.stringify` text is not modelled.
- CLI logging is not modelled: `Message` gives the guard's two texts, and the `serverless.cli.log` lines are left out.
- The command table, the hook registration and the `client:client` usage hook are not modelled.
- Upload.PosixFileKey: proved only for names that are path segments, free of `/` and of `\`. A POSIX name may hold a backslash, and then the key is not the relative path (`Upload.PosixBackslashCollision`).
- Upload.PosixKeyInjective: proved only for names free of `\`; with a backslash in a POSIX name two files can share a key (`Upload.PosixBackslashCollision`).
- Upload.PosixUploadSound: proved only for trees whose names hold no backslash (`Upload.Portable`); on POSIX such a name gets a key that is not its relative path.
- Upload.PosixUploadComplete: proved only for trees whose names hold no backslash (`Upload.Portable`), for the same reason.
- Upload.PosixUploadKeyPair: proved only for trees whose names hold no backslash (`Upload.Portable`); otherwise two uploads can share a key, as `Upload.PosixBackslashCollision` shows.
- Reconcile.PosixUploadsMirror: proved only for trees whose names hold no backslash (`Upload.Portable`); with such a name two files can land on one key and the bucket then holds fewer objects than the folder has files.
- Reconcile.MirrorsBuildFolder: proved only for trees whose names hold no backslash (`Upload.Portable`); the mirror property fails for a POSIX folder holding such a name.
