/**
 * saveToGCS (main.go): the upload of a post's image to the bucket, as a
 * fixed sequence of store calls that stops at the first one that fails.
 */
module BlobStore {
  import opened Posts

  /** The store calls saveToGCS makes, in the order it makes them. */
  datatype Step = NewClient | BucketAttrs | Copy | Close | SetPublicRead | ObjectAttrs

  const UploadSteps: seq<Step> := [NewClient, BucketAttrs, Copy, Close, SetPublicRead, ObjectAttrs]

  /** A stored object: its bytes and whether all users may read it. */
  datatype Blob = Blob(content: seq<byte>, publicRead: bool)

  /** The objects of the post-images bucket, by object name. */
  type Bucket = map<string, Blob>

  /**
   * What the store answers: which calls succeed, whether the bucket's
   * default object ACL makes a new object public-read, and the media link
   * the object's attributes report.
   */
  datatype GcsEnv = GcsEnv(ok: Step -> bool, defaultPublic: bool, mediaLink: string)

  /**
   * How saveToGCS ends: with the object's attributes, with the error of the
   * first failing call, or with a panic when the final attributes call
   * fails (the source prints `attrs.MediaLink` before checking that error,
   * and `attrs` is nil then).
   */
  datatype Upload = Uploaded(mediaLink: string) | Failed(step: Step) | NilAttrsPanic

  /** Every call of the upload succeeds. */
  predicate AllCallsSucceed(env: GcsEnv)
  {
    env.ok(NewClient) && env.ok(BucketAttrs) && env.ok(Copy)
    && env.ok(Close) && env.ok(SetPublicRead) && env.ok(ObjectAttrs)
  }

  /** The outcome, the calls actually made, and the bucket afterwards. */
  datatype UploadResult = UploadResult(upload: Upload, attempted: seq<Step>, bucket: Bucket)

  /** The number of leading steps that succeed: the index of the first failing step, or |steps|. */
  function FirstFailure(steps: seq<Step>, ok: Step -> bool): (k: nat)
    ensures k <= |steps|
    ensures forall i :: 0 <= i < k ==> ok(steps[i])
    ensures k < |steps| ==> !ok(steps[k])
  {
    if |steps| == 0 then 0
    else if !ok(steps[0]) then 0
    else 1 + FirstFailure(steps[1..], ok)
  }

  /**
   * saveToGCS: the object comes into being when the writer is closed, with
   * the bucket's default visibility, and becomes public-read when the ACL
   * call succeeds; every call after the first failing one is skipped.
   */
  function SaveToGcs(bucket: Bucket, name: string, content: seq<byte>, env: GcsEnv): (r: UploadResult)
    // the calls made are a non-empty prefix of the fixed order; all but the last succeeded
    ensures 0 < |r.attempted| <= |UploadSteps| && r.attempted == UploadSteps[..|r.attempted|]
    ensures forall i :: 0 <= i < |r.attempted| - 1 ==> env.ok(r.attempted[i])
    // success exactly when every call succeeds
    ensures r.upload.Uploaded? <==> AllCallsSucceed(env)
    ensures r.upload.Uploaded? ==> r.attempted == UploadSteps && r.upload.mediaLink == env.mediaLink
    ensures r.upload.Uploaded? ==> name in r.bucket && r.bucket[name] == Blob(content, true)
    // an error names the call that failed, which is the last call made
    ensures r.upload.Failed? ==> !env.ok(r.upload.step) && r.attempted[|r.attempted| - 1] == r.upload.step
    ensures r.upload.NilAttrsPanic? <==> r.attempted == UploadSteps && !env.ok(ObjectAttrs)
    // the ACL is only ever set on an object whose write and close succeeded
    ensures SetPublicRead in r.attempted ==> env.ok(Copy) && env.ok(Close)
    ensures (&& name in r.bucket && r.bucket[name].publicRead
             && (name !in bucket || !bucket[name].publicRead)
             && !env.defaultPublic)
            ==> env.ok(Copy) && env.ok(Close) && env.ok(SetPublicRead)
    // a failure before the writer is closed leaves the bucket untouched
    ensures !(Close in r.attempted && env.ok(Close)) ==> r.bucket == bucket
    // a failure at or after the close leaves the written object in place
    ensures r.upload == Failed(SetPublicRead) ==> r.bucket == bucket[name := Blob(content, env.defaultPublic)]
    ensures r.upload.NilAttrsPanic? ==> r.bucket == bucket[name := Blob(content, true)]
    // no other object changes
    ensures forall k :: k != name ==> (k in r.bucket <==> k in bucket)
    ensures forall k :: k in bucket && k != name ==> r.bucket[k] == bucket[k]
  {
    if !env.ok(NewClient) then UploadResult(Failed(NewClient), [NewClient], bucket)
    else if !env.ok(BucketAttrs) then UploadResult(Failed(BucketAttrs), [NewClient, BucketAttrs], bucket)
    else if !env.ok(Copy) then UploadResult(Failed(Copy), [NewClient, BucketAttrs, Copy], bucket)
    else if !env.ok(Close) then UploadResult(Failed(Close), [NewClient, BucketAttrs, Copy, Close], bucket)
    else if !env.ok(SetPublicRead) then
      UploadResult(Failed(SetPublicRead), [NewClient, BucketAttrs, Copy, Close, SetPublicRead],
                   bucket[name := Blob(content, env.defaultPublic)])
    else if !env.ok(ObjectAttrs) then
      UploadResult(NilAttrsPanic, UploadSteps, bucket[name := Blob(content, true)])
    else UploadResult(Uploaded(env.mediaLink), UploadSteps, bucket[name := Blob(content, true)])
  }

  /**
   * The calls saveToGCS makes are exactly the leading successful calls plus
   * the first failing one: the short circuit stops at the first failure.
   */
  lemma UploadStopsAtFirstFailure(bucket: Bucket, name: string, content: seq<byte>, env: GcsEnv)
    ensures var k := FirstFailure(UploadSteps, env.ok);
            |SaveToGcs(bucket, name, content, env).attempted| == if k < |UploadSteps| then k + 1 else k
  {
  }
}
