/**
 * handlerPost and saveToES (main.go): one post submission, fanned out to
 * the image bucket, the search index and the wide-column table under a
 * single freshly minted id.
 *
 * Every store call's success or failure, the minted id, the table
 * timestamp and the float formatting are inputs. A panic in the source
 * (the request is abandoned, the process goes on) is an abort here.
 */
module Ingest {
  import opened Wrappers
  import opened Posts
  import opened BlobStore
  import opened ColumnStore

  /** The "post" documents of the index, by document id. */
  type PostIndex = map<string, Post>

  /** The three stores a submission writes to. */
  datatype Stores = Stores(bucket: Bucket, index: PostIndex, table: Table)

  /** The parsed multipart form: message, coordinates, and the `image` file if one was sent. */
  datatype PostForm = PostForm(message: string, lat: Float64, lon: Float64, image: Option<seq<byte>>)

  /** What the outside world supplies to one submission. */
  datatype PostEnv = PostEnv(
    id: string,                       // the uuid minted for this post
    gcs: GcsEnv,                      // outcomes of the upload calls
    esClientOk: bool, esIndexOk: bool,
    btClientOk: bool, btApplyOk: bool,
    now: int,                         // the table timestamp
    formatFloat: Float64 -> string)

  /** Where a submission stopped. */
  datatype Stage = ImageMissing | UploadFailed(upload: Upload) | IndexWriteFailed | RowWriteFailed

  datatype PostOutcome = Completed | Aborted(stage: Stage)

  /** The outcome, the post as last built, and the stores afterwards. */
  datatype PostResult = PostResult(outcome: PostOutcome, post: Post, stores: Stores)

  /**
   * saveToES: index the post under `id` with an immediate refresh. None
   * stands for the panic on a client or index error, with nothing written.
   */
  function SaveToEs(index: PostIndex, p: Post, id: string, clientOk: bool, indexOk: bool): (r: Option<PostIndex>)
    ensures r.Some? <==> clientOk && indexOk
    ensures r.Some? ==> id in r.value && r.value[id] == p
    ensures r.Some? ==> forall k :: k != id ==> (k in r.value <==> k in index)
    ensures r.Some? ==> forall k :: k in index && k != id ==> r.value[k] == index[k]
  {
    if !clientOk then None
    else if !indexOk then None
    else Some(index[id := p])
  }

  /**
   * handlerPost after the token and form are decoded: build the post, mint
   * the id, require the image, upload it, stamp the media link, index the
   * post, write the column row. Each failure ends the submission there.
   */
  function HandlePost(s: Stores, username: string, form: PostForm, env: PostEnv): (r: PostResult)
    // the post carries the token's user, the form's message and coordinates
    ensures r.post.user == username && r.post.message == form.message
    ensures r.post.location == Location(form.lat, form.lon)
    // no image: nothing is written anywhere
    ensures r.outcome == Aborted(ImageMissing) <==> form.image.None?
    ensures r.outcome == Aborted(ImageMissing) ==> r.stores == s
    // the upload is all-or-nothing for the downstream stores
    ensures r.outcome.Aborted? && r.outcome.stage.UploadFailed? <==>
              form.image.Some? && !AllCallsSucceed(env.gcs)
    ensures r.outcome.Aborted? && (r.outcome.stage.ImageMissing? || r.outcome.stage.UploadFailed?) ==>
              r.post.url == "" && r.stores.index == s.index && r.stores.table == s.table
    // the index is written exactly when the upload succeeded and the index calls succeed
    ensures r.stores.index != s.index ==> form.image.Some? && AllCallsSucceed(env.gcs)
    ensures (r.outcome == Completed || r.outcome == Aborted(RowWriteFailed)) <==>
              form.image.Some? && AllCallsSucceed(env.gcs) && env.esClientOk && env.esIndexOk
    // an index failure writes neither index nor table; a row failure leaves the post indexed without a row
    ensures r.outcome == Aborted(IndexWriteFailed) ==> r.stores.index == s.index && r.stores.table == s.table
    ensures r.outcome == Aborted(RowWriteFailed) ==>
              env.id in r.stores.index && r.stores.index[env.id] == r.post && r.stores.table == s.table
    // an upload failure leaves the bucket as the upload left it: untouched before the close
    ensures r.outcome.Aborted? && r.outcome.stage.UploadFailed? ==>
              r.stores.bucket == SaveToGcs(s.bucket, env.id, form.image.value, env.gcs).bucket
    ensures (&& r.outcome.Aborted? && r.outcome.stage.UploadFailed?
             && r.outcome.stage.upload.Failed? && r.outcome.stage.upload.step != SetPublicRead)
            ==> r.stores == s
    // once the upload succeeded, the post carries the media link, indexed or not
    ensures (|| r.outcome == Completed
             || r.outcome == Aborted(IndexWriteFailed)
             || r.outcome == Aborted(RowWriteFailed))
            ==> r.post.url == env.gcs.mediaLink
    // the uploaded object is never rolled back when a later step fails
    ensures (|| r.outcome == Aborted(IndexWriteFailed)
             || r.outcome == Aborted(RowWriteFailed)
             || r.outcome == Aborted(UploadFailed(NilAttrsPanic)))
            ==> env.id in r.stores.bucket && r.stores.bucket[env.id] == Blob(form.image.value, true)
    // the row is written only after the index write succeeded
    ensures r.stores.table != s.table ==> r.outcome == Completed
    ensures r.outcome == Completed <==>
              form.image.Some? && AllCallsSucceed(env.gcs) && env.esClientOk && env.esIndexOk
              && env.btClientOk && env.btApplyOk
    // on success one id is the object name, the document id and the row key
    ensures r.outcome == Completed ==>
              && r.post.url == env.gcs.mediaLink
              && env.id in r.stores.bucket && r.stores.bucket[env.id] == Blob(form.image.value, true)
              && env.id in r.stores.index && r.stores.index[env.id] == r.post
              && r.stores.table == Apply(s.table, env.id, PostMutation(r.post, env.now, env.formatFloat))
    // nothing under any other key changes in any store
    ensures forall k :: k != env.id ==> (k in r.stores.bucket <==> k in s.bucket)
    ensures forall k :: k in s.bucket && k != env.id ==> r.stores.bucket[k] == s.bucket[k]
    ensures forall k :: k != env.id ==> (k in r.stores.index <==> k in s.index)
    ensures forall k :: k in s.index && k != env.id ==> r.stores.index[k] == s.index[k]
    ensures forall k :: k != env.id ==> (k in r.stores.table <==> k in s.table)
    ensures forall k :: k in s.table && k != env.id ==> r.stores.table[k] == s.table[k]
  {
    var p := NewPost(username, form.message, form.lat, form.lon);
    var id := env.id;
    if form.image.None? then PostResult(Aborted(ImageMissing), p, s)
    else
      var up := SaveToGcs(s.bucket, id, form.image.value, env.gcs);
      var s1 := s.(bucket := up.bucket);
      if !up.upload.Uploaded? then PostResult(Aborted(UploadFailed(up.upload)), p, s1)
      else
        var p1 := p.(url := up.upload.mediaLink);
        var es := SaveToEs(s1.index, p1, id, env.esClientOk, env.esIndexOk);
        if es.None? then PostResult(Aborted(IndexWriteFailed), p1, s1)
        else
          var s2 := s1.(index := es.value);
          var bt := SaveToBigTable(s2.table, p1, id, env.now, env.formatFloat, env.btClientOk, env.btApplyOk);
          if bt.None? then PostResult(Aborted(RowWriteFailed), p1, s2)
          else PostResult(Completed, p1, s2.(table := bt.value))
  }

  /**
   * After a completed submission under a fresh id, reading the post's row
   * returns the author, the message and the formatted coordinates.
   */
  lemma CompletedRowReadsBack(s: Stores, username: string, form: PostForm, env: PostEnv)
    requires HandlePost(s, username, form, env).outcome == Completed
    requires env.id !in s.table
    ensures var row := HandlePost(s, username, form, env).stores.table[env.id];
            && ReadCell(row, "post", "user") == Some(username)
            && ReadCell(row, "post", "message") == Some(form.message)
            && ReadCell(row, "location", "lat") == Some(env.formatFloat(form.lat))
            && ReadCell(row, "location", "lon") == Some(env.formatFloat(form.lon))
  {
    var r := HandlePost(s, username, form, env);
    assert r.stores.table[env.id] == [] + PostMutation(r.post, env.now, env.formatFloat);
    PostRowReadsBack([], r.post, env.now, env.formatFloat);
  }
}
