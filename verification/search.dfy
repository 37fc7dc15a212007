/**
 * handlerSearch (main.go): the radius string, the geo-distance query over
 * the "location" field, and the collection of hits into posts.
 *
 * The query's semantics belong to the search index and are not modelled:
 * the index is an oracle that answers a query with a sequence of hits, or
 * fails.
 */
module Search {
  import opened Wrappers
  import opened Posts
  import Ingest

  /** The geo-distance query handlerSearch sends: field, distance text, centre. */
  datatype GeoQuery = GeoQuery(field: string, distance: string, lat: Float64, lon: Float64)

  /** A search hit: the document id and its source decoded as a post. */
  datatype Hit = Hit(id: string, source: Post)

  /** What the index answers: whether a client can be created, and each query's hits or failure. */
  datatype SearchEnv = SearchEnv(clientOk: bool, run: GeoQuery -> Option<seq<Hit>>)

  /** The response: the query sent and the posts returned, or a panic on a store error. */
  datatype SearchReply = Found(query: GeoQuery, posts: seq<Post>) | SearchPanic

  /**
   * The distance of the query: "200km" when the `range` parameter is
   * empty, otherwise the parameter with "km" appended, unchecked.
   */
  function RangeString(param: string): (r: string)
    ensures param == "" ==> r == DefaultDistance
    ensures param != "" ==> |r| == |param| + 2 && r[..|param|] == param && r[|param|..] == "km"
  {
    if param != "" then param + "km" else DefaultDistance
  }

  /** Collect the posts of the hits: one per hit, in the order the index returned them. */
  method CollectPosts(hits: seq<Hit>) returns (ps: seq<Post>)
    ensures |ps| == |hits|
    ensures forall i :: 0 <= i < |hits| ==> ps[i] == hits[i].source
  {
    ps := [];
    var i := 0;
    while i < |hits|
      invariant 0 <= i <= |hits|
      invariant |ps| == i
      invariant forall j :: 0 <= j < i ==> ps[j] == hits[j].source
    {
      ps := ps + [hits[i].source];
      i := i + 1;
    }
  }

  /**
   * handlerSearch after the query parameters are parsed: build the query,
   * run it, collect the hits. A client or query error panics.
   */
  method HandleSearch(lat: Float64, lon: Float64, rangeParam: string, env: SearchEnv) returns (r: SearchReply)
    ensures r.Found? <==> env.clientOk && env.run(GeoQuery("location", RangeString(rangeParam), lat, lon)).Some?
    ensures r.Found? ==> r.query == GeoQuery("location", RangeString(rangeParam), lat, lon)
    ensures r.Found? ==> var hits := env.run(r.query).value;
              |r.posts| == |hits| && forall i :: 0 <= i < |hits| ==> r.posts[i] == hits[i].source
  {
    var distance := RangeString(rangeParam);
    if !env.clientOk {
      return SearchPanic;
    }
    var q := GeoQuery("location", distance, lat, lon);
    var answer := env.run(q);
    if answer.None? {
      return SearchPanic;
    }
    var ps := CollectPosts(answer.value);
    r := Found(q, ps);
  }

  /** Every hit carries the document the index holds under its id. */
  predicate HitsFromIndex(index: Ingest.PostIndex, hits: seq<Hit>)
  {
    forall i :: 0 <= i < |hits| ==> hits[i].id in index && hits[i].source == index[hits[i].id]
  }

  /**
   * After a completed submission, a search whose hits come from the index
   * and include the new id returns the submitted post, media link and all.
   */
  lemma SubmittedPostIsFound(s: Ingest.Stores, username: string, form: Ingest.PostForm, env: Ingest.PostEnv,
                             hits: seq<Hit>, i: nat)
    requires Ingest.HandlePost(s, username, form, env).outcome == Ingest.Completed
    requires HitsFromIndex(Ingest.HandlePost(s, username, form, env).stores.index, hits)
    requires i < |hits| && hits[i].id == env.id
    ensures hits[i].source == Ingest.HandlePost(s, username, form, env).post
    ensures hits[i].source.user == username && hits[i].source.message == form.message
    ensures hits[i].source.url == env.gcs.mediaLink
  {
  }
}
