/**
 * The records and constants shared by the post pipeline (main.go): the
 * Post and Location records and the default search radius.
 */
module Posts {

  /** One byte of an uploaded image. */
  type byte = x: int | 0 <= x < 256

  /**
   * An IEEE-754 double, kept opaque: the model never parses, formats or
   * compares coordinates numerically, it only carries them from the form
   * to the stores.
   */
  datatype Float64 = Float64(bits: bv64)

  datatype Location = Location(lat: Float64, lon: Float64)

  /** A post as indexed and as returned by search. */
  datatype Post = Post(user: string, message: string, url: string, location: Location)

  /** The search radius used when the request gives none. */
  const DefaultDistance: string := "200km"

  /**
   * The post handlerPost builds from the token's `username` claim and the
   * form: no media URL yet, that is stamped once the upload completes.
   */
  function NewPost(user: string, message: string, lat: Float64, lon: Float64): (p: Post)
    ensures p.user == user && p.message == message
    ensures p.location.lat == lat && p.location.lon == lon
    ensures p.url == ""
  {
    Post(user, message, "", Location(lat, lon))
  }
}
