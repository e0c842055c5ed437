/** The objects kept in the `videos` store (app.js:25), with the key the store adds (app.js:10). */
module Records {
  import opened Wrappers

  /** Binary video content; treated as an opaque value. */
  datatype Blob = Blob(bytes: seq<bv8>)

  /** One object of the `videos` store; a field that is absent is `None`. */
  datatype VideoRecord = VideoRecord(id: nat, blob: Blob, filename: Option<string>, title: Option<string>, created: int)
}
