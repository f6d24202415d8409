/** `GET /api/daily-posts/media?id=…`: the stored blob of one daily post,
    served with its MIME type and a year-long immutable cache header. */
module DailyMedia {
  import opened Wrappers
  import opened Text
  import Js
  import Seqs
  import opened DailyPosts

  datatype MediaResponse =
    | InvalidId                 // 400 "Invalid id"
    | NotFound                  // 404 "Not found"
    | Served(contentType: string, cacheControl: string, body: seq<Byte>)

  const DefaultType := "application/octet-stream"
  const CacheForever := "public, max-age=31536000, immutable"

  /** The media route over the table's rows; `idParam` is the `id` query
      parameter, `None` when it is absent. */
  function MediaGet(rows: seq<DailyPostRow>, idParam: Option<string>): (r: MediaResponse)
    ensures r == InvalidId <==> !(Js.ParseNumber(idParam.GetOr("")).Finite? && Js.ParseNumber(idParam.GetOr("")).v > 0)
    ensures r.Served? ==>
              var id := Js.ParseNumber(idParam.GetOr("")).v;
              exists i :: 0 <= i < |rows| && rows[i].id == id && rows[i].mediaBlob == Some(r.body)
    ensures r.Served? ==> r.cacheControl == CacheForever && r.contentType != ""
    ensures r != InvalidId && (forall i :: 0 <= i < |rows| ==> rows[i].id != Js.ParseNumber(idParam.GetOr("")).v) ==>
              r == NotFound
  {
    var n := Js.ParseNumber(idParam.GetOr(""));
    if !n.Finite? || n.v <= 0 then InvalidId
    else
      var item := Seqs.FindByKey(rows, Id, n.v);
      if item.None? || item.value.mediaBlob.None? then NotFound
      else
        var mime := item.value.mediaMime.GetOr("");
        Served(if mime == "" then DefaultType else mime, CacheForever, item.value.mediaBlob.value)
  }

  /** In a table whose ids are unique, the row with a given id is found. */
  /** Every stored post's media is served, under its own id and its own MIME
      type (or the generic one when none was recorded); a post stored without
      media is not found. */
  lemma MediaOfStoredPost(rows: seq<DailyPostRow>, nextId: nat, k: nat)
    requires TableInvariant(rows, nextId) && k < |rows| && rows[k].id > 0
    ensures rows[k].mediaBlob.None? ==> MediaGet(rows, Some(NatToString(rows[k].id))) == NotFound
    ensures rows[k].mediaBlob.Some? ==>
              MediaGet(rows, Some(NatToString(rows[k].id)))
              == Served(if rows[k].mediaMime.GetOr("") == "" then DefaultType else rows[k].mediaMime.value,
                        CacheForever, rows[k].mediaBlob.value)
  {
    Js.ParseRendered(rows[k].id);
    Seqs.FindByKeyUnique(rows, Id, k);
  }
}
