/** The `daily_posts` table and the `/api/daily-posts` route: short posts with
    an optional image or video stored as a blob in the row. */
module DailyPosts {
  import opened Wrappers
  import opened Text
  import Js
  import Seqs

  type Byte = b: int | 0 <= b < 256

  /** The `media_type` column: 'none', 'image' or 'video'. */
  datatype MediaType = NoMedia | Image | Video

  datatype DailyPostRow = DailyPostRow(
    id: nat, content: string, mediaType: MediaType,
    mediaMime: Option<string>, mediaBlob: Option<seq<Byte>>)

  /** A part of a multipart body: a text field or an uploaded file. */
  datatype FormValue = FormText(text: string) | FormFile(mimeType: string, bytes: seq<Byte>)

  /** A POST: its Content-Type header, its form entries (`None` when
      `formData()` cannot read the body), and what `request.json()` yields
      (`null` when it fails). */
  datatype PostRequest = PostRequest(contentType: string, form: Option<map<string, FormValue>>, json: Js.Value)

  /** The values the POST inserts. */
  datatype NewPost = NewPost(content: string, mediaType: MediaType, mediaMime: Option<string>, mediaBlob: Option<seq<Byte>>)

  datatype Payload = Accepted(post: NewPost) | InvalidPayload | Unreadable

  /** A listed post: `has_media` is 1 exactly when the blob is not NULL. */
  datatype ListItem = ListItem(id: nat, content: string, mediaType: MediaType, hasMedia: int)

  datatype PostResponse = Created(item: ListItem) | Rejected | FormError

  const ListLimit := 50
  const Multipart := "multipart/form-data"

  function Id(row: DailyPostRow): int {
    row.id
  }

  /** The media type a multipart `mode` field asks for. */
  function ModeMedia(mode: string): (m: MediaType)
    ensures m == Image <==> mode == "image"
    ensures m == Video <==> mode == "video"
  {
    if mode == "image" then Image else if mode == "video" then Video else NoMedia
  }

  /** `form.get(key)` when it is a string. */
  function FormString(form: map<string, FormValue>, key: string, d: string): string {
    if key in form && form[key].FormText? then form[key].text else d
  }

  predicate HasFile(form: map<string, FormValue>) {
    "file" in form && form["file"].FormFile?
  }

  /** The payload of a POST. A multipart body gives the text, the media type
      its mode asks for and the uploaded file; without a file part the media
      type falls back to none. A JSON body only ever gives text. A post with
      neither text nor file is rejected. */
  function PayloadOf(req: PostRequest): (r: Payload)
    ensures !Includes(req.contentType, Multipart) ==>
              r != Unreadable
              && (r.Accepted? ==> r.post == NewPost(Trim(Js.StringOr(Js.Field(req.json, "text"), "")), NoMedia, None, None))
              && (r.InvalidPayload? <==> IsBlank(Js.StringOr(Js.Field(req.json, "text"), "")))
    ensures Includes(req.contentType, Multipart) ==> (r.Unreadable? <==> req.form.None?)
    ensures Includes(req.contentType, Multipart) && req.form.Some? ==>
              var form := req.form.value;
              && (r.InvalidPayload? <==> IsBlank(FormString(form, "text", "")) && !HasFile(form))
              && (r.Accepted? ==>
                    && r.post.content == Trim(FormString(form, "text", ""))
                    && (HasFile(form) ==>
                          && r.post.mediaBlob == Some(form["file"].bytes)
                          && r.post.mediaType == ModeMedia(FormString(form, "mode", "text"))
                          && r.post.mediaMime == (if form["file"].mimeType == "" then None else Some(form["file"].mimeType)))
                    && (!HasFile(form) ==> r.post.mediaType == NoMedia && r.post.mediaBlob.None? && r.post.mediaMime.None?))
    ensures r.Accepted? ==> r.post.content != "" || r.post.mediaBlob.Some?
  {
    if Includes(req.contentType, Multipart) then
      match req.form
      case None => Unreadable
      case Some(form) =>
        var content := Trim(FormString(form, "text", ""));
        if HasFile(form) then
          var file := form["file"];
          Accepted(NewPost(content, ModeMedia(FormString(form, "mode", "text")),
                           if file.mimeType == "" then None else Some(file.mimeType), Some(file.bytes)))
        else if content == "" then InvalidPayload
        else Accepted(NewPost(content, NoMedia, None, None))
    else
      var content := Trim(Js.StringOr(Js.Field(req.json, "text"), ""));
      if content == "" then InvalidPayload else Accepted(NewPost(content, NoMedia, None, None))
  }

  /** Reads the payload of a POST, step by step as the handler does. */
  method ReadPayload(req: PostRequest) returns (r: Payload)
    ensures r == PayloadOf(req)
  {
    var content := "";
    var mediaType := NoMedia;
    var mediaMime: Option<string> := None;
    var mediaBlob: Option<seq<Byte>> := None;

    if Includes(req.contentType, Multipart) {
      if req.form.None? {
        return Unreadable;
      }
      var form := req.form.value;
      var textRaw := FormString(form, "text", "");
      var modeRaw := FormString(form, "mode", "text");
      content := Trim(textRaw);
      mediaType := if modeRaw == "image" then Image else if modeRaw == "video" then Video else NoMedia;
      if "file" in form && form["file"].FormFile? {
        var file := form["file"];
        mediaBlob := Some(file.bytes);
        mediaMime := if file.mimeType == "" then None else Some(file.mimeType);
      } else {
        mediaType := NoMedia;
      }
    } else {
      var textRaw := Js.StringOr(Js.Field(req.json, "text"), "");
      content := Trim(textRaw);
      mediaType := NoMedia;
    }

    if content == "" && mediaBlob.None? {
      return InvalidPayload;
    }
    r := Accepted(NewPost(content, mediaType, mediaMime, mediaBlob));
  }

  /** The row the INSERT stores for an accepted post. */
  function RowOf(id: nat, post: NewPost): DailyPostRow {
    DailyPostRow(id, post.content, post.mediaType, post.mediaMime, post.mediaBlob)
  }

  /** A row as the listing and the POST reply select it. */
  function ItemOf(row: DailyPostRow): ListItem {
    ListItem(row.id, row.content, row.mediaType, if row.mediaBlob.Some? then 1 else 0)
  }

  /** The table's invariant: ids in insertion order, below the next id, and
      every row non-empty in text or media. */
  ghost predicate TableInvariant(rows: seq<DailyPostRow>, nextId: nat) {
    && Seqs.IncreasingBy(rows, Id)
    && forall i :: 0 <= i < |rows| ==> rows[i].id < nextId && (rows[i].content != "" || rows[i].mediaBlob.Some?)
  }

  lemma AppendKeepsInvariant(rows: seq<DailyPostRow>, nextId: nat, post: NewPost)
    requires TableInvariant(rows, nextId) && (post.content != "" || post.mediaBlob.Some?)
    ensures TableInvariant(rows + [RowOf(nextId, post)], nextId + 1)
  {
    var r := rows + [RowOf(nextId, post)];
    forall a, b | 0 <= a < b < |r| ensures Id(r[a]) < Id(r[b]) {
      assert r[a] == rows[a];
      if b < |rows| { assert r[b] == rows[b]; }
    }
  }

  function Min(a: int, b: int): int {
    if a < b then a else b
  }

  class DailyPostsTable {
    var rows: seq<DailyPostRow>
    var nextId: nat

    ghost predicate Valid()
      reads this
    {
      TableInvariant(rows, nextId)
    }

    constructor ()
      ensures Valid() && rows == [] && nextId == 1
    {
      rows := [];
      nextId := 1;
    }

    /** `GET /api/daily-posts`: the 50 newest posts, newest first, with
        `has_media` in place of the blob. */
    method List() returns (items: seq<ListItem>)
      requires Valid()
      ensures |items| == Min(|rows|, ListLimit)
      ensures forall i :: 0 <= i < |items| ==>
                var row := rows[|rows| - 1 - i];
                && items[i].id == row.id && items[i].content == row.content
                && items[i].mediaType == row.mediaType
                && (items[i].hasMedia == 1 <==> row.mediaBlob.Some?)
                && (items[i].hasMedia == 0 <==> row.mediaBlob.None?)
      ensures forall i, j :: 0 <= i < j < |items| ==> items[i].id > items[j].id
    {
      var newest := Seqs.Reverse(rows);
      var n := Min(|rows|, ListLimit);
      items := seq(n, i requires 0 <= i < n => ItemOf(newest[i]));
    }

    /** `POST /api/daily-posts`: store a post and return it as listed. */
    method Post(req: PostRequest) returns (r: PostResponse)
      requires Valid()
      modifies this
      ensures Valid()
      ensures r == FormError <==> PayloadOf(req).Unreadable?
      ensures r == Rejected <==> PayloadOf(req).InvalidPayload?
      ensures !PayloadOf(req).Accepted? ==> rows == old(rows) && nextId == old(nextId)
      ensures PayloadOf(req).Accepted? ==>
                && rows == old(rows) + [RowOf(old(nextId), PayloadOf(req).post)]
                && nextId == old(nextId) + 1
                && r == Created(ItemOf(RowOf(old(nextId), PayloadOf(req).post)))
    {
      var payload := ReadPayload(req);
      if payload.Unreadable? {
        return FormError;
      }
      if payload.InvalidPayload? {
        return Rejected;
      }
      var post := payload.post;
      AppendKeepsInvariant(rows, nextId, post);
      var row := RowOf(nextId, post);
      rows := rows + [row];
      nextId := nextId + 1;
      r := Created(ItemOf(row));
    }
  }
}
