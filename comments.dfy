/** The comments table and the `/api/comments` route: anonymous comments
    keyed by a free-text post slug. */
module Comments {
  import opened Wrappers
  import opened Text
  import Js
  import Uri
  import Seqs

  datatype CommentRow = CommentRow(id: nat, postSlug: string, author: string, content: string)

  /** The fields a POST stores once they pass validation. */
  datatype CommentInput = CommentInput(slug: string, name: string, content: string)

  /** The outcome of validating a POST body. */
  datatype Checked = Accepted(input: CommentInput) | Rejected | Undecodable

  datatype ListResponse = Items(items: seq<CommentRow>) | ListUriError

  datatype PostResponse = Created(item: CommentRow) | InvalidPayload | PostUriError

  const NameWidth := 64

  function Id(row: CommentRow): int {
    row.id
  }

  /** Reads and checks a POST body: the slug is URI-decoded and trimmed, the
      name trimmed and cut to 64 characters, the content trimmed, and the post
      is rejected when any of the three ends up empty. Fields that are not
      strings count as empty. */
  function Validate(body: Js.Value): (r: Checked)
    ensures var slugRaw := Js.StringOr(Js.Field(body, "slug"), "");
            r.Undecodable? <==> Uri.Decode(slugRaw).None?
    ensures r.Accepted? ==> r.input.slug != "" && r.input.name != "" && r.input.content != ""
    ensures r.Accepted? ==>
              && r.input.slug == Trim(Uri.Decode(Js.StringOr(Js.Field(body, "slug"), "")).value)
              && r.input.name == Take(Trim(Js.StringOr(Js.Field(body, "name"), "")), NameWidth)
              && r.input.content == Trim(Js.StringOr(Js.Field(body, "content"), ""))
    ensures r.Accepted? ==> |r.input.name| <= NameWidth
    ensures !Js.Field(body, "name").Str? || !Js.Field(body, "content").Str? ==> !r.Accepted?
    ensures var slugRaw := Js.StringOr(Js.Field(body, "slug"), "");
            Uri.Decode(slugRaw).Some? ==>
              (r.Rejected? <==> IsBlank(Uri.Decode(slugRaw).value)
                                || IsBlank(Js.StringOr(Js.Field(body, "name"), ""))
                                || IsBlank(Js.StringOr(Js.Field(body, "content"), "")))
  {
    var slugRaw := Js.StringOr(Js.Field(body, "slug"), "");
    var nameRaw := Js.StringOr(Js.Field(body, "name"), "");
    var contentRaw := Js.StringOr(Js.Field(body, "content"), "");
    match Uri.Decode(slugRaw)
    case None => Undecodable
    case Some(decoded) =>
      var slug := Trim(decoded);
      var name := Take(Trim(nameRaw), NameWidth);
      var content := Trim(contentRaw);
      if slug == "" || name == "" || content == "" then Rejected
      else Accepted(CommentInput(slug, name, content))
  }

  /** What the table holds: ids in insertion order below the next id, and only
      rows that passed validation. */
  ghost predicate TableInvariant(rows: seq<CommentRow>, nextId: nat) {
    && Seqs.IncreasingBy(rows, Id)
    && forall i :: 0 <= i < |rows| ==>
         && rows[i].id < nextId
         && rows[i].postSlug != "" && rows[i].postSlug == Trim(rows[i].postSlug)
         && rows[i].author != "" && |rows[i].author| <= NameWidth
         && rows[i].content != ""
  }

  function OfSlug(slug: string): CommentRow -> bool {
    (row: CommentRow) => row.postSlug == slug
  }

  /** A trimmed text has no surrounding white space, so a slug made only of
      white space, which GET queries without trimming, matches no stored row. */
  lemma BlankSlugMatchesNothing(rows: seq<CommentRow>, nextId: nat, slug: string)
    requires TableInvariant(rows, nextId) && slug != "" && IsBlank(slug)
    ensures forall i :: 0 <= i < |rows| ==> rows[i].postSlug != slug
  {
    forall i | 0 <= i < |rows| ensures !IsBlank(rows[i].postSlug) {
      assert Trim(rows[i].postSlug) != [];
    }
  }

  /** Appending a validated comment under the next id keeps the invariant. */
  lemma AppendKeepsInvariant(rows: seq<CommentRow>, nextId: nat, input: CommentInput)
    requires TableInvariant(rows, nextId)
    requires input.slug != "" && input.slug == Trim(input.slug)
    requires input.name != "" && |input.name| <= NameWidth && input.content != ""
    ensures TableInvariant(rows + [CommentRow(nextId, input.slug, input.name, input.content)], nextId + 1)
  {
    var r := rows + [CommentRow(nextId, input.slug, input.name, input.content)];
    forall a, b | 0 <= a < b < |r| ensures Id(r[a]) < Id(r[b]) {
      assert r[a] == rows[a];
      if b < |rows| { assert r[b] == rows[b]; }
    }
  }

  /** Reading the last row back by its id, which no earlier row carries, finds it. */
  lemma ReadBack(rows: seq<CommentRow>, item: Option<CommentRow>, id: nat)
    requires rows != [] && rows[|rows| - 1].id == id
    requires forall i :: 0 <= i < |rows| - 1 ==> rows[i].id < id
    requires item == Seqs.FindByKey(rows, Id, id)
    ensures item == Some(rows[|rows| - 1])
  {
    assert item.Some?;
    var j :| 0 <= j < |rows| && rows[j] == item.value;
  }

  /** A validated slug is already trimmed. */
  lemma AcceptedSlugTrimmed(body: Js.Value)
    requires Validate(body).Accepted?
    ensures Validate(body).input.slug == Trim(Validate(body).input.slug)
  {
    var d := Uri.Decode(Js.StringOr(Js.Field(body, "slug"), "")).value;
    TrimIdempotent(d);
  }

  class CommentsTable {
    var rows: seq<CommentRow>
    var nextId: nat

    ghost predicate Valid()
      reads this
    {
      TableInvariant(rows, nextId)
    }

    constructor ()
      ensures Valid() && rows == [] && nextId == 1
    {
      rows := [];
      nextId := 1;
    }

    /** `GET /api/comments?slug=...`: the comments whose slug equals the decoded
        parameter (not trimmed), newest first; nothing for an empty slug. */
    method Get(slugParam: Option<string>) returns (r: ListResponse)
      requires Valid()
      ensures Uri.Decode(slugParam.GetOr("")).None? <==> r.ListUriError?
      ensures r.Items? ==> var slug := Uri.Decode(slugParam.GetOr("")).value;
              && (forall i :: 0 <= i < |r.items| ==> r.items[i] in rows && r.items[i].postSlug == slug)
              && (slug != "" ==> forall i :: 0 <= i < |rows| && rows[i].postSlug == slug ==> rows[i] in r.items)
              && (slug == "" ==> r.items == [])
      ensures r.Items? ==> Seqs.DecreasingBy(r.items, Id)
    {
      var decoded := Uri.Decode(slugParam.GetOr(""));
      if decoded.None? {
        return ListUriError;
      }
      var slug := decoded.value;
      if slug == "" {
        return Items([]);
      }
      Seqs.NewestFirstSpec(rows, OfSlug(slug), Id);
      r := Items(Seqs.NewestFirst(rows, OfSlug(slug)));
    }

    /** `POST /api/comments`: store a validated comment and return the stored
        row, read back by its new id. */
    method Post(body: Js.Value) returns (r: PostResponse)
      requires Valid()
      modifies this
      ensures Valid()
      ensures Validate(body).Undecodable? ==> r == PostUriError && rows == old(rows)
      ensures Validate(body).Rejected? ==> r == InvalidPayload && rows == old(rows)
      ensures Validate(body).Accepted? ==>
                var input := Validate(body).input;
                && r == Created(CommentRow(old(nextId), input.slug, input.name, input.content))
                && rows == old(rows) + [r.item]
      ensures nextId == old(nextId) + (if r.Created? then 1 else 0)
    {
      var checked := Validate(body);
      if checked.Undecodable? {
        return PostUriError;
      }
      if checked.Rejected? {
        return InvalidPayload;
      }
      var input := checked.input;
      AcceptedSlugTrimmed(body);
      AppendKeepsInvariant(rows, nextId, input);
      var insertId := nextId;
      rows := rows + [CommentRow(insertId, input.slug, input.name, input.content)];
      nextId := nextId + 1;
      var item := Seqs.FindByKey(rows, Id, insertId);
      ReadBack(rows, item, insertId);
      r := Created(item.value);
    }
  }
}
