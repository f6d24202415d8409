/** The Daily feed page: the client-side state behind the list of daily
    posts, the like and comment buttons and the publish dialog. */
module DailyPage {
  import opened Wrappers
  import opened Text
  import opened Js
  import Seqs
  import Uri
  import Comments
  import DailyPosts

  /** A post as the page keeps it. */
  datatype DailyItem = DailyItem(
    id: int, content: string, mediaType: DailyPosts.MediaType, createdAt: string,
    hasMedia: int, likesCount: int, commentsCount: int)

  /** The publish dialog's mode. */
  datatype PostMode = TextMode | ImageMode | VideoMode

  /** A file the user picked. */
  datatype MediaFile = MediaFile(mimeType: string, bytes: seq<DailyPosts.Byte>)

  /** What a `fetch` from the page produced: a rejected promise, or whether
      the response was OK and its parsed body (`null` when not JSON). */
  datatype Reply = NetworkError | Answered(ok: bool, body: Value)

  const AnonymousName := "匿名"
  const PublishFailed := "发布失败"
  const CommentFailed := "评论失败"

  /** The `mode` form field for a dialog mode. */
  function ModeName(m: PostMode): string {
    match m
    case TextMode => "text"
    case ImageMode => "image"
    case VideoMode => "video"
  }

  /** A count field: kept when it is a finite number, 0 otherwise (a numeric
      string is not a number here). */
  function CountField(v: Value): (r: int)
    ensures v.Number? && v.n.Finite? ==> r == v.n.v
    ensures !(v.Number? && v.n.Finite?) ==> r == 0
  {
    if v.Number? && v.n.Finite? then v.n.v else 0
  }

  /** `normalizeDailyPostItem`: a post from an untyped value, or `None` for a
      value that is not an object or whose id is not a positive finite
      number. `now` stands for `new Date().toISOString()`. */
  function NormalizeItem(raw: Value, now: string): (r: Option<DailyItem>)
    ensures r.None? <==> !IsObject(raw) || !NumberOf(Field(raw, "id")).Finite? || NumberOf(Field(raw, "id")).v <= 0
    ensures r.Some? ==>
              var it := r.value;
              && it.id == NumberOf(Field(raw, "id")).v && it.id > 0
              && it.content == StringOr(Field(raw, "content"), "")
              && (it.mediaType == DailyPosts.Image <==> Field(raw, "media_type") == Str("image"))
              && (it.mediaType == DailyPosts.Video <==> Field(raw, "media_type") == Str("video"))
              && it.createdAt == StringOr(Field(raw, "created_at"), now)
              && (it.hasMedia == 1 <==> Field(raw, "has_media") == Number(Finite(1)))
              && (it.hasMedia == 0 <==> Field(raw, "has_media") != Number(Finite(1)))
              && it.likesCount == CountField(Field(raw, "likes_count"))
              && it.commentsCount == CountField(Field(raw, "comments_count"))
  {
    if !IsObject(raw) then None
    else
      var id := NumberOf(Field(raw, "id"));
      if !id.Finite? || id.v <= 0 then None
      else
        var mt := Field(raw, "media_type");
        var mediaType :=
          if mt == Str("image") then DailyPosts.Image
          else if mt == Str("video") then DailyPosts.Video
          else DailyPosts.NoMedia;
        var hm := Field(raw, "has_media");
        var hasMedia := if hm == Number(Finite(1)) || hm == Number(Finite(0)) then hm.n.v else 0;
        Some(DailyItem(id.v, StringOr(Field(raw, "content"), ""), mediaType,
                       StringOr(Field(raw, "created_at"), now), hasMedia,
                       CountField(Field(raw, "likes_count")), CountField(Field(raw, "comments_count"))))
  }

  function Normalizer(now: string): Value -> Option<DailyItem> {
    (raw: Value) => NormalizeItem(raw, now)
  }

  /** The items of a `GET /api/daily-posts` body: `items` when the body is an
      object holding an array, each normalised, the invalid ones dropped. */
  function ItemsOf(data: Value, now: string): (r: seq<DailyItem>)
    ensures !Field(data, "items").Arr? ==> r == []
    ensures Field(data, "items").Arr? ==> r == Seqs.FilterMap(Field(data, "items").elems, Normalizer(now))
  {
    var rawItems := if IsObject(data) && Field(data, "items").Arr? then Field(data, "items").elems else [];
    Seqs.FilterMap(rawItems, Normalizer(now))
  }

  /** Every item the page lists has a positive id. */
  lemma LoadedIdsPositive(data: Value, now: string)
    ensures forall i :: 0 <= i < |ItemsOf(data, now)| ==> ItemsOf(data, now)[i].id > 0
  {
    var rawItems := if IsObject(data) && Field(data, "items").Arr? then Field(data, "items").elems else [];
    Seqs.FilterMapMembers(rawItems, Normalizer(now));
    forall i | 0 <= i < |ItemsOf(data, now)| ensures ItemsOf(data, now)[i].id > 0 {
      var j :| 0 <= j < |rawItems| && Normalizer(now)(rawItems[j]) == Some(ItemsOf(data, now)[i]);
    }
  }

  function FiniteNumberOf(v: Value): Option<int> {
    if v.Number? && v.n.Finite? then Some(v.n.v) else None
  }

  /** The liked ids kept in local storage: the finite numbers of a stored
      array, in order; `None` leaves the list as it was (the stored value is
      not an array, or not JSON at all). */
  function LikedIdsFrom(parsed: Option<Value>): (r: Option<seq<int>>)
    ensures r.Some? <==> parsed.Some? && parsed.value.Arr?
    ensures r.Some? ==> forall x :: x in r.value <==> Number(Finite(x)) in parsed.value.elems
  {
    if parsed.Some? && parsed.value.Arr? then
      var ids := Seqs.FilterMap(parsed.value.elems, FiniteNumberOf);
      Seqs.FilterMapMembers(parsed.value.elems, FiniteNumberOf);
      Some(ids)
    else None
  }

  /** One stored element contributes its value when it is a finite number
      and nothing otherwise. */
  lemma LikedIdsOne(v: Value)
    ensures LikedIdsFrom(Some(Arr([v]))) == Some(if v.Number? && v.n.Finite? then [v.n.v] else [])
  {
    var vs := [v];
    assert Arr(vs).Arr?;
    assert LikedIdsFrom(Some(Arr(vs))) == Some(Seqs.FilterMap(vs, FiniteNumberOf));
    assert vs[..|vs| - 1] == [];
    assert Seqs.FilterMap(vs, FiniteNumberOf) == if v.Number? && v.n.Finite? then [v.n.v] else [];
  }

  /** The ids of a stored array are the ids of its parts, in order; with
      `LikedIdsOne` this fixes the result element by element. */
  lemma LikedIdsAppend(a: seq<Value>, b: seq<Value>)
    ensures LikedIdsFrom(Some(Arr(a + b))).value == LikedIdsFrom(Some(Arr(a))).value + LikedIdsFrom(Some(Arr(b))).value
  {
    Seqs.FilterMapAppend(a, b, FiniteNumberOf);
  }

  /** Stored liked ids of finite numbers are read back unchanged. */
  lemma {:induction false} LikedIdsReadBack(ids: seq<int>)
    ensures LikedIdsFrom(Some(Arr(seq(|ids|, i requires 0 <= i < |ids| => Number(Finite(ids[i])))))) == Some(ids)
    decreases |ids|
  {
    var vs := seq(|ids|, i requires 0 <= i < |ids| => Number(Finite(ids[i])));
    if ids != [] {
      var init := ids[..|ids| - 1];
      var last := ids[|ids| - 1];
      LikedIdsReadBack(init);
      assert vs == seq(|init|, i requires 0 <= i < |init| => Number(Finite(init[i]))) + [Number(Finite(last))];
      LikedIdsAppend(seq(|init|, i requires 0 <= i < |init| => Number(Finite(init[i]))), [Number(Finite(last))]);
      LikedIdsOne(Number(Finite(last)));
      assert ids == init + [last];
    }
  }

  function Without(ids: seq<int>, x: int): (r: seq<int>)
    ensures forall i :: 0 <= i < |r| ==> r[i] != x
    ensures forall y :: y != x ==> multiset(r)[y] == multiset(ids)[y]
  {
    Seqs.FilterMembers(ids, (y: int) => y != x);
    Seqs.FilterCount(ids, (y: int) => y != x);
    Seqs.Filter(ids, (y: int) => y != x)
  }

  /** Removing an id keeps the others in their order: it works part by part. */
  lemma WithoutAppend(a: seq<int>, b: seq<int>, x: int)
    ensures Without(a + b, x) == Without(a, x) + Without(b, x)
  {
    Seqs.FilterAppend(a, b, (y: int) => y != x);
  }

  /** `likedPostIds` after a click on the like button of `postId`: the id
      leaves the list when it is there and is appended otherwise. */
  function ToggledIds(ids: seq<int>, postId: int): (r: seq<int>)
    ensures postId in r <==> postId !in ids
    ensures forall x :: x != postId ==> (x in r <==> x in ids)
    ensures forall x :: x != postId ==> multiset(r)[x] == multiset(ids)[x]
    ensures postId !in ids ==> r == ids + [postId]
  {
    var r := if postId in ids then Without(ids, postId) else ids + [postId];
    Seqs.FilterMembers(ids, (y: int) => y != postId);
    r
  }

  /** `items` after the click: only the item with that id changes, and only
      its like count, by one down when it was liked and one up otherwise,
      never below zero. */
  function WithLikes(items: seq<DailyItem>, postId: int, wasLiked: bool): (r: seq<DailyItem>)
    ensures |r| == |items|
    ensures forall i :: 0 <= i < |items| && items[i].id != postId ==> r[i] == items[i]
    ensures forall i :: 0 <= i < |items| && items[i].id == postId ==>
              && r[i].(likesCount := items[i].likesCount) == items[i]
              && r[i].likesCount >= 0
              && (wasLiked && items[i].likesCount > 0 ==> r[i].likesCount == items[i].likesCount - 1)
              && (!wasLiked && items[i].likesCount >= 0 ==> r[i].likesCount == items[i].likesCount + 1)
              && (wasLiked && items[i].likesCount <= 0 ==> r[i].likesCount == 0)
              && (!wasLiked && items[i].likesCount < -1 ==> r[i].likesCount == 0)
              && (!wasLiked && items[i].likesCount == -1 ==> r[i].likesCount == 0)
  {
    seq(|items|, i requires 0 <= i < |items| =>
      var it := items[i];
      if it.id != postId then it
      else
        var next := it.likesCount + (if wasLiked then -1 else 1);
        it.(likesCount := if next < 0 then 0 else next))
  }

  /** `items` after a comment on `postId` was stored: that item's comment
      count goes up by one, nothing else changes. */
  function WithComment(items: seq<DailyItem>, postId: int): (r: seq<DailyItem>)
    ensures |r| == |items|
    ensures forall i :: 0 <= i < |items| ==>
              r[i].(commentsCount := items[i].commentsCount) == items[i]
              && r[i].commentsCount == items[i].commentsCount + (if items[i].id == postId then 1 else 0)
  {
    seq(|items|, i requires 0 <= i < |items| =>
      var it := items[i];
      if it.id != postId then it else it.(commentsCount := it.commentsCount + 1))
  }

  /** Clicking like twice on a post restores the liked-id list (exactly, when
      the post started unliked; as a set of ids otherwise), and restores the
      item when its count could move both ways without hitting zero. */
  lemma {:induction false} ToggleLikeTwice(ids: seq<int>, items: seq<DailyItem>, postId: int)
    ensures var once := ToggledIds(ids, postId);
            && (forall x :: x in ToggledIds(once, postId) <==> x in ids)
            && (postId !in ids ==> ToggledIds(once, postId) == ids)
    ensures (forall i :: 0 <= i < |items| && items[i].id == postId ==>
               if postId in ids then items[i].likesCount >= 1 else items[i].likesCount >= 0) ==>
            WithLikes(WithLikes(items, postId, postId in ids), postId, postId !in ids) == items
  {
    var once := ToggledIds(ids, postId);
    if postId !in ids {
      assert once == ids + [postId];
      Seqs.FilterMembers(once, (y: int) => y != postId);
      var back := Without(once, postId);
      Seqs.FilterAppend(ids, [postId], (y: int) => y != postId);
      Seqs.FilterAll(ids, (y: int) => y != postId);
      assert Seqs.Filter([postId], (y: int) => y != postId) == [] by {
        Seqs.FilterNone([postId], (y: int) => y != postId);
      }
    }
    var w1 := WithLikes(items, postId, postId in ids);
    var w2 := WithLikes(w1, postId, postId !in ids);
    if forall i :: 0 <= i < |items| && items[i].id == postId ==>
         if postId in ids then items[i].likesCount >= 1 else items[i].likesCount >= 0 {
      forall i | 0 <= i < |items| ensures w2[i] == items[i] {
        if items[i].id == postId {
          assert w1[i].id == postId;
        }
      }
    }
  }

  /** The body the page sends to `POST /api/comments`. */
  function CommentBody(postId: int, content: string): Value {
    Obj(map["slug" := Str("daily:" + IntToString(postId)), "name" := Str(AnonymousName), "content" := Str(content)])
  }

  lemma DailySlugPlain(postId: int)
    ensures NoSpace("daily:" + IntToString(postId))
    ensures forall i :: 0 <= i < |"daily:" + IntToString(postId)| ==> ("daily:" + IntToString(postId))[i] != '%'
  {
    var d := NatToString(if postId < 0 then -postId else postId);
    var t := IntToString(postId);
    assert forall i :: 0 <= i < |d| ==> IsDigit(d[i]);
    assert forall i :: 0 <= i < |t| ==> IsDigit(t[i]) || t[i] == '-';
  }

  /** Every comment the page sends passes the comments route's validation
      and is stored under the slug `daily:<id>`, by the anonymous author, with
      the draft's trimmed text. */
  lemma PageCommentAccepted(postId: int, draft: string)
    requires Trim(draft) != ""
    ensures Comments.Validate(CommentBody(postId, Trim(draft)))
            == Comments.Accepted(Comments.CommentInput("daily:" + IntToString(postId), AnonymousName, Trim(draft)))
  {
    var content := Trim(draft);
    var body := CommentBody(postId, content);
    assert Field(body, "slug") == Str("daily:" + IntToString(postId));
    assert Field(body, "name") == Str(AnonymousName);
    assert Field(body, "content") == Str(content);
    DailySlugStored(postId);
    AnonymousStored();
    TrimIdempotent(draft);
    ValidateAccepts(body, "daily:" + IntToString(postId), AnonymousName, content);
  }

  /** The page's slug is already in the form the comments route stores. */
  lemma DailySlugStored(postId: int)
    ensures var slug := "daily:" + IntToString(postId);
            Uri.Decode(slug) == Some(slug) && Trim(slug) == slug && slug != ""
  {
    var slug := "daily:" + IntToString(postId);
    DailySlugPlain(postId);
    Uri.DecodeWithoutEscapes(slug);
    TrimNoSpace(slug);
  }

  /** The anonymous author name is already in stored form. */
  lemma AnonymousStored()
    ensures Take(Trim(AnonymousName), Comments.NameWidth) == AnonymousName
  {
    assert NoSpace(AnonymousName);
    TrimNoSpace(AnonymousName);
  }

  /** A body whose fields are already in their stored form is accepted as
      it is. */
  lemma ValidateAccepts(body: Value, slug: string, name: string, content: string)
    requires Field(body, "slug") == Str(slug) && Field(body, "name") == Str(name) && Field(body, "content") == Str(content)
    requires Uri.Decode(slug) == Some(slug) && Trim(slug) == slug && slug != ""
    requires Take(Trim(name), Comments.NameWidth) == name && name != ""
    requires Trim(content) == content && content != ""
    ensures Comments.Validate(body) == Comments.Accepted(Comments.CommentInput(slug, name, content))
  {
  }

  /** The form the publish dialog sends, as the daily-posts route reads it:
      its text, the mode's media type, and the picked file, if any. */
  function PublishForm(text: string, mode: PostMode, file: Option<MediaFile>): (form: map<string, DailyPosts.FormValue>)
    ensures DailyPosts.FormString(form, "text", "") == text
    ensures DailyPosts.HasFile(form) <==> file.Some?
    ensures file.Some? ==> form["file"] == DailyPosts.FormFile(file.value.mimeType, file.value.bytes)
    ensures DailyPosts.ModeMedia(DailyPosts.FormString(form, "mode", "text"))
            == match mode
               case TextMode => DailyPosts.NoMedia
               case ImageMode => DailyPosts.Image
               case VideoMode => DailyPosts.Video
  {
    var base := map["text" := DailyPosts.FormText(text), "mode" := DailyPosts.FormText(ModeName(mode))];
    if file.Some? then base["file" := DailyPosts.FormFile(file.value.mimeType, file.value.bytes)] else base
  }

  /** The `message` of an error body, or the page's fallback text. */
  function MessageOr(data: Value, fallback: string): string {
    StringOr(Field(data, "message"), fallback)
  }

  /** Every piece of the page's state, as one value, so that each handler
      can say which fields it sets and that the rest stay as they were. */
  datatype PageState = PageState(
    isPostModalOpen: bool,
    postMode: PostMode,
    postText: string,
    mediaFile: Option<MediaFile>,
    mediaPreviewUrl: string,
    isPosting: bool,
    postError: string,
    items: seq<DailyItem>,
    isLoading: bool,
    likedPostIds: seq<int>,
    commentBoxForId: Option<int>,
    commentDraft: string,
    isCommentPosting: bool,
    commentError: string)

  /** The publish dialog closed with every field of it reset. */
  function DialogReset(st: PageState): (r: PageState)
    ensures !r.isPostModalOpen && r.postMode == TextMode && r.postText == "" && r.mediaFile.None?
    ensures r.mediaPreviewUrl == "" && !r.isPosting && r.postError == ""
    ensures r.items == st.items && r.isLoading == st.isLoading && r.likedPostIds == st.likedPostIds
    ensures r.commentBoxForId == st.commentBoxForId && r.commentDraft == st.commentDraft
    ensures r.isCommentPosting == st.isCommentPosting && r.commentError == st.commentError
  {
    st.(isPostModalOpen := false, postMode := TextMode, postText := "", mediaFile := None,
        mediaPreviewUrl := "", isPosting := false, postError := "")
  }

  class Page {
    var isPostModalOpen: bool
    var postMode: PostMode
    var postText: string
    var mediaFile: Option<MediaFile>
    var mediaPreviewUrl: string
    var isPosting: bool
    var postError: string
    var items: seq<DailyItem>
    var isLoading: bool
    var likedPostIds: seq<int>
    var commentBoxForId: Option<int>
    var commentDraft: string
    var isCommentPosting: bool
    var commentError: string

    /** Every listed post went through normalisation. */
    ghost predicate Valid()
      reads this
    {
      forall i :: 0 <= i < |items| ==> items[i].id > 0
    }

    function State(): PageState
      reads this
    {
      PageState(isPostModalOpen, postMode, postText, mediaFile, mediaPreviewUrl, isPosting, postError,
                items, isLoading, likedPostIds, commentBoxForId, commentDraft, isCommentPosting, commentError)
    }

    /** The initial state of the page. */
    constructor ()
      ensures Valid()
      ensures State() == PageState(false, TextMode, "", None, "", false, "", [], true, [], None, "", false, "")
    {
      isPostModalOpen := false;
      postMode := TextMode;
      postText := "";
      mediaFile := None;
      mediaPreviewUrl := "";
      isPosting := false;
      postError := "";
      items := [];
      isLoading := true;
      likedPostIds := [];
      commentBoxForId := None;
      commentDraft := "";
      isCommentPosting := false;
      commentError := "";
    }

    /** The first load of the list: an OK reply replaces the items with the
        valid ones it holds; in every case loading ends. */
    method LoadItems(reply: Reply, now: string)
      requires Valid()
      modifies this
      ensures Valid()
      ensures State() == old(State()).(
                items := if reply.Answered? && reply.ok then ItemsOf(reply.body, now) else old(items),
                isLoading := false)
    {
      if reply.Answered? && reply.ok {
        LoadedIdsPositive(reply.body, now);
        items := ItemsOf(reply.body, now);
      }
      isLoading := false;
    }

    /** The liked ids restored from local storage (`parsed` is the parsed
        stored value; `None` when it does not parse). */
    method LoadLikedIds(parsed: Option<Value>)
      modifies this
      ensures State() == old(State()).(likedPostIds := LikedIdsFrom(parsed).GetOr(old(likedPostIds)))
    {
      var ids := LikedIdsFrom(parsed);
      if ids.Some? {
        likedPostIds := ids.value;
      }
    }

    /** `closePostModal`: the dialog closes and every field of it is reset. */
    method ClosePostModal()
      modifies this
      ensures State() == DialogReset(old(State()))
    {
      isPostModalOpen := false;
      postMode := TextMode;
      postText := "";
      mediaFile := None;
      mediaPreviewUrl := "";
      isPosting := false;
      postError := "";
    }

    /** `switchPostMode`: a new mode drops the picked file and its preview. */
    method SwitchPostMode(mode: PostMode)
      modifies this
      ensures State() == old(State()).(postMode := mode, mediaFile := None, mediaPreviewUrl := "")
    {
      postMode := mode;
      mediaFile := None;
      mediaPreviewUrl := "";
    }

    /** `toggleLike`: flips the post's membership in the liked ids and moves
        its like count accordingly. */
    method ToggleLike(postId: int)
      requires Valid()
      modifies this
      ensures Valid()
      ensures State() == old(State()).(
                likedPostIds := ToggledIds(old(likedPostIds), postId),
                items := WithLikes(old(items), postId, postId in old(likedPostIds)))
    {
      var isLiked := postId in likedPostIds;
      likedPostIds := ToggledIds(likedPostIds, postId);
      items := WithLikes(items, postId, isLiked);
    }

    /** `submitComment`. A blank draft sends nothing and changes nothing.
        Otherwise `sent` is the body sent; an OK reply adds one to that post's
        comment count, clears the draft and closes the comment box; a failed
        reply leaves the counts alone and shows the error message. */
    method SubmitComment(postId: int, reply: Reply) returns (sent: Option<Value>)
      requires Valid()
      modifies this
      ensures Valid()
      ensures IsBlank(old(commentDraft)) ==> sent.None? && State() == old(State())
      ensures !IsBlank(old(commentDraft)) ==>
                && sent == Some(CommentBody(postId, Trim(old(commentDraft))))
                && (reply.Answered? && reply.ok ==>
                      State() == old(State()).(items := WithComment(old(items), postId), commentDraft := "",
                                               commentBoxForId := None, commentError := "", isCommentPosting := false))
                && (reply.Answered? && !reply.ok ==>
                      State() == old(State()).(commentError := MessageOr(reply.body, CommentFailed), isCommentPosting := false))
                && (reply.NetworkError? ==>
                      State() == old(State()).(commentError := "", isCommentPosting := false))
    {
      var content := Trim(commentDraft);
      if content == "" {
        return None;
      }
      isCommentPosting := true;
      commentError := "";
      sent := Some(CommentBody(postId, content));
      match reply
      case NetworkError =>
        isCommentPosting := false;
      case Answered(ok, data) =>
        if !ok {
          commentError := MessageOr(data, CommentFailed);
        } else {
          items := WithComment(items, postId);
          commentDraft := "";
          commentBoxForId := None;
        }
        isCommentPosting := false;
    }

    /** `handlePublish`. `sent` is the form sent. An OK reply whose `item`
        normalises puts that post first; an OK reply closes the dialog in any
        case; a failed reply keeps it open and shows the error message. */
    method HandlePublish(reply: Reply, now: string) returns (sent: map<string, DailyPosts.FormValue>)
      requires Valid()
      modifies this
      ensures Valid()
      ensures sent == PublishForm(old(postText), old(postMode), old(mediaFile))
      ensures reply.Answered? && reply.ok ==>
                var next := if Truthy(Field(reply.body, "item")) then NormalizeItem(Field(reply.body, "item"), now) else None;
                State() == DialogReset(old(State())).(items := if next.Some? then [next.value] + old(items) else old(items))
      ensures reply.Answered? && !reply.ok ==>
                State() == old(State()).(postError := MessageOr(reply.body, PublishFailed), isPosting := false)
      ensures reply.NetworkError? ==>
                State() == old(State()).(postError := "", isPosting := false)
    {
      isPosting := true;
      postError := "";
      sent := PublishForm(postText, postMode, mediaFile);
      match reply
      case NetworkError =>
        isPosting := false;
      case Answered(ok, data) =>
        if !ok {
          postError := MessageOr(data, PublishFailed);
          isPosting := false;
          return;
        }
        if Truthy(Field(data, "item")) {
          var next := NormalizeItem(Field(data, "item"), now);
          if next.None? {
            ClosePostModal();
            return;
          }
          items := [next.value] + items;
        }
        ClosePostModal();
    }
  }
}
