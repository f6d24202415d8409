/** The likes table and the `/api/likes` route: a keyed table of
    (post_slug, client_id) rows, listed per post and toggled per user. */
module Likes {
  import opened Wrappers
  import opened Text
  import Js
  import Uri
  import Seqs

  /** A row of `likes`; `avatarUrl` is the nullable `avatar_url` column. */
  datatype LikeRow = LikeRow(id: nat, postSlug: string, clientId: string, author: string, avatarUrl: Option<string>)

  /** The GitHub user that `requireGithubUser` resolves the request to. */
  datatype GithubUser = GithubUser(login: string, name: Option<string>, avatarUrl: string)

  /** What `requireGithubUser` gives back: the user, or the error response it built. */
  datatype Auth = Authenticated(user: GithubUser) | Refused(status: int, message: string)

  /** The body of a GET: the rows, or the exception `decodeURIComponent` throws. */
  datatype ListResponse = Items(items: seq<LikeRow>) | UriError

  /** The outcome of a POST. */
  datatype ToggleResponse =
    | Toggled(liked: bool, count: nat)
    | InvalidPayload
    | Unauthorized(status: int, message: string)
    | UriError

  /** The values the POST derives from its body and the authenticated user. */
  datatype LikeInput = LikeInput(slug: string, clientId: string, author: string, avatarUrl: string, action: string)

  /** What a POST does to the table. */
  datatype Change = Insert | Delete | Keep

  function Id(row: LikeRow): int {
    row.id
  }

  const ClientIdWidth := 128
  const AuthorWidth := 64
  const AvatarWidth := 512

  /** The stored author: the trimmed display name, or the login when the
      name is missing or blank, cut to the column width. */
  function AuthorOf(user: GithubUser): (a: string)
    ensures |a| <= AuthorWidth
    ensures user.name.None? || IsBlank(user.name.value) ==> a == Take(user.login, AuthorWidth)
    ensures user.name.Some? && !IsBlank(user.name.value) ==> a == Take(Trim(user.name.value), AuthorWidth)
  {
    var name := Trim(user.name.GetOr(""));
    Take(if name != "" then name else user.login, AuthorWidth)
  }

  /** Reads slug and action from the body and the stored fields from the user.
      `None` stands for `decodeURIComponent` throwing on the slug. */
  function ReadInput(body: Js.Value, user: GithubUser): (r: Option<LikeInput>)
    ensures r.None? <==> Uri.Decode(Js.StringOr(Js.Field(body, "slug"), "")).None?
    ensures r.Some? ==> r.value.slug == Trim(Uri.Decode(Js.StringOr(Js.Field(body, "slug"), "")).value)
    ensures r.Some? ==> r.value.clientId == Take(Trim(user.login), ClientIdWidth) && |r.value.clientId| <= ClientIdWidth
    ensures r.Some? ==> |r.value.author| <= AuthorWidth
    ensures r.Some? && (user.name.None? || IsBlank(user.name.value)) ==> r.value.author == Take(user.login, AuthorWidth)
    ensures r.Some? && user.name.Some? && !IsBlank(user.name.value) ==> r.value.author == Take(Trim(user.name.value), AuthorWidth)
    ensures r.Some? ==> r.value.avatarUrl == Take(Trim(user.avatarUrl), AvatarWidth) && |r.value.avatarUrl| <= AvatarWidth
    ensures r.Some? ==> r.value.action == ToLower(Trim(Js.StringOr(Js.Field(body, "action"), "")))
  {
    var slugRaw := Js.StringOr(Js.Field(body, "slug"), "");
    var actionRaw := Js.StringOr(Js.Field(body, "action"), "");
    match Uri.Decode(slugRaw)
    case None => None
    case Some(decoded) =>
      Some(LikeInput(
        Trim(decoded),
        Take(Trim(user.login), ClientIdWidth),
        AuthorOf(user),
        Take(Trim(user.avatarUrl), AvatarWidth),
        ToLower(Trim(actionRaw))))
  }

  /** The change a POST makes, from the requested action and whether the user's
      row present: an empty action toggles, "like" only inserts, "unlike" only
      deletes, and any other action changes nothing. */
  function Decide(action: string, present: bool): (c: Change)
    ensures c == Insert ==> !present
    ensures c == Delete ==> present
    ensures action == "" ==> c == (if present then Delete else Insert)
    ensures action == "like" ==> c == (if present then Keep else Insert)
    ensures action == "unlike" ==> c == (if present then Delete else Keep)
    ensures action != "" && action != "like" && action != "unlike" ==> c == Keep
  {
    if (action == "unlike" && present) || (action == "like" && !present) || action == "" then
      if present then Delete else Insert
    else Keep
  }

  predicate IsKey(row: LikeRow, slug: string, clientId: string) {
    row.postSlug == slug && row.clientId == clientId
  }

  /** A row present for the pair. */
  predicate HasLike(rows: seq<LikeRow>, slug: string, clientId: string) {
    exists i | 0 <= i < |rows| :: IsKey(rows[i], slug, clientId)
  }

  function FindFrom(rows: seq<LikeRow>, slug: string, clientId: string, i: nat): (r: Option<nat>)
    requires i <= |rows|
    ensures r.Some? ==> i <= r.value < |rows| && IsKey(rows[r.value], slug, clientId)
    ensures r.None? ==> forall j :: i <= j < |rows| ==> !IsKey(rows[j], slug, clientId)
    decreases |rows| - i
  {
    if i == |rows| then None
    else if IsKey(rows[i], slug, clientId) then Some(i)
    else FindFrom(rows, slug, clientId, i + 1)
  }

  /** `SELECT id FROM likes WHERE post_slug = ? AND client_id = ? LIMIT 1`: the
      position of the pair's row. */
  function FindLike(rows: seq<LikeRow>, slug: string, clientId: string): (r: Option<nat>)
    ensures r.Some? <==> HasLike(rows, slug, clientId)
    ensures r.Some? ==> r.value < |rows| && IsKey(rows[r.value], slug, clientId)
  {
    FindFrom(rows, slug, clientId, 0)
  }

  function OfSlug(slug: string): LikeRow -> bool {
    (row: LikeRow) => row.postSlug == slug
  }

  function OtherId(id: nat): LikeRow -> bool {
    (row: LikeRow) => row.id != id
  }

  /** `SELECT COUNT(*) FROM likes WHERE post_slug = ?`. */
  function CountFor(rows: seq<LikeRow>, slug: string): nat {
    |Seqs.Filter(rows, OfSlug(slug))|
  }

  /** `DELETE FROM likes WHERE id = ? LIMIT 1`. */
  function DeleteById(rows: seq<LikeRow>, id: nat): seq<LikeRow> {
    Seqs.Filter(rows, OtherId(id))
  }

  /** The row the INSERT adds; an empty avatar is stored as NULL. */
  function NewRow(id: nat, input: LikeInput): LikeRow {
    LikeRow(id, input.slug, input.clientId, input.author,
            if input.avatarUrl == "" then None else Some(input.avatarUrl))
  }

  /** The table after a POST with a non-empty slug. */
  function Apply(rows: seq<LikeRow>, nextId: nat, input: LikeInput): seq<LikeRow> {
    var found := FindLike(rows, input.slug, input.clientId);
    match Decide(input.action, found.Some?)
    case Delete => DeleteById(rows, rows[found.value].id)
    case Insert => rows + [NewRow(nextId, input)]
    case Keep => rows
  }

  /** At most one row per (post_slug, client_id): the `uq_like` key. */
  ghost predicate UniqueKeys(rows: seq<LikeRow>) {
    forall i, j :: 0 <= i < j < |rows| ==> !IsKey(rows[j], rows[i].postSlug, rows[i].clientId)
  }

  /** The stored fields respect their column widths and defaults. */
  ghost predicate WellFormedRow(row: LikeRow) {
    && row.postSlug != ""
    && |row.clientId| <= ClientIdWidth
    && |row.author| <= AuthorWidth
    && (row.avatarUrl.Some? ==> row.avatarUrl.value != "" && |row.avatarUrl.value| <= AvatarWidth)
  }

  /** The table's invariant: unique keys, well-formed rows, and AUTO_INCREMENT
      ids that grow in insertion order and stay below the next id. */
  ghost predicate TableInvariant(rows: seq<LikeRow>, nextId: nat) {
    && UniqueKeys(rows)
    && Seqs.IncreasingBy(rows, Id)
    && (forall i :: 0 <= i < |rows| ==> rows[i].id < nextId && WellFormedRow(rows[i]))
  }

  // ---------------------------------------------------------------------------
  // Properties of a POST.

  /** Rows that all carry other ids survive the delete. */
  lemma KeepOthers(rows: seq<LikeRow>, id: nat)
    requires forall j :: 0 <= j < |rows| ==> rows[j].id != id
    ensures DeleteById(rows, id) == rows
  {
    Seqs.FilterAll(rows, OtherId(id));
  }

  /** Deleting by id removes exactly the row with that id. */
  lemma {:induction false} DeleteRemovesRow(rows: seq<LikeRow>, i: nat)
    requires i < |rows| && Seqs.IncreasingBy(rows, Id)
    ensures DeleteById(rows, rows[i].id) == rows[..i] + rows[i + 1..]
  {
    var id := rows[i].id;
    var p := OtherId(id);
    var front, back := rows[..i], rows[i + 1..];
    assert DeleteById(front, id) == front by {
      forall j | 0 <= j < |front| ensures front[j].id != id {
        assert front[j] == rows[j] && Id(rows[j]) < Id(rows[i]);
      }
      KeepOthers(front, id);
    }
    assert DeleteById(back, id) == back by {
      forall j | 0 <= j < |back| ensures back[j].id != id {
        assert back[j] == rows[i + 1 + j] && Id(rows[i]) < Id(rows[i + 1 + j]);
      }
      KeepOthers(back, id);
    }
    assert DeleteById([rows[i]], id) == [] by {
      Seqs.FilterNone([rows[i]], p);
    }
    assert rows == front + ([rows[i]] + back);
    DeleteSplit(front, rows[i], back, id);
  }

  lemma DeleteSplit(front: seq<LikeRow>, x: LikeRow, back: seq<LikeRow>, id: nat)
    requires DeleteById(front, id) == front && DeleteById(back, id) == back && DeleteById([x], id) == []
    ensures DeleteById(front + ([x] + back), id) == front + back
  {
    Seqs.FilterAppend(front, [x] + back, OtherId(id));
    Seqs.FilterAppend([x], back, OtherId(id));
  }

  /** Removing one row keeps the invariant. */
  lemma RemoveKeepsInvariant(rows: seq<LikeRow>, nextId: nat, i: nat)
    requires TableInvariant(rows, nextId) && i < |rows|
    ensures TableInvariant(rows[..i] + rows[i + 1..], nextId)
  {
    var r := rows[..i] + rows[i + 1..];
    forall a, b | 0 <= a < b < |r| ensures Id(r[a]) < Id(r[b]) && !IsKey(r[b], r[a].postSlug, r[a].clientId) {
      var a' := if a < i then a else a + 1;
      var b' := if b < i then b else b + 1;
      assert r[a] == rows[a'] && r[b] == rows[b'];
    }
    forall a | 0 <= a < |r| ensures r[a].id < nextId && WellFormedRow(r[a]) {
      var a' := if a < i then a else a + 1;
      assert r[a] == rows[a'];
    }
  }

  /** Appending the row of a pair that has none keeps the invariant. */
  lemma InsertKeepsInvariant(rows: seq<LikeRow>, nextId: nat, input: LikeInput)
    requires TableInvariant(rows, nextId) && !HasLike(rows, input.slug, input.clientId)
    requires input.slug != "" && |input.clientId| <= ClientIdWidth && |input.author| <= AuthorWidth
    requires |input.avatarUrl| <= AvatarWidth
    ensures TableInvariant(rows + [NewRow(nextId, input)], nextId + 1)
  {
    var r := rows + [NewRow(nextId, input)];
    forall a, b | 0 <= a < b < |r| ensures Id(r[a]) < Id(r[b]) && !IsKey(r[b], r[a].postSlug, r[a].clientId) {
      assert r[a] == rows[a];
      if b < |rows| { assert r[b] == rows[b]; }
    }
  }

  /** A POST with a non-empty slug keeps the table's invariant. */
  lemma ApplyKeepsInvariant(rows: seq<LikeRow>, nextId: nat, input: LikeInput)
    requires TableInvariant(rows, nextId)
    requires input.slug != "" && |input.clientId| <= ClientIdWidth && |input.author| <= AuthorWidth
    requires |input.avatarUrl| <= AvatarWidth
    ensures TableInvariant(Apply(rows, nextId, input), if Decide(input.action, HasLike(rows, input.slug, input.clientId)) == Insert then nextId + 1 else nextId)
  {
    var found := FindLike(rows, input.slug, input.clientId);
    match Decide(input.action, found.Some?)
    case Delete =>
      DeleteRemovesRow(rows, found.value);
      RemoveKeepsInvariant(rows, nextId, found.value);
    case Insert =>
      InsertKeepsInvariant(rows, nextId, input);
    case Keep =>
  }

  /** The rows of a sequence that match a pair, before and after removing position i. */
  lemma {:induction false} RemovedKey(rows: seq<LikeRow>, i: nat, slug: string, clientId: string)
    requires UniqueKeys(rows) && i < |rows| && IsKey(rows[i], slug, clientId)
    ensures !HasLike(rows[..i] + rows[i + 1..], slug, clientId)
  {
    var r := rows[..i] + rows[i + 1..];
    forall a | 0 <= a < |r| ensures !IsKey(r[a], slug, clientId) {
      if a < i { assert r[a] == rows[a]; } else { assert r[a] == rows[a + 1]; }
    }
  }

  /** After a POST the pair is liked exactly when the change inserted its row,
      or kept a row that was already there. */
  lemma LikedAfterApply(rows: seq<LikeRow>, nextId: nat, input: LikeInput)
    requires TableInvariant(rows, nextId)
    ensures var before := HasLike(rows, input.slug, input.clientId);
            HasLike(Apply(rows, nextId, input), input.slug, input.clientId)
            == match Decide(input.action, before) case Insert => true case Delete => false case Keep => before
  {
    var found := FindLike(rows, input.slug, input.clientId);
    match Decide(input.action, found.Some?)
    case Delete =>
      DeleteRemovesRow(rows, found.value);
      RemovedKey(rows, found.value, input.slug, input.clientId);
    case Insert =>
      var after := Apply(rows, nextId, input);
      assert IsKey(after[|rows|], input.slug, input.clientId);
    case Keep =>
  }

  /** The outcome the handler reports, by action: "like" leaves the user liking
      the post, "unlike" leaves them not liking it, the empty action flips the
      state, and any other action leaves it as it was. */
  lemma LikedByAction(rows: seq<LikeRow>, nextId: nat, input: LikeInput)
    requires TableInvariant(rows, nextId)
    ensures var before := HasLike(rows, input.slug, input.clientId);
            var after := HasLike(Apply(rows, nextId, input), input.slug, input.clientId);
            && (input.action == "like" ==> after)
            && (input.action == "unlike" ==> !after)
            && (input.action == "" ==> after == !before)
            && (input.action != "" && input.action != "like" && input.action != "unlike" ==> after == before)
  {
    LikedAfterApply(rows, nextId, input);
  }

  /** Rows of every other (post_slug, client_id) pair are left as they were. */
  lemma ApplyFrame(rows: seq<LikeRow>, nextId: nat, input: LikeInput, row: LikeRow)
    requires TableInvariant(rows, nextId)
    requires !IsKey(row, input.slug, input.clientId)
    ensures row in rows <==> row in Apply(rows, nextId, input)
  {
    var found := FindLike(rows, input.slug, input.clientId);
    match Decide(input.action, found.Some?)
    case Delete =>
      var i := found.value;
      DeleteRemovesRow(rows, i);
      assert rows == rows[..i] + [rows[i]] + rows[i + 1..];
    case Insert =>
    case Keep =>
  }

  lemma {:induction false} CountOfRemoved(rows: seq<LikeRow>, i: nat, slug: string)
    requires i < |rows|
    ensures CountFor(rows[..i] + rows[i + 1..], slug) + (if rows[i].postSlug == slug then 1 else 0) == CountFor(rows, slug)
  {
    var p := OfSlug(slug);
    assert rows == rows[..i] + ([rows[i]] + rows[i + 1..]);
    Seqs.FilterAppend(rows[..i], [rows[i]] + rows[i + 1..], p);
    Seqs.FilterAppend([rows[i]], rows[i + 1..], p);
    Seqs.FilterAppend(rows[..i], rows[i + 1..], p);
    assert Seqs.Filter([rows[i]], p) == Seqs.Filter([], p) + (if p(rows[i]) then [rows[i]] else []) by {
      assert [rows[i]][..0] == [];
    }
  }

  /** `count` moves by one on an insert or a delete of the user's row, and the
      count of every other post is unchanged. */
  lemma CountAfterApply(rows: seq<LikeRow>, nextId: nat, input: LikeInput, slug: string)
    requires TableInvariant(rows, nextId)
    ensures var c := Decide(input.action, HasLike(rows, input.slug, input.clientId));
            var d := if slug != input.slug then 0 else match c case Insert => 1 case Delete => -1 case Keep => 0;
            CountFor(Apply(rows, nextId, input), slug) == CountFor(rows, slug) + d
  {
    var found := FindLike(rows, input.slug, input.clientId);
    var p := OfSlug(slug);
    match Decide(input.action, found.Some?)
    case Delete =>
      DeleteRemovesRow(rows, found.value);
      CountOfRemoved(rows, found.value, slug);
    case Insert =>
      Seqs.FilterAppend(rows, [NewRow(nextId, input)], p);
      assert Seqs.Filter([NewRow(nextId, input)], p) == Seqs.Filter([], p) + (if p(NewRow(nextId, input)) then [NewRow(nextId, input)] else []) by {
        assert [NewRow(nextId, input)][..0] == [];
      }
    case Keep =>
  }

  /** Toggling twice (empty action) from "not liked" restores the table
      exactly; from "liked" it restores the liked state and every count, the
      row coming back with a fresh id. The second click sees the id counter
      as the first left it: one higher after an insert, unchanged after a
      delete. */
  lemma ToggleTwice(rows: seq<LikeRow>, nextId: nat, input: LikeInput, slug: string)
    requires TableInvariant(rows, nextId) && input.action == ""
    requires input.slug != "" && |input.clientId| <= ClientIdWidth && |input.author| <= AuthorWidth
    requires |input.avatarUrl| <= AvatarWidth
    ensures var once := Apply(rows, nextId, input);
            var twice := Apply(once, if HasLike(rows, input.slug, input.clientId) then nextId else nextId + 1, input);
            && (!HasLike(rows, input.slug, input.clientId) ==> twice == rows)
            && HasLike(twice, input.slug, input.clientId) == HasLike(rows, input.slug, input.clientId)
            && CountFor(twice, slug) == CountFor(rows, slug)
  {
    var before := HasLike(rows, input.slug, input.clientId);
    var once := Apply(rows, nextId, input);
    var next := if before then nextId else nextId + 1;
    ApplyKeepsInvariant(rows, nextId, input);
    LikedAfterApply(rows, nextId, input);
    LikedAfterApply(once, next, input);
    CountAfterApply(rows, nextId, input, slug);
    CountAfterApply(once, next, input, slug);
    if !before {
      var i := |rows|;
      assert once == rows + [NewRow(nextId, input)];
      var found := FindLike(once, input.slug, input.clientId);
      assert forall j :: 0 <= j < i ==> once[j] == rows[j] && !IsKey(once[j], input.slug, input.clientId);
      assert found == Some(i);
      DeleteRemovesRow(once, i);
      assert once[..i] == rows;
    }
  }

  class LikesTable {
    var rows: seq<LikeRow>
    var nextId: nat

    ghost predicate Valid()
      reads this
    {
      TableInvariant(rows, nextId)
    }

    constructor ()
      ensures Valid() && rows == [] && nextId == 1
    {
      rows := [];
      nextId := 1;
    }

    /** `GET /api/likes?slug=...`: the post's likes, newest first; nothing for a
        blank slug. */
    method Get(slugParam: Option<string>) returns (r: ListResponse)
      requires Valid()
      ensures Uri.Decode(slugParam.GetOr("")).None? <==> r.UriError?
      ensures r.Items? ==> forall i :: 0 <= i < |r.items| ==> r.items[i] in rows
      ensures r.Items? ==> var slug := Trim(Uri.Decode(slugParam.GetOr("")).value);
              && (forall i :: 0 <= i < |r.items| ==> r.items[i].postSlug == slug)
              && (slug != "" ==> forall i :: 0 <= i < |rows| && rows[i].postSlug == slug ==> rows[i] in r.items)
              && (slug == "" ==> r.items == [])
      ensures r.Items? ==> Seqs.DecreasingBy(r.items, Id)
    {
      var decoded := Uri.Decode(slugParam.GetOr(""));
      if decoded.None? {
        return ListResponse.UriError;
      }
      var slug := Trim(decoded.value);
      if slug == "" {
        return Items([]);
      }
      Seqs.NewestFirstSpec(rows, OfSlug(slug), Id);
      r := Items(Seqs.NewestFirst(rows, OfSlug(slug)));
    }

    /** `POST /api/likes`: like, unlike or toggle the authenticated user's like
        of a post, then report whether they like it and how many likes it has. */
    method Post(auth: Auth, body: Js.Value) returns (r: ToggleResponse)
      requires Valid()
      modifies this
      ensures Valid()
      ensures auth.Refused? ==> r == Unauthorized(auth.status, auth.message) && rows == old(rows)
      ensures auth.Authenticated? && ReadInput(body, auth.user).None? ==> r == ToggleResponse.UriError && rows == old(rows)
      ensures auth.Authenticated? && ReadInput(body, auth.user).Some? ==>
              var input := ReadInput(body, auth.user).value;
              if input.slug == "" then r == InvalidPayload && rows == old(rows)
              else && rows == Apply(old(rows), old(nextId), input)
                   && r == Toggled(HasLike(rows, input.slug, input.clientId), CountFor(rows, input.slug))
      ensures rows == old(rows) ==> nextId == old(nextId)
      ensures rows != old(rows) ==> nextId == old(nextId) + (if |rows| > |old(rows)| then 1 else 0)
    {
      if auth.Refused? {
        return Unauthorized(auth.status, auth.message);
      }
      var read := ReadInput(body, auth.user);
      if read.None? {
        return ToggleResponse.UriError;
      }
      var input := read.value;
      if input.slug == "" {
        return InvalidPayload;
      }
      var found := FindLike(rows, input.slug, input.clientId);
      var present := found.Some?;
      ApplyKeepsInvariant(rows, nextId, input);
      var action := input.action;
      if (action == "unlike" && present) || (action == "like" && !present) || action == "" {
        if present {
          rows := DeleteById(rows, rows[found.value].id);
        } else {
          rows := rows + [NewRow(nextId, input)];
          nextId := nextId + 1;
        }
      }
      var count := CountFor(rows, input.slug);
      var liked := FindLike(rows, input.slug, input.clientId).Some?;
      r := Toggled(liked, count);
    }
  }
}
