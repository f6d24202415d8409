# Morrow-hole: a Dafny model of its request handlers and page state

Morrow-hole is a personal site built with Next.js. It has a blog, a "Daily"
feed of short posts with images or videos, likes and comments, a GitHub
sign-in, and a QQ Music playlist proxy. A separate portfolio front end lists
projects. This project models the logic of these parts in Dafny and proves
what they promise:

- the API route handlers: likes, comments, daily posts and their media, post
  pagination, the GitHub OAuth callback and `/me`, and the QQ Music playlist;
- the client state of the Daily page and of the login landing page;
- the text splitting of the `ScrollReveal` component;
- the project-list loading of the portfolio's Projects page.

Database tables become classes. Each holds its rows as a sequence in
insertion order (`rows`) and the next AUTO_INCREMENT id (`nextId`). Each has
a `Valid()` invariant that its methods keep. `ORDER BY created_at DESC` is
reverse insertion order. Every handler's outside world is a parameter:

- the GitHub user that `requireGithubUser` resolves;
- the replies of GitHub and QQ Music;
- the parsed request body (`Js.Value`, an untyped JavaScript value);
- the environment variables;
- the clock.

The JavaScript built-ins the handlers lean on are modelled in shared modules,
with their own proofs:

- `Text`: `trim`, `slice`, `toLowerCase`, `\s`, `\d`, `String(n)`;
- `Js`: `typeof`, truthiness, `Number(...)`, `Number.isFinite`;
- `Uri`: `encodeURIComponent` and `decodeURIComponent` over UTF-8, with the
  round trip `Decode(Encode(s)) == Some(s)` proved for every string;
- `Seqs`: SQL `WHERE`, newest-first order, and `map`-then-`filter`.

Files:

- `wrappers.dfy`: `Option`.
- `text.dfy`, `js.dfy`, `uri.dfy`, `seqs.dfy`: the shared modules above.
- `likes.dfy`, `comments.dfy`, `daily_posts.dfy`, `daily_media.dfy`,
  `posts.dfy`, `auth_me.dfy`, `auth_callback.dfy`, `qq_playlist.dfy`: one
  module per route.
- `daily_page.dfy`, `login_page.dfy`, `scroll_reveal.dfy`, `projects.dfy`:
  the client code.

## Model

| member | source | states |
|---|---|---|
| Text.Trim | morrow-hole/app/api/likes/route.ts:43 | `trim()` removes exactly the leading and trailing ECMAScript white space. The result is empty iff the input is blank, and otherwise starts and ends with a non-space. |
| Text.TrimIdempotent | morrow-hole/app/api/comments/route.ts:40-42 | Trimming an already trimmed string changes nothing. |
| Text.TrimNoSpace | morrow-hole/app/api/daily-posts/media/route.ts:19 | A string without white space is its own trim. |
| Text.Take | morrow-hole/app/api/comments/route.ts:41 | `slice(0, n)` is the prefix of length `min(n, len)`. |
| Text.ToLower | morrow-hole/app/api/likes/route.ts:47 | `toLowerCase()` keeps the length and lowers each character. |
| Text.NatToString | morrow-hole/app/Daily/page.tsx:192 | The decimal rendering of `n` is a run of digits whose value is `n`, with no leading zero. |
| Js.ParseNumber | morrow-hole/app/api/daily-posts/media/route.ts:19 | `Number(s)` on the trimmed string: 0 when blank, the digits' value for a run of digits with an optional `+` or `-` sign, +Infinity for `Infinity` or `+Infinity` and only then, -Infinity for `-Infinity` and only then. NaN exactly when none of these shapes matches. |
| Js.ParseRendered | morrow-hole/app/api/daily-posts/media/route.ts:18-19 | `Number(String(n))` gives back `n`. |
| Js.NumberOf | morrow-hole/app/Daily/page.tsx:40 | `typeof v === "number" ? v : Number(v)` keeps numbers and parses strings. |
| Uri.Encode | morrow-hole/app/api/auth/callback/route.ts:7 | `encodeURIComponent` output has only unreserved characters and `%`. |
| Uri.Escapes | morrow-hole/app/api/auth/callback/route.ts:44 | Percent escapes take three characters per byte, all of them unreserved or `%`. |
| Uri.DecodeEncode | morrow-hole/app/api/auth/callback/route.ts:44 | `decodeURIComponent(encodeURIComponent(s)) === s` for every string, over 1- to 4-byte UTF-8. |
| Uri.DecodeWithoutEscapes | morrow-hole/app/api/likes/route.ts:43 | A string without `%` decodes to itself. |
| Uri.DecodeEscapeOfEncoded | morrow-hole/app/api/auth/callback/route.ts:44 | The escapes of a character's UTF-8 bytes decode back to that character and consume exactly those escapes, for 1- to 4-byte forms. |
| Seqs.FilterMembers | morrow-hole/app/api/likes/route.ts:29 | `WHERE` keeps exactly the rows that satisfy the condition. |
| Seqs.FilterAppend | morrow-hole/app/api/likes/route.ts:74 | Filtering distributes over concatenation, so it keeps order. |
| Seqs.FilterCount | morrow-hole/app/Daily/page.tsx:172 | A filter keeps every occurrence of each element that satisfies the condition and none of the others. |
| Seqs.FilterMapMembers | morrow-hole/app/api/qqmusic/playlist/route.ts:52-81 | `map` then `filter(x => x !== null)` keeps exactly the present results. |
| Seqs.FilterMapAppend | morrow-hole/app/api/qqmusic/playlist/route.ts:52-81 | `map`/`filter` distributes over concatenation, so it keeps order. |
| Seqs.FindByKey | morrow-hole/app/api/daily-posts/media/route.ts:24-28 | `WHERE id = ? LIMIT 1` returns a row with that id, or reports that no row has it. |
| Seqs.FindByKeyUnique | morrow-hole/app/api/comments/route.ts:54-59 | With strictly increasing ids, looking a row up by its own id finds exactly that row. |
| Seqs.Reverse | morrow-hole/app/api/likes/route.ts:29 | Reversal reads the sequence from its end. |
| Seqs.NewestFirstSpec | morrow-hole/app/api/likes/route.ts:29 | `WHERE … ORDER BY created_at DESC` returns exactly the matching rows, with ids strictly decreasing. |
| Likes.ReadInput | morrow-hole/app/api/likes/route.ts:39-47 | The slug is the trimmed decoded body slug, and a failed decode is reported. The client id is the trimmed login cut to 128. The author is the trimmed name cut to 64, or the untrimmed login cut to 64 when the name is null or blank. The avatar is trimmed and cut to 512. The action is trimmed and lower-cased. |
| Likes.AuthorOf | morrow-hole/app/api/likes/route.ts:45 | The author is the trimmed display name cut to 64. When the name is null or blank it is the untrimmed login cut to 64. |
| Likes.Decide | morrow-hole/app/api/likes/route.ts:61-71 | An empty action toggles. "like" inserts only when no row exists. "unlike" deletes only when one does. Any other action does nothing. Insert happens only without a row, delete only with one. |
| Likes.FindLike | morrow-hole/app/api/likes/route.ts:55-59 | The lookup succeeds exactly when a row for (slug, client id) exists, and returns that row's position. |
| Likes.DeleteRemovesRow | morrow-hole/app/api/likes/route.ts:63-64 | Deleting by id removes exactly that row and keeps the others in order. |
| Likes.RemoveKeepsInvariant | morrow-hole/app/api/likes/route.ts:18 | Removing a row keeps unique keys, increasing ids and field bounds. |
| Likes.InsertKeepsInvariant | morrow-hole/app/api/likes/route.ts:18 | Inserting the row of a pair that has none keeps the `uq_like` uniqueness and the column bounds. |
| Likes.ApplyKeepsInvariant | morrow-hole/app/api/likes/route.ts:53-71 | A POST with a non-empty slug keeps the table invariant. |
| Likes.RemovedKey | morrow-hole/app/api/likes/route.ts:64 | Under unique keys, deleting the pair's row leaves no row for the pair. |
| Likes.LikedAfterApply | morrow-hole/app/api/likes/route.ts:61-82 | `liked` afterwards is true after an insert, false after a delete, and unchanged otherwise. |
| Likes.LikedByAction | morrow-hole/app/api/likes/route.ts:61-82 | "like" leaves the post liked, "unlike" leaves it unliked, "" flips the state, and other actions keep it. |
| Likes.ApplyFrame | morrow-hole/app/api/likes/route.ts:61-71 | Rows of every other (post_slug, client_id) pair are untouched. |
| Likes.CountOfRemoved | morrow-hole/app/api/likes/route.ts:73-77 | Removing one row lowers its slug's count by one and leaves other slugs' counts alone. |
| Likes.CountAfterApply | morrow-hole/app/api/likes/route.ts:61-77 | `count` moves by +1 on an insert and -1 on a delete, and stays the same otherwise. Other slugs' counts never change. |
| Likes.ToggleTwice | morrow-hole/app/api/likes/route.ts:61-71 | Two empty-action POSTs, the second under the id counter the first left, restore the table exactly when it started unliked. From either state they restore `liked` and every count. |
| Likes.LikesTable.constructor | morrow-hole/app/api/likes/route.ts:15-19 | An empty table satisfies the invariant. |
| Likes.LikesTable.Get | morrow-hole/app/api/likes/route.ts:22-33 | A slug that cannot be decoded is an error. A blank trimmed slug gives []. Otherwise the result is every row of that slug and no other, newest first. |
| Likes.LikesTable.Post | morrow-hole/app/api/likes/route.ts:35-85 | A refused auth returns its response. Undecodable and blank slugs change nothing. Otherwise the table becomes `Apply(old rows)`, keeping the invariant, and the reply is (`liked`, `count`) read from the new table. |
| Comments.Validate | morrow-hole/app/api/comments/route.ts:36-46 | The slug is decoded and trimmed, the name trimmed and cut to 64, the content trimmed. Non-string fields read as "". The payload is rejected exactly when one of the three is blank, and a failed decode is reported. |
| Comments.BlankSlugMatchesNothing | morrow-hole/app/api/comments/route.ts:21-31 | GET does not trim, so a whitespace-only slug matches no stored comment. |
| Comments.AppendKeepsInvariant | morrow-hole/app/api/comments/route.ts:48-53 | Inserting a validated comment under the next id keeps the invariant. |
| Comments.ReadBack | morrow-hole/app/api/comments/route.ts:54-60 | Reading back by the insert id returns exactly the inserted row. |
| Comments.AcceptedSlugTrimmed | morrow-hole/app/api/comments/route.ts:40-46 | An accepted slug is its own trim. |
| Comments.CommentsTable.constructor | morrow-hole/app/api/comments/route.ts:13-18 | An empty table satisfies the invariant. |
| Comments.CommentsTable.Get | morrow-hole/app/api/comments/route.ts:20-33 | An empty decoded slug gives []. Otherwise the result is every comment whose slug equals the untrimmed decoded slug, newest first. |
| Comments.CommentsTable.Post | morrow-hole/app/api/comments/route.ts:35-61 | An invalid payload inserts nothing. A valid one appends exactly one row under the next id and returns that row. |
| DailyPosts.ModeMedia | morrow-hole/app/api/daily-posts/route.ts:42-46 | "image" maps to image, "video" to video, anything else to none. |
| DailyPosts.PayloadOf | morrow-hole/app/api/daily-posts/route.ts:33-65 | JSON bodies never carry media. A multipart file sets the blob, the mode's media type and the MIME type, with an empty MIME stored as null. Without a file part the media type is none. An empty text with no blob is rejected. A failing `formData()` is an error. |
| DailyPosts.ReadPayload | morrow-hole/app/api/daily-posts/route.ts:33-65 | The step-by-step reading of the body yields exactly `PayloadOf(req)`. |
| DailyPosts.AppendKeepsInvariant | morrow-hole/app/api/daily-posts/route.ts:63-70 | Inserting an accepted post keeps increasing ids and the text-or-media guarantee. |
| DailyPosts.DailyPostsTable.constructor | morrow-hole/app/api/daily-posts/route.ts:16-20 | An empty table satisfies the invariant. |
| DailyPosts.DailyPostsTable.List | morrow-hole/app/api/daily-posts/route.ts:22-28 | The listing is the newest min(n, 50) posts, ids strictly decreasing, with `has_media` 1 exactly when the blob is not null. |
| DailyPosts.DailyPostsTable.Post | morrow-hole/app/api/daily-posts/route.ts:30-78 | The reply is a form error exactly when `PayloadOf(req)` is unreadable, and a 400 exactly when it is invalid; then nothing is inserted. An accepted payload appends `RowOf(old nextId, post)`, advances the id by one and returns that row as listed. |
| DailyMedia.MediaGet | morrow-hole/app/api/daily-posts/media/route.ts:16-40 | 400 exactly when `Number(id)` is not finite or is ≤ 0, a missing id included. A served body is the stored blob of the row with that id. The cache header is the fixed immutable one. An unknown id gives 404. |
| DailyMedia.MediaOfStoredPost | morrow-hole/app/api/daily-posts/media/route.ts:16-40 | A stored post's media is served under its id with its MIME type, or `application/octet-stream` when the MIME is null or empty. A post stored without media gives 404. |
| Posts.EffectiveLimit | morrow-hole/app/api/posts/route.ts:15-17 | The limit is always in [1, 100]. Missing, NaN or 0 gives 24, negative gives 1, above 100 gives 100, and in range it is unchanged. |
| Posts.EffectiveOffset | morrow-hole/app/api/posts/route.ts:16-18 | The offset is ≥ 0 or +∞. Missing, NaN or negative gives 0, and a finite non-negative value is unchanged. |
| Posts.Page | morrow-hole/app/api/posts/route.ts:21-25 | The page holds at most `limit` posts, newest first, after skipping `offset`. |
| Posts.PostsGet | morrow-hole/app/api/posts/route.ts:14-26 | The query fails exactly for an infinite offset. Otherwise the result is `Page(rows, effective limit, effective offset)`, so it has at most the effective limit of posts. |
| Posts.PagesAdjoin | morrow-hole/app/api/posts/route.ts:21-25 | Consecutive pages concatenate to the page spanning both, so no post is skipped or repeated. |
| AuthMe.ExtractToken | morrow-hole/app/api/auth/me/route.ts:4-9 | The token is what follows "Bearer ", else what follows "token " (case-sensitive), trimmed. Any other header gives "". |
| AuthMe.ForwardedTokenReadsBack | morrow-hole/app/api/auth/me/route.ts:4-18 | The `Bearer` header forwarded to GitHub carries exactly the extracted token. |
| AuthMe.Me | morrow-hole/app/api/auth/me/route.ts:3-40 | An empty token gives 401 missing_token and GitHub is not asked. Upstream 401 gives invalid_token, and any other non-2xx gives 502 with that status. A missing or empty login gives invalid_user. On success, `name` is null unless a string and `avatarUrl` is "" unless a string. |
| AuthMe.AnswerForSentTokenOnly | morrow-hole/app/api/auth/me/route.ts:15-21 | The reply depends only on GitHub's answer for the extracted token. |
| AuthCallback.ClientId | morrow-hole/app/api/auth/callback/route.ts:15 | `??` falls back only from an unset variable, never from "". |
| AuthCallback.Callback | morrow-hole/app/api/auth/callback/route.ts:3-45 | The checks run in a fixed order: error, code, credentials, token status, `access_token`. Each failure redirects with its own error code, and success redirects with the encoded token. |
| AuthCallback.EncodedValue | morrow-hole/app/api/auth/callback/route.ts:7 | An encoded query value needs no further escaping and decodes to the original. |
| AuthCallback.FixedCode | morrow-hole/app/api/auth/callback/route.ts:11-41 | The fixed error codes are their own query values. |
| AuthCallback.CallbackQueryDecodes | morrow-hole/app/api/auth/callback/route.ts:5-44 | Every redirect carries `token=` exactly when a token was issued and `error=` otherwise. The value decodes to the issued token or the error GitHub sent. |
| QqPlaylist.SingerName | morrow-hole/app/api/qqmusic/playlist/route.ts:62-65 | A singer is kept only when its `name` is a string whose trim is not empty. |
| QqPlaylist.FiniteNumber | morrow-hole/app/api/qqmusic/playlist/route.ts:57-60 | `songid` and `interval` are their numeric value, or 0 when it is not finite. |
| QqPlaylist.SongOf | morrow-hole/app/api/qqmusic/playlist/route.ts:53-80 | A song is dropped exactly when it is not an object or its songmid or songname is empty or not a string. The other fields are copied or defaulted. |
| QqPlaylist.Reshape | morrow-hole/app/api/qqmusic/playlist/route.ts:46-89 | The payload's disstid is the validated id. A missing or non-object first cd gives empty name, cover, desc and songs. An object first cd gives its string `dissname`, `logo` and `desc` as name, cover and desc, and `Songs` of its `songlist` array. |
| QqPlaylist.PlaylistGet | morrow-hole/app/api/qqmusic/playlist/route.ts:20-92 | 400 exactly when the trimmed disstid is not all digits. Otherwise it is 502 with the status exactly when the upstream answers non-OK, 500 when the upstream is unreachable, and else exactly `Found(Reshape(disstid, body))`, so the properties of `Reshape` and `Songs` hold for the reply. |
| QqPlaylist.SongsWellFormed | morrow-hole/app/api/qqmusic/playlist/route.ts:52-81 | Every listed song has a non-empty mid and name, and only non-blank singers. |
| QqPlaylist.SongsInOrder | morrow-hole/app/api/qqmusic/playlist/route.ts:52-81 | Songs are reshaped one by one and keep their order. |
| DailyPage.CountField | morrow-hole/app/Daily/page.tsx:47-48 | A count is kept when it is a finite number. Anything else is 0, a numeric string included. |
| DailyPage.NormalizeItem | morrow-hole/app/Daily/page.tsx:36-59 | Non-objects and ids that are not finite or are ≤ 0 give null. Otherwise the fields are copied or defaulted: media type, `has_media` 0 unless exactly 1, counts, and content. |
| DailyPage.ItemsOf | morrow-hole/app/Daily/page.tsx:73-76 | A body without an `items` array lists nothing. Otherwise the list is the items that normalise, normalised, in order. |
| DailyPage.LoadedIdsPositive | morrow-hole/app/Daily/page.tsx:68-81 | Every item the page lists has a positive id. |
| DailyPage.LikedIdsFrom | morrow-hole/app/Daily/page.tsx:93-101 | Only a stored array replaces the liked ids. An id is kept exactly when the array holds it as a finite number. |
| DailyPage.LikedIdsOne | morrow-hole/app/Daily/page.tsx:98 | A single stored element gives its value when it is a finite number, and nothing when it is a string, NaN, ±∞ or anything else. |
| DailyPage.LikedIdsAppend | morrow-hole/app/Daily/page.tsx:98 | The ids of a stored array are the ids of its parts, in order. |
| DailyPage.LikedIdsReadBack | morrow-hole/app/Daily/page.tsx:93-101 | An array of finite numbers reads back as exactly those ids. |
| DailyPage.Without | morrow-hole/app/Daily/page.tsx:172 | `filter(x => x !== postId)` leaves no occurrence of the id and keeps every occurrence of every other id. |
| DailyPage.WithoutAppend | morrow-hole/app/Daily/page.tsx:172 | The removal works part by part, so the other ids keep their order. |
| DailyPage.ToggledIds | morrow-hole/app/Daily/page.tsx:171-172 | The id leaves the list when present and is appended when absent, and every other id keeps its number of occurrences. |
| DailyPage.WithLikes | morrow-hole/app/Daily/page.tsx:173-179 | Only the item with that id changes, and only its like count. It goes down by one when it was liked and up by one otherwise, and is 0 when that would fall below 0. |
| DailyPage.WithComment | morrow-hole/app/Daily/page.tsx:202-208 | Only the target item's comment count changes, by +1. |
| DailyPage.ToggleLikeTwice | morrow-hole/app/Daily/page.tsx:170-180 | Two clicks restore the liked ids (exactly when the post started unliked) and restore the items when the counts are ≥ 0, or ≥ 1 when liked. |
| DailyPage.DailySlugPlain | morrow-hole/app/Daily/page.tsx:192 | The slug `daily:<id>` has no white space and no `%`. |
| DailyPage.PageCommentAccepted | morrow-hole/app/Daily/page.tsx:183-195 | Every comment the page sends passes the comments route's validation as `daily:<id>`, by "匿名", with the trimmed draft. |
| DailyPage.ValidateAccepts | morrow-hole/app/api/comments/route.ts:36-46 | A body whose fields are already in stored form is accepted unchanged. |
| DailyPage.PublishForm | morrow-hole/app/Daily/page.tsx:133-136 | The daily-posts route reads back the published text, the mode's media type and the picked file. |
| DailyPage.DialogReset | morrow-hole/app/Daily/page.tsx:109-118 | Closing the dialog resets its seven fields and keeps the list, likes and comment fields. |
| DailyPage.Page.constructor | morrow-hole/app/Daily/page.tsx:17-34 | The whole initial state: a closed dialog in text mode, no items, loading, no liked ids, no comment box. |
| DailyPage.Page.LoadItems | morrow-hole/app/Daily/page.tsx:68-81 | An OK reply replaces the items with its valid ones. Loading always ends. No other field changes. |
| DailyPage.Page.LoadLikedIds | morrow-hole/app/Daily/page.tsx:93-101 | The liked ids become the stored finite numbers when the stored value is an array. No other field changes. |
| DailyPage.Page.ClosePostModal | morrow-hole/app/Daily/page.tsx:109-118 | The new state is `DialogReset` of the old one. |
| DailyPage.Page.SwitchPostMode | morrow-hole/app/Daily/page.tsx:163-168 | Switching sets the mode and drops the file and the preview. No other field changes. |
| DailyPage.Page.ToggleLike | morrow-hole/app/Daily/page.tsx:170-180 | The new liked ids are `ToggledIds`, the new items `WithLikes`, and every other field is unchanged. |
| DailyPage.Page.SubmitComment | morrow-hole/app/Daily/page.tsx:182-214 | A blank draft sends and changes nothing. On success only the target's count goes up, the draft is cleared, the box closed and the error cleared. On failure only the error message and the posting flag change. Each case states the whole new state. |
| DailyPage.Page.HandlePublish | morrow-hole/app/Daily/page.tsx:129-161 | An OK reply prepends the returned item when it normalises and resets the dialog in any case. A failed reply changes only the error message and the posting flag. Each case states the whole new state. |
| LoginPage.Message | morrow-hole/app/login/page.tsx:10-12 | An error shows "登录失败：" + error, else a token shows "登录中...", else "未收到登录凭证". |
| LoginPage.Target | morrow-hole/app/login/page.tsx:18 | The navigation target is the stored redirect, or "/Daily" when it is absent or empty. |
| LoginPage.AfterLogin | morrow-hole/app/login/page.tsx:14-23 | An error, or neither a token nor an error, leaves storage untouched with no navigation. |
| LoginPage.TokenStored | morrow-hole/app/login/page.tsx:16-20 | A token is stored under "token", the pending redirect is removed and followed, and other entries are unchanged. |
| LoginPage.IssuedTokenStored | morrow-hole/app/login/page.tsx:10-17 | The token the OAuth callback issues reaches local storage unchanged. |
| LoginPage.LocalStorage.constructor | morrow-hole/app/login/page.tsx:17-19 | Storage starts with the given entries. |
| LoginPage.LocalStorage.SetItem | morrow-hole/app/login/page.tsx:17 | `setItem` maps the key to the value. |
| LoginPage.LocalStorage.GetItem | morrow-hole/app/login/page.tsx:18 | `getItem` returns the value, or null when the key is absent. |
| LoginPage.LocalStorage.RemoveItem | morrow-hole/app/login/page.tsx:19 | `removeItem` drops the key. |
| LoginPage.LoginEffect | morrow-hole/app/login/page.tsx:14-23 | The effect's storage writes and navigation are exactly `AfterLogin`. |
| ScrollReveal.SplitLines | morrow-hole/component/ScrollReveal.js:32 | `split("\n")` yields at least one piece, none containing a line feed. |
| ScrollReveal.LinesRoundTrip | morrow-hole/component/ScrollReveal.js:32 | Joining the lines with "\n" gives the text back. |
| ScrollReveal.LineEntry | morrow-hole/component/ScrollReveal.js:33-37 | A blank line gives null. Any other line gives its non-empty trim. |
| ScrollReveal.SplitWords | morrow-hole/component/ScrollReveal.js:44 | `split(/(\s+)/)` alternates words (without white space, possibly empty) and non-empty white-space runs, starting and ending with a word. |
| ScrollReveal.WordsRoundTrip | morrow-hole/component/ScrollReveal.js:44 | The tokens concatenate to the text. |
| ScrollReveal.PieceOf | morrow-hole/component/ScrollReveal.js:45-50 | A token is emitted raw exactly when it is a non-empty white-space run. |
| ScrollReveal.SplitText | morrow-hole/component/ScrollReveal.js:28-52 | Mode "line" gives one entry per line. Any other mode wraps even-position tokens as words, empty ones included, and emits odd-position runs raw. A non-string child reads as "". |
| ScrollReveal.WordModeKeepsText | morrow-hole/component/ScrollReveal.js:44-51 | Word-mode pieces spell out the text exactly. |
| Projects.FilterProjects | frontend/src/pages/Projects.tsx:34-35 | No kept project is titled "Ant's agent". |
| Projects.FilterProjectsExact | frontend/src/pages/Projects.tsx:34-35 | The filter keeps every other project, in order, takes nothing from outside the list, and is idempotent. |
| Projects.ProjectsAfterLoad | frontend/src/pages/Projects.tsx:31-50 | An array in `res.data` is preferred, then `res` itself. Anything else, a rejection, or a null project gives []. |
| Projects.ProgressWidth | frontend/src/pages/Projects.tsx:136 | The width is the progress when it is a number, and 0 otherwise. |

## Left out

- morrow-hole/lib/db.ts (the connection pool) is not part of this model. The likes, comments and posts routes import `getPool`, which lib/db.ts does not export. Tables are modelled as in-memory state instead.
- `CREATE TABLE IF NOT EXISTS` runs on almost every request. It is schema plumbing, and the model keeps only what the schema guarantees: unique (post_slug, client_id) in `likes` and AUTO_INCREMENT ids.
- MySQL collation is not modelled. The default collation compares case- and trailing-space-insensitively, but the model compares slugs and client ids exactly.
- VARCHAR widths that no handler enforces itself are not modelled: `post_slug` (128) and `media_mime` (64). What MySQL does with longer values is left out.
- `created_at` ordering is reverse insertion order. Equal timestamps and clock behaviour are database concerns.
- JavaScript numbers are modelled as integers, ±∞ and NaN. Fractions, exponents, hex and other non-integer `Number(...)` inputs read as NaN, so an id such as "1.0" is 400 here but found in the source. Magnitude is not modelled either. A digit string longer than about 309 digits is `Infinity` in JavaScript but a finite integer here, so a 400-digit media id is 400 in the source and 404 here, and a 400-digit posts offset fails the query in the source but gives an empty page here. Integers above 2^53 round to the nearest double in JavaScript ("9007199254740993" reads as 9007199254740992) but stay exact here. `Number` of an array or object is NaN (JavaScript gives 0 for `[]`).
- Js.ParseNumber: reads every digit string as its exact integer value, without the overflow to `Infinity` or the rounding to a double described above.
- Js.Field looks up only an object's own keys. Prototype properties such as `constructor` are not modelled.
- Text.Take counts code points, while JavaScript's `slice` counts UTF-16 units, so cuts at 64, 128 and 512 differ for characters outside the BMP.
- Uri.Encode: `encodeURIComponent` throws `URIError` on a lone UTF-16 surrogate. A Dafny `char` cannot hold one, so that error path is not modelled.
- Text.ToLower lowers ASCII letters only. Unicode case mapping is not modelled.
- `requireGithubUser` (lib/githubAuth) is not part of this model. Its result is an input (`Likes.Auth`).
- Every outbound `fetch` (GitHub, QQ Music, the page's own API calls) is a parameter: a rejection or a status with a parsed body. Headers, caching (`revalidate`, `no-store`) and timeouts are left out.
- The redirect URLs built with `new URL(path, request.url)` are modelled as their path and query. The origin is left out.
- Exceptions that reach the framework are one error outcome per route. These are a failing `decodeURIComponent`, a failing `formData()`, a rejected fetch, and a query the database refuses (an infinite posts offset).
- The daily-posts handlers enforce no upload size limit, no MIME allow-list and no 413 or 415 response. The model does the same.
- DailyPage: the OAuth client-id effect (page.tsx:83-91), writing the liked ids back to local storage (page.tsx:103-107), the Escape-key listener (page.tsx:120-127), `URL.revokeObjectURL`, and rendering are left out. React state updates are applied at once and in order; batching and stale closures are not modelled.
- DailyPage.NormalizeItem takes one `now` for `new Date().toISOString()` rather than reading the clock per item.
- DailyPage.Page.HandlePublish and DailyPage.Page.SubmitComment state the final state of a request only. The intermediate `isPosting`/`isCommentPosting` = true is not observable in the model.
- The GSAP scroll animation of ScrollReveal (ScrollReveal.js:54-124) is left out: timing, floats and a foreign library.
- The Projects page's placeholder project, its `console.error` logging and `resMethod` (not part of this model) are left out. The rendered `%` string of the progress width is also left out.
- Concurrent requests (two like toggles racing) are out of scope. Each request runs atomically.
