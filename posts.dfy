/** `GET /api/posts?limit=…&offset=…`: a page of the blog's posts, newest
    first, with `limit` clamped into [1, 100] and `offset` kept non-negative. */
module Posts {
  import opened Wrappers
  import opened Js
  import Seqs

  datatype PostRow = PostRow(id: nat, title: string, summary: string, slug: string)

  /** A page of rows, or a query the database refuses (an infinite offset). */
  datatype PageResponse = Items(items: seq<PostRow>) | QueryFailed

  const DefaultLimit := 24
  const MaxLimit := 100

  /** `Number(raw ?? dflt)`. A missing parameter is the number itself. */
  function ParamNumber(raw: Option<string>, dflt: int): Num {
    if raw.None? then Finite(dflt) else ParseNumber(raw.value)
  }

  /** `Math.min(100, Math.max(1, Number(limitRaw ?? 24) || 24))`. */
  function EffectiveLimit(limitRaw: Option<string>): (r: int)
    ensures 1 <= r <= MaxLimit
    ensures limitRaw.None? ==> r == DefaultLimit
    ensures var n := ParamNumber(limitRaw, DefaultLimit);
            && (n == NaN || n == Finite(0) ==> r == DefaultLimit)
            && (n.Finite? && 1 <= n.v <= MaxLimit ==> r == n.v)
            && ((n.Finite? && n.v > MaxLimit) || n == PosInf ==> r == MaxLimit)
            && ((n.Finite? && n.v < 0) || n == NegInf ==> r == 1)
  {
    var n := ParamNumber(limitRaw, DefaultLimit);
    match n
    case NaN => DefaultLimit
    case PosInf => MaxLimit
    case NegInf => 1
    case Finite(v) =>
      var x := if v == 0 then DefaultLimit else v;
      var lo := if x < 1 then 1 else x;
      if lo > MaxLimit then MaxLimit else lo
  }

  /** `Math.max(0, Number(offsetRaw ?? 0) || 0)`: a non-negative number or
      positive infinity. */
  function EffectiveOffset(offsetRaw: Option<string>): (r: Num)
    ensures r == PosInf || (r.Finite? && r.v >= 0)
    ensures r == PosInf <==> ParamNumber(offsetRaw, 0) == PosInf
    ensures var n := ParamNumber(offsetRaw, 0);
            && (n == NaN || n == NegInf || (n.Finite? && n.v < 0) ==> r == Finite(0))
            && (n.Finite? && n.v >= 0 ==> r == n)
  {
    var n := ParamNumber(offsetRaw, 0);
    match n
    case NaN => Finite(0)
    case PosInf => PosInf
    case NegInf => Finite(0)
    case Finite(v) => Finite(if v < 0 then 0 else v)
  }

  function Min(a: int, b: int): int {
    if a < b then a else b
  }

  /** `ORDER BY created_at DESC LIMIT limit OFFSET offset`, with rows stored in
      creation order. */
  function Page(rows: seq<PostRow>, limit: nat, offset: nat): (r: seq<PostRow>)
    ensures |r| == if offset >= |rows| then 0 else Min(limit, |rows| - offset)
    ensures forall i :: 0 <= i < |r| ==> r[i] == rows[|rows| - 1 - offset - i]
  {
    var newest := Seqs.Reverse(rows);
    var lo := Min(offset, |rows|);
    var hi := Min(offset + limit, |rows|);
    newest[lo..hi]
  }

  /** The handler: clamp, then read one page. */
  function PostsGet(rows: seq<PostRow>, limitRaw: Option<string>, offsetRaw: Option<string>): (r: PageResponse)
    ensures r.QueryFailed? <==> EffectiveOffset(offsetRaw) == PosInf
    ensures r.Items? ==> |r.items| <= EffectiveLimit(limitRaw) && |r.items| <= MaxLimit
    ensures r.Items? ==> r.items == Page(rows, EffectiveLimit(limitRaw), EffectiveOffset(offsetRaw).v)
  {
    var limit := EffectiveLimit(limitRaw);
    var offset := EffectiveOffset(offsetRaw);
    if offset == PosInf then QueryFailed else Items(Page(rows, limit, offset.v))
  }

  /** Two consecutive pages together are the page that spans both: paging
      skips no post and shows none twice. */
  lemma {:induction false} PagesAdjoin(rows: seq<PostRow>, a: nat, b: nat, offset: nat)
    ensures Page(rows, a, offset) + Page(rows, b, offset + a) == Page(rows, a + b, offset)
  {
    var p := Page(rows, a, offset);
    var q := Page(rows, b, offset + a);
    var w := Page(rows, a + b, offset);
    assert |p + q| == |w|;
    forall i | 0 <= i < |w| ensures (p + q)[i] == w[i] {
      if i >= |p| {
        assert (p + q)[i] == q[i - |p|];
      }
    }
  }
}
