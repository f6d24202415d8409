/** `GET /api/qqmusic/playlist?disstid=…`: validates a playlist id, asks QQ
    Music for the playlist and reshapes its untyped answer into typed songs. */
module QqPlaylist {
  import opened Wrappers
  import opened Text
  import opened Js
  import Seqs

  datatype Song = Song(songid: int, songmid: string, songname: string,
                       singers: seq<string>, albumName: string, durationSec: int)

  datatype Playlist = Playlist(disstid: string, name: string, cover: string, desc: string, songs: seq<Song>)

  /** What the fetch of the playlist produced. */
  datatype Upstream = Unreachable | Responded(status: int, body: Value)

  datatype PlaylistResponse =
    | InvalidDisstid                 // 400 invalid_disstid
    | UpstreamFailed(status: int)    // 502 upstream_failed
    | Found(playlist: Playlist)
    | InternalError                  // the fetch rejected

  predicate Ok(status: int) {
    200 <= status <= 299
  }

  /** `v && typeof v === "object" ? v : null`. */
  function AsObject(v: Value): Option<Value>
  {
    if IsObject(v) then Some(v) else None
  }

  /** `typeof o?.key === "string" ? o.key : ""` on an optional object. */
  function StringField(o: Option<Value>, key: string): string {
    if o.Some? then StringOr(Field(o.value, key), "") else ""
  }

  /** `Array.isArray(v) ? v : []`. */
  function ElementsOr(v: Value): seq<Value> {
    if v.Arr? then v.elems else []
  }

  /** A singer's name, kept when it is a string that is not blank. */
  function SingerName(s: Value): (r: Option<string>)
    ensures r.Some? <==> Field(s, "name").Str? && !IsBlank(Field(s, "name").s)
    ensures r.Some? ==> Field(s, "name") == Str(r.value)
  {
    var n := if IsObject(s) then Field(s, "name") else Null;
    if n.Str? && Trim(n.s) != [] then Some(n.s) else None
  }

  /** `Number.isFinite(n) ? n : 0` for `typeof v === "number" ? v : Number(v)`. */
  function FiniteNumber(v: Value): (r: int)
    ensures NumberOf(v).Finite? ==> r == NumberOf(v).v
    ensures !NumberOf(v).Finite? ==> r == 0
  {
    FiniteOrZero(NumberOf(v))
  }

  /** One raw song, or `None` when it is dropped. */
  function SongOf(raw: Value): (r: Option<Song>)
    ensures r.None? <==> !IsObject(raw) || StringOr(Field(raw, "songmid"), "") == "" || StringOr(Field(raw, "songname"), "") == ""
    ensures r.Some? ==>
              && Field(raw, "songmid") == Str(r.value.songmid) && r.value.songmid != ""
              && Field(raw, "songname") == Str(r.value.songname) && r.value.songname != ""
              && r.value.songid == FiniteNumber(Field(raw, "songid"))
              && r.value.durationSec == FiniteNumber(Field(raw, "interval"))
              && r.value.albumName == StringField(AsObject(Field(raw, "album")), "name")
              && r.value.singers == Seqs.FilterMap(ElementsOr(Field(raw, "singer")), SingerName)
  {
    if !IsObject(raw) then None
    else
      var songid := NumberOf(Field(raw, "songid"));
      var songmid := StringOr(Field(raw, "songmid"), "");
      var songname := StringOr(Field(raw, "songname"), "");
      var durationSec := NumberOf(Field(raw, "interval"));
      var singers := Seqs.FilterMap(ElementsOr(Field(raw, "singer")), SingerName);
      var album := AsObject(Field(raw, "album"));
      var albumName := StringField(album, "name");
      if songmid == "" || songname == "" then None
      else Some(Song(FiniteOrZero(songid), songmid, songname, singers, albumName, FiniteOrZero(durationSec)))
  }

  function Songs(raws: seq<Value>): seq<Song> {
    Seqs.FilterMap(raws, SongOf)
  }

  /** The playlist record built from the upstream body. */
  function Reshape(disstid: string, data: Value): (p: Playlist)
    ensures p.disstid == disstid
    ensures var cdlist := ElementsOr(Field(data, "cdlist"));
            (cdlist == [] || !IsObject(cdlist[0])) ==> p.name == "" && p.cover == "" && p.desc == "" && p.songs == []
    ensures var cdlist := ElementsOr(Field(data, "cdlist"));
            cdlist != [] && IsObject(cdlist[0]) ==>
              var first := Some(cdlist[0]);
              && p.name == StringField(first, "dissname")
              && p.cover == StringField(first, "logo")
              && p.desc == StringField(first, "desc")
              && p.songs == Songs(ElementsOr(Field(cdlist[0], "songlist")))
  {
    var root := AsObject(data);
    var cdlist := if root.Some? then ElementsOr(Field(root.value, "cdlist")) else [];
    var first := if cdlist != [] then AsObject(cdlist[0]) else None;
    var rawSongs := if first.Some? then ElementsOr(Field(first.value, "songlist")) else [];
    Playlist(disstid, StringField(first, "dissname"), StringField(first, "logo"), StringField(first, "desc"), Songs(rawSongs))
  }

  /** The handler; `disstidParam` is the query parameter and `fetchList` the
      upstream's answer for the id it is sent. */
  function PlaylistGet(disstidParam: Option<string>, fetchList: string -> Upstream): (r: PlaylistResponse)
    ensures r == InvalidDisstid <==> !AllDigits(Trim(disstidParam.GetOr("")))
    ensures r != InvalidDisstid ==>
              match fetchList(Trim(disstidParam.GetOr("")))
              case Unreachable => r == InternalError
              case Responded(status, body) =>
                (r == UpstreamFailed(status) <==> !Ok(status))
                && (Ok(status) ==> r == Found(Reshape(Trim(disstidParam.GetOr("")), body)))
  {
    var disstid := if disstidParam.Some? then Trim(disstidParam.value) else "";
    if !AllDigits(disstid) then InvalidDisstid
    else
      match fetchList(disstid)
      case Unreachable => InternalError
      case Responded(status, data) =>
        if !Ok(status) then UpstreamFailed(status) else Found(Reshape(disstid, data))
  }

  /** Every listed song has a non-empty mid and name and only non-blank
      singers. */
  lemma SongsWellFormed(raws: seq<Value>)
    ensures forall i :: 0 <= i < |Songs(raws)| ==>
              Songs(raws)[i].songmid != "" && Songs(raws)[i].songname != ""
              && forall k :: 0 <= k < |Songs(raws)[i].singers| ==> !IsBlank(Songs(raws)[i].singers[k])
  {
    Seqs.FilterMapMembers(raws, SongOf);
    forall i | 0 <= i < |Songs(raws)|
      ensures forall k :: 0 <= k < |Songs(raws)[i].singers| ==> !IsBlank(Songs(raws)[i].singers[k])
    {
      var j :| 0 <= j < |raws| && SongOf(raws[j]) == Some(Songs(raws)[i]);
      Seqs.FilterMapMembers(ElementsOr(Field(raws[j], "singer")), SingerName);
    }
  }

  /** Songs are reshaped one by one and keep their order: the songs of two
      lists are the songs of each, one after the other, and a single raw song
      contributes its own record or nothing. */
  lemma {:induction false} SongsInOrder(a: seq<Value>, b: seq<Value>, raw: Value)
    ensures Songs(a + b) == Songs(a) + Songs(b)
    ensures Songs([raw]) == if SongOf(raw).Some? then [SongOf(raw).value] else []
  {
    Seqs.FilterMapAppend(a, b, SongOf);
    assert [raw][..0] == [];
  }
}
