/** The track list of the player (`src/renderer/app.js`): the records the feed returns,
    their normalisation by `formatTracks`, the liked filter of `renderTracks`, the in-place
    like toggle, and the mapping from a rendered row to the track it stands for. */
module Tracks {
  import opened Wrappers

  /** The optional `metadata` object of a feed record. */
  datatype Metadata = Metadata(prompt: Option<string>, duration: Option<int>)

  /** A record of the feed as `fetchUserTracks` receives it; `None` is an absent field. */
  datatype RawTrack = RawTrack(
    id: string,
    title: Option<string>,
    metadata: Option<Metadata>,
    displayName: Option<string>,
    imageUrl: Option<string>,
    imageLargeUrl: Option<string>,
    audioUrl: Option<string>,
    songPath: Option<string>,
    isLiked: Option<bool>,
    createdAt: Option<string>)

  /** A track as the player keeps it. */
  datatype Track = Track(
    id: string,
    title: string,
    artist: string,
    cover: string,
    audio: string,
    duration: int,
    liked: bool,
    createdAt: Option<string>)

  /** `track.metadata?.prompt`. */
  function Prompt(raw: RawTrack): Option<string> {
    if raw.metadata.Some? then raw.metadata.value.prompt else None
  }

  /** `track.metadata?.duration`. */
  function Duration(raw: RawTrack): Option<int> {
    if raw.metadata.Some? then raw.metadata.value.duration else None
  }

  /** The per-record mapping of `formatTracks`: each field takes the first truthy source
      in its chain of defaults. */
  function FormatTrack(raw: RawTrack): (t: Track)
    ensures t.id == raw.id && t.createdAt == raw.createdAt
    ensures t.title != "" && t.artist != ""
    ensures Truthy(raw.title) ==> t.title == raw.title.value
    ensures !Truthy(raw.title) && Truthy(Prompt(raw)) ==> t.title == Prompt(raw).value
    ensures !Truthy(raw.title) && !Truthy(Prompt(raw)) ==> t.title == "Untitled"
    ensures t.artist == if Truthy(raw.displayName) then raw.displayName.value else "Suno AI"
    ensures Truthy(raw.imageUrl) ==> t.cover == raw.imageUrl.value
    ensures !Truthy(raw.imageUrl) && Truthy(raw.imageLargeUrl) ==> t.cover == raw.imageLargeUrl.value
    ensures !Truthy(raw.imageUrl) && !Truthy(raw.imageLargeUrl) ==> t.cover == ""
    ensures !Truthy(raw.audioUrl) && !Truthy(raw.songPath) <==> t.audio == ""
    ensures Truthy(raw.audioUrl) ==> t.audio == raw.audioUrl.value
    ensures !Truthy(raw.audioUrl) && Truthy(raw.songPath) ==> t.audio == raw.songPath.value
    ensures t.duration == if Duration(raw).Some? then Duration(raw).value else 0
    ensures t.liked <==> raw.isLiked == Some(true)
  {
    Track(
      raw.id,
      Or(raw.title, Or(Prompt(raw), "Untitled")),
      Or(raw.displayName, "Suno AI"),
      Or(raw.imageUrl, Or(raw.imageLargeUrl, "")),
      Or(raw.audioUrl, Or(raw.songPath, "")),
      if Duration(raw).Some? && Duration(raw).value != 0 then Duration(raw).value else 0,
      raw.isLiked == Some(true),
      raw.createdAt)
  }

  /** `formatTracks`: one track per record, in the same order. */
  function FormatTracks(raws: seq<RawTrack>): (r: seq<Track>)
    ensures |r| == |raws| && forall i :: 0 <= i < |raws| ==> r[i] == FormatTrack(raws[i])
  {
    if raws == [] then [] else [FormatTrack(raws[0])] + FormatTracks(raws[1..])
  }

  /** A track written back as a feed record with every field present. */
  function AsRaw(t: Track): RawTrack {
    RawTrack(t.id, Some(t.title), Some(Metadata(None, Some(t.duration))), Some(t.artist),
             Some(t.cover), None, Some(t.audio), None, Some(t.liked), t.createdAt)
  }

  /** Normalising a track that is already normal gives it back: `formatTracks` is
      idempotent on its own output. */
  lemma FormatAsRaw(t: Track)
    requires t.title != "" && t.artist != ""
    ensures FormatTrack(AsRaw(t)) == t
  {
  }

  lemma {:induction false} FormatTracksIdempotent(raws: seq<RawTrack>)
    ensures FormatTracks(seq(|raws|, i requires 0 <= i < |raws| => AsRaw(FormatTracks(raws)[i]))) == FormatTracks(raws)
  {
    var once := FormatTracks(raws);
    var again := seq(|raws|, i requires 0 <= i < |raws| => AsRaw(once[i]));
    forall i | 0 <= i < |raws|
      ensures FormatTracks(again)[i] == once[i]
    {
      FormatAsRaw(once[i]);
    }
  }

  // ---- The liked tab ----

  /** `tracks.filter(t => t.liked)`. */
  function Liked(tracks: seq<Track>): (r: seq<Track>)
    ensures |r| <= |tracks|
    ensures forall k :: 0 <= k < |r| ==> r[k].liked
  {
    if tracks == [] then []
    else
      var last := |tracks| - 1;
      Liked(tracks[..last]) + (if tracks[last].liked then [tracks[last]] else [])
  }

  /** The positions in `tracks` of the liked tracks, in increasing order: the `k`-th row of
      the liked tab shows `tracks[LikedPositions(tracks)[k]]`. */
  function LikedPositions(tracks: seq<Track>): seq<nat> {
    if tracks == [] then []
    else
      var last := |tracks| - 1;
      LikedPositions(tracks[..last]) + (if tracks[last].liked then [last] else [])
  }

  /** The positions and the liked view grow together. */
  lemma {:induction false} LikedPositionsStep(tracks: seq<Track>)
    requires tracks != []
    ensures var last := |tracks| - 1;
            LikedPositions(tracks) == LikedPositions(tracks[..last]) + (if tracks[last].liked then [last] else [])
            && Liked(tracks) == Liked(tracks[..last]) + (if tracks[last].liked then [tracks[last]] else [])
  {
  }

  /** Row `k` of the liked tab shows the track at position `k` of the positions. */
  lemma {:induction false} LikedPositionsShow(tracks: seq<Track>)
    ensures |LikedPositions(tracks)| == |Liked(tracks)|
    ensures forall k :: 0 <= k < |LikedPositions(tracks)| ==>
              LikedPositions(tracks)[k] < |tracks| && tracks[LikedPositions(tracks)[k]] == Liked(tracks)[k]
  {
    if tracks != [] {
      var last := |tracks| - 1;
      var front := tracks[..last];
      LikedPositionsShow(front);
      LikedPositionsStep(tracks);
      var r0, l0 := LikedPositions(front), Liked(front);
      var r, l := LikedPositions(tracks), Liked(tracks);
      forall k | 0 <= k < |r|
        ensures r[k] < |tracks| && tracks[r[k]] == l[k]
      {
        if k < |r0| {
          assert r[k] == r0[k] && l[k] == l0[k];
          assert front[r0[k]] == tracks[r0[k]];
        } else {
          assert r[k] == last && l[k] == tracks[last];
        }
      }
    }
  }

  /** The positions increase strictly and stay below the list's length. */
  lemma {:induction false} LikedPositionsSorted(tracks: seq<Track>)
    ensures forall k :: 0 <= k < |LikedPositions(tracks)| ==> LikedPositions(tracks)[k] < |tracks|
    ensures forall j, k :: 0 <= j < k < |LikedPositions(tracks)| ==> LikedPositions(tracks)[j] < LikedPositions(tracks)[k]
  {
    if tracks != [] {
      var last := |tracks| - 1;
      var front := tracks[..last];
      LikedPositionsSorted(front);
      LikedPositionsStep(tracks);
      var r0, r := LikedPositions(front), LikedPositions(tracks);
      forall k | 0 <= k < |r|
        ensures r[k] < |tracks|
      {
        if k < |r0| {
          assert r[k] == r0[k];
        }
      }
      forall j, k | 0 <= j < k < |r|
        ensures r[j] < r[k]
      {
        assert r[j] == r0[j];
        if k < |r0| {
          assert r[k] == r0[k];
        }
      }
    }
  }

  /** Every liked track's position is among the positions. */
  lemma {:induction false} LikedPositionsComplete(tracks: seq<Track>)
    ensures forall i :: 0 <= i < |tracks| && tracks[i].liked ==> i in LikedPositions(tracks)
  {
    if tracks != [] {
      var last := |tracks| - 1;
      var front := tracks[..last];
      LikedPositionsComplete(front);
      LikedPositionsStep(tracks);
      var r0, r := LikedPositions(front), LikedPositions(tracks);
      forall i | 0 <= i < |tracks| && tracks[i].liked
        ensures i in r
      {
        if i < last {
          assert front[i] == tracks[i];
          assert i in r0;
        }
      }
    }
  }

  /** The liked tab shows exactly the liked tracks. */
  lemma LikedMembers(tracks: seq<Track>, t: Track)
    ensures t in Liked(tracks) <==> t in tracks && t.liked
  {
    var pos := LikedPositions(tracks);
    LikedPositionsShow(tracks);
    LikedPositionsComplete(tracks);
    if t in tracks && t.liked {
      var i :| 0 <= i < |tracks| && tracks[i] == t;
      var k :| 0 <= k < |pos| && pos[k] == i;
    }
  }

  /** Filtering distributes over concatenation, so the liked tab keeps the list's order. */
  lemma {:induction false} LikedAppend(a: seq<Track>, b: seq<Track>)
    ensures Liked(a + b) == Liked(a) + Liked(b)
    decreases |b|
  {
    if b != [] {
      var last := |b| - 1;
      assert (a + b)[..|a| + last] == a + b[..last];
      LikedAppend(a, b[..last]);
    } else {
      assert a + b == a;
    }
  }

  /** The tab names `renderTracks` distinguishes. */
  const LikedTab: string := "liked"

  /** The tracks `renderTracks` shows for tab `tab`. */
  function Visible(tracks: seq<Track>, tab: string): seq<Track> {
    if tab == LikedTab then Liked(tracks) else tracks
  }

  // ---- From a rendered row to a track ----

  /** As written: a row's `data-index` is its position in the visible list, and a click on
      it calls `playTrack` with that number, which indexes the whole list. */
  function RowTargetAsWritten(tracks: seq<Track>, tab: string, row: int): int {
    row
  }

  /** On the liked tab the row a click plays and the row that was clicked can differ. */
  lemma RowTargetMismatch()
    ensures var a := Track("a", "A", "Suno AI", "", "", 0, false, None);
            var b := Track("b", "B", "Suno AI", "", "", 0, true, None);
            Visible([a, b], LikedTab) == [b]
            && [a, b][RowTargetAsWritten([a, b], LikedTab, 0)] == a
  {
    var a := Track("a", "A", "Suno AI", "", "", 0, false, None);
    var b := Track("b", "B", "Suno AI", "", "", 0, true, None);
    assert [a, b][..1] == [a];
    assert [a][..0] == [];
  }

  /** Corrected: the index in the whole list of the track shown in row `row`, or -1 for a
      row that does not exist. */
  function RowTarget(tracks: seq<Track>, tab: string, row: int): (i: int)
    ensures 0 <= row < |Visible(tracks, tab)| ==>
              0 <= i < |tracks| && tracks[i] == Visible(tracks, tab)[row]
    ensures !(0 <= row < |Visible(tracks, tab)|) ==> !(0 <= i < |tracks|)
  {
    LikedPositionsShow(tracks);
    if tab == LikedTab then
      if 0 <= row < |LikedPositions(tracks)| then LikedPositions(tracks)[row] else -1
    else if 0 <= row < |tracks| then row else -1
  }

  /** Corrected highlight: row `row` is marked as playing exactly when it shows the track at
      `currentTrackIndex` (as written, the row whose visible position equals that index). */
  predicate RowPlaying(tracks: seq<Track>, tab: string, row: int, current: int) {
    0 <= row < |Visible(tracks, tab)| && RowTarget(tracks, tab, row) == current
  }

  /** At most one row is marked, and it is the current track's row. */
  lemma {:induction false} OneRowPlaying(tracks: seq<Track>, tab: string, r1: int, r2: int, current: int)
    requires RowPlaying(tracks, tab, r1, current) && RowPlaying(tracks, tab, r2, current)
    ensures r1 == r2 && tracks[current] == Visible(tracks, tab)[r1]
  {
    if tab == LikedTab {
      var pos := LikedPositions(tracks);
      LikedPositionsSorted(tracks);
      assert pos[r1] == pos[r2];
    }
  }

  // ---- Liking a track ----

  /** `tracks.find(t => t.id === id)`, as an index. */
  function FindId(tracks: seq<Track>, id: string): (r: Option<nat>)
    ensures r.Some? ==> r.value < |tracks| && tracks[r.value].id == id
                        && forall j :: 0 <= j < r.value ==> tracks[j].id != id
    ensures r.None? ==> forall j :: 0 <= j < |tracks| ==> tracks[j].id != id
  {
    if tracks == [] then None
    else if tracks[0].id == id then Some(0)
    else
      var rest := FindId(tracks[1..], id);
      if rest.Some? then Some(rest.value + 1) else None
  }

  /** `toggleLike(id)`: the first track with that id has its `liked` flag flipped in
      place; nothing else changes. */
  function ToggleLike(tracks: seq<Track>, id: string): (r: seq<Track>)
    ensures |r| == |tracks|
    ensures forall i :: 0 <= i < |tracks| ==>
              r[i] == if FindId(tracks, id) == Some(i) then tracks[i].(liked := !tracks[i].liked) else tracks[i]
  {
    if tracks == [] then []
    else if tracks[0].id == id then [tracks[0].(liked := !tracks[0].liked)] + tracks[1..]
    else [tracks[0]] + ToggleLike(tracks[1..], id)
  }

  /** An unknown id changes nothing. */
  lemma ToggleUnknown(tracks: seq<Track>, id: string)
    requires forall j :: 0 <= j < |tracks| ==> tracks[j].id != id
    ensures ToggleLike(tracks, id) == tracks
  {
    assert FindId(tracks, id) == None;
  }

  /** Toggling twice restores the list. */
  lemma ToggleTwice(tracks: seq<Track>, id: string)
    ensures ToggleLike(ToggleLike(tracks, id), id) == tracks
  {
    var once := ToggleLike(tracks, id);
    assert forall j :: 0 <= j < |tracks| ==> once[j].id == tracks[j].id;
    assert FindId(once, id) == FindId(tracks, id) by {
      var f, g := FindId(once, id), FindId(tracks, id);
      if f.Some? && g.Some? {
        assert !(f.value < g.value) && !(g.value < f.value);
      }
    }
  }
}
