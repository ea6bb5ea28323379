/** The playback state machine of `SunoPlayer` (`src/renderer/app.js`). Each handler is one
    step on the player's fields. The audio element appears through the fields it shares with
    the player: its source, its `loop` flag and its position in whole seconds. Rendering, the
    DOM and the outcome of `audio.play()` are left out. */
module Player {
  import opened Wrappers
  import opened Tracks
  import opened Session
  import opened Cookies
  import Bits

  /** The fields of the player that the playback handlers read and write. */
  datatype Playback = Playback(
    tracks: seq<Track>,
    index: int,        // currentTrackIndex
    playing: bool,     // isPlaying
    repeat: bool,      // isRepeat
    tab: string,       // currentTab
    src: string,       // audio.src
    loop: bool,        // audio.loop
    position: int)     // audio.currentTime, in whole seconds

  /** The state the constructor sets up. */
  const Initial: Playback := Playback([], -1, false, false, "all", "", false, 0)

  /** `playTrack(i)`: an index outside the list does nothing. Otherwise the track becomes
      current; a track with an audio URL is loaded (which restarts the element at position
      0) and marks the player as playing, a track without one leaves `isPlaying` as it
      was. */
  function Play(p: Playback, i: int): Playback {
    if i < 0 || i >= |p.tracks| then p
    else if p.tracks[i].audio != "" then
      p.(index := i, src := p.tracks[i].audio, position := 0, playing := true)
    else
      p.(index := i)
  }

  /** `togglePlay`: with no current track and a non-empty list the first track starts;
      otherwise the playing flag flips. */
  function PlayPause(p: Playback): Playback {
    if p.index == -1 && |p.tracks| > 0 then Play(p, 0) else p.(playing := !p.playing)
  }

  /** `nextTrack`: the following track, wrapping to the first. */
  function Next(p: Playback): Playback {
    if |p.tracks| == 0 then p
    else Play(p, if p.index + 1 >= |p.tracks| then 0 else p.index + 1)
  }

  /** `prevTrack`: more than three seconds into a track it restarts the track; otherwise
      the preceding track, wrapping to the last. */
  function Prev(p: Playback): Playback {
    if |p.tracks| == 0 then p
    else if p.position > 3 then p.(position := 0)
    else Play(p, if p.index - 1 < 0 then |p.tracks| - 1 else p.index - 1)
  }

  /** `toggleRepeat`: flips the repeat flag and copies it to the audio element's `loop`. */
  function FlipRepeat(p: Playback): Playback {
    p.(repeat := !p.repeat, loop := !p.repeat)
  }

  /** `onTrackEnd`: without repeat, advance. */
  function TrackEnd(p: Playback): Playback {
    if !p.repeat then Next(p) else p
  }

  /** `toggleLike(id)`. */
  function Like(p: Playback, id: string): Playback {
    p.(tracks := ToggleLike(p.tracks, id))
  }

  /** A click on row `row` of the rendered list, as written: the row's `data-index` is its
      position in the visible list, and `playTrack` looks that number up in the whole
      list. */
  function Click(p: Playback, row: int): Playback {
    Play(p, RowTargetAsWritten(p.tracks, p.tab, row))
  }

  /** A click with each row mapped to the track it shows. */
  function ClickIntended(p: Playback, row: int): Playback {
    Play(p, RowTarget(p.tracks, p.tab, row))
  }

  /** The cursor is either "no track" or a position in the list. */
  predicate CursorInRange(p: Playback) {
    -1 <= p.index < |p.tracks|
  }

  // ---- Properties of the handlers ----

  /** `playTrack` is bounds-checked: outside the list nothing changes; inside, the index is
      set, the list is kept, and playback starts exactly when the track has audio (or was
      already on). */
  lemma PlayBounds(p: Playback, i: int)
    ensures !(0 <= i < |p.tracks|) ==> Play(p, i) == p
    ensures 0 <= i < |p.tracks| ==>
              Play(p, i).index == i && Play(p, i).tracks == p.tracks
              && (Play(p, i).playing <==> p.playing || p.tracks[i].audio != "")
              && CursorInRange(Play(p, i))
  {
  }

  /** `nextTrack` moves the cursor one step around the list, from "no track" to the first. */
  lemma {:induction false} NextIndex(p: Playback)
    requires CursorInRange(p) && |p.tracks| > 0
    ensures Next(p).index == (p.index + 1) % |p.tracks|
    ensures Next(p).tracks == p.tracks
  {
    var n := |p.tracks|;
    if p.index + 1 < n {
      Bits.DivUnique(p.index + 1, n, 0, p.index + 1);
    } else {
      Bits.DivUnique(n, n, 1, 0);
    }
  }

  /** From any cursor, even one left past the end of a shorter list by `logout` or
      `loadTracks`, `nextTrack` on a non-empty list lands on a track. */
  lemma NextInBounds(p: Playback)
    requires |p.tracks| > 0 && p.index >= -1
    ensures 0 <= Next(p).index < |p.tracks| && Next(p).tracks == p.tracks
  {
  }

  /** `prevTrack` does not recover such a cursor: from more than one past the end, its
      target is still outside the list, so within the first three seconds nothing
      changes. */
  lemma PrevFromStale(p: Playback)
    requires |p.tracks| > 0 && p.index > |p.tracks| && p.position <= 3
    ensures Prev(p) == p
  {
  }

  /** Within the first three seconds, `prevTrack` moves the cursor one step back around the
      list; from "no track" it goes to the last. */
  lemma {:induction false} PrevIndex(p: Playback)
    requires CursorInRange(p) && |p.tracks| > 0 && p.position <= 3
    ensures Prev(p).index == if p.index == -1 then |p.tracks| - 1 else (p.index + |p.tracks| - 1) % |p.tracks|
    ensures Prev(p).tracks == p.tracks
  {
    var n := |p.tracks|;
    if p.index >= 1 {
      Bits.DivUnique(p.index + n - 1, n, 1, p.index - 1);
    } else if p.index == 0 {
      Bits.DivUnique(n - 1, n, 0, n - 1);
    }
  }

  /** Later than three seconds, `prevTrack` only rewinds. */
  lemma PrevRewinds(p: Playback)
    requires |p.tracks| > 0 && p.position > 3
    ensures Prev(p) == p.(position := 0)
  {
  }

  /** Going forward and back returns to the same track when the next track has audio (so
      that it starts at position 0). */
  lemma {:induction false} NextThenPrev(p: Playback)
    requires CursorInRange(p) && |p.tracks| > 0 && p.index >= 0
    requires p.tracks[(p.index + 1) % |p.tracks|].audio != ""
    ensures Prev(Next(p)).index == p.index
  {
    var n := |p.tracks|;
    NextIndex(p);
    var q := Next(p);
    assert q.position == 0;
    PrevIndex(q);
    if p.index + 1 < n {
      assert q.index == p.index + 1;
      assert (q.index + n - 1) % n == p.index by {
        assert q.index + n - 1 == p.index + n;
      }
    } else {
      assert q.index == 0;
    }
  }

  /** `nextTrack` applied `k` times. */
  function Advance(p: Playback, k: nat): Playback {
    if k == 0 then p else Next(Advance(p, k - 1))
  }

  lemma ModStep(a: nat, n: nat)
    requires n > 0
    ensures (a % n + 1) % n == (a + 1) % n
  {
    var q, r := a / n, a % n;
    assert a == q * n + r;
    if r + 1 < n {
      Bits.DivUnique(a + 1, n, q, r + 1);
    } else {
      assert a + 1 == (q + 1) * n + 0;
      Bits.DivUnique(a + 1, n, q + 1, 0);
    }
  }

  /** `k` steps forward from track `i` land on track `(i + k) % n`: after `n` steps the
      player is back where it started. */
  lemma {:induction false} AdvanceIndex(p: Playback, k: nat)
    requires |p.tracks| > 0 && 0 <= p.index < |p.tracks|
    ensures Advance(p, k).tracks == p.tracks
    ensures Advance(p, k).index == (p.index + k) % |p.tracks|
  {
    if k > 0 {
      AdvanceIndex(p, k - 1);
      var q := Advance(p, k - 1);
      NextIndex(q);
      ModStep(p.index + k - 1, |p.tracks|);
    } else {
      assert p.index % |p.tracks| == p.index;
    }
  }

  /** `togglePlay` twice is no change, except when the first call starts the first track. */
  lemma PlayPauseTwice(p: Playback)
    requires !(p.index == -1 && |p.tracks| > 0)
    ensures PlayPause(PlayPause(p)) == p
  {
  }

  /** `toggleRepeat` keeps the audio element's `loop` equal to `isRepeat`, and twice is no
      change. */
  lemma RepeatToggles(p: Playback)
    ensures FlipRepeat(p).loop == FlipRepeat(p).repeat == !p.repeat
    ensures p.loop == p.repeat ==> FlipRepeat(FlipRepeat(p)) == p
  {
  }

  /** At the end of a track the player advances exactly when repeat is off. */
  lemma {:induction false} TrackEndIndex(p: Playback)
    requires CursorInRange(p) && |p.tracks| > 0
    ensures TrackEnd(p).index == if p.repeat then p.index else (p.index + 1) % |p.tracks|
  {
    if !p.repeat {
      NextIndex(p);
    }
  }

  /** Every playback handler keeps the cursor in range. */
  lemma {:induction false} HandlersKeepCursor(p: Playback)
    requires CursorInRange(p)
    ensures CursorInRange(PlayPause(p)) && CursorInRange(Next(p)) && CursorInRange(Prev(p))
    ensures CursorInRange(FlipRepeat(p)) && CursorInRange(TrackEnd(p))
  {
    if |p.tracks| > 0 {
      PlayBounds(p, 0);
      NextIndex(p);
      if p.position <= 3 {
        PrevIndex(p);
      }
    }
  }

  /** So do likes, tab switches and row clicks. */
  lemma {:induction false} EditsKeepCursor(p: Playback, id: string, tab: string, row: int)
    requires CursorInRange(p)
    ensures CursorInRange(Like(p, id)) && CursorInRange(p.(tab := tab))
    ensures CursorInRange(Click(p, row)) && CursorInRange(ClickIntended(p, row))
  {
    PlayBounds(p, row);
    PlayBounds(p, RowTarget(p.tracks, p.tab, row));
  }

  /** As written, a click on a visible row selects the track at that position of the whole
      list. On the "all" tab that is the track the row shows; on the liked tab it need not
      be (`RowTargetMismatch`). */
  lemma {:induction false} ClickSelects(p: Playback, row: int)
    requires 0 <= row < |Visible(p.tracks, p.tab)|
    ensures 0 <= row < |p.tracks| && Click(p, row).index == row
    ensures p.tab != LikedTab ==> p.tracks[row] == Visible(p.tracks, p.tab)[row]
  {
    PlayBounds(p, row);
  }

  /** With the intended mapping, a click on a visible row selects the track the row shows. */
  lemma {:induction false} ClickIntendedSelects(p: Playback, row: int)
    requires 0 <= row < |Visible(p.tracks, p.tab)|
    ensures 0 <= ClickIntended(p, row).index < |p.tracks|
    ensures p.tracks[ClickIntended(p, row).index] == Visible(p.tracks, p.tab)[row]
  {
    PlayBounds(p, RowTarget(p.tracks, p.tab, row));
  }

  /** A like changes one track's flag and nothing about playback. */
  lemma LikeKeepsPlayback(p: Playback, id: string)
    ensures Like(p, id).(tracks := p.tracks) == p
    ensures Like(Like(p, id), id) == p
  {
    ToggleTwice(p.tracks, id);
  }

  // ---- The demo list ----

  /** The cover image of a demo track: an SVG data URL with a coloured square and a glyph. */
  function DemoCover(colour: string, glyph: string): string {
    // The literal is split into short pieces, which keeps the verifier's reasoning about
    // it cheap.
    "data:image/svg+xml," + "<svg xmlns=\"http://" + "www.w3.org/2000/svg\"" + " width=\"100\""
    + " height=\"100\">" + "<rect fill=\"%23" + colour + "\" width=\"100\"" + " height=\"100\"/>"
    + "<text x=\"50\" y=\"55\"" + " text-anchor=\"middle\"" + " fill=\"white\""
    + " font-size=\"40\">" + glyph + "</text></svg>"
  }

  /** `loadDemoTracks`: three tracks without audio, the first and the last liked. */
  function DemoTracks(): seq<Track> {
    [Track("demo1", "Electric Dreams", "Suno AI", DemoCover("7c3aed", "\U{1F3B5}"), "", 180, true, None),
     Track("demo2", "Neon Nights", "Suno AI", DemoCover("ec4899", "\U{1F3B6}"), "", 210, false, None),
     Track("demo3", "Synthwave Sunset", "Suno AI", DemoCover("10b981", "\U{1F3B9}"), "", 195, true, None)]
  }

  /** No demo track has audio, so choosing one never starts playback; the liked tab shows
      the first and the third. */
  lemma DemoList(p: Playback, i: int)
    requires p.tracks == DemoTracks()
    ensures Play(p, i).playing == p.playing
    ensures Liked(DemoTracks()) == [DemoTracks()[0], DemoTracks()[2]]
  {
    var d := DemoTracks();
    assert d[..2][..1] == [d[0]] && d[..2][..1][..0] == [];
    assert d[..2] == d[..2][..1] + [d[1]];
  }

  // ---- The player object ----

  class SunoPlayer {
    var tracks: seq<Track>
    var currentTrackIndex: int
    var isPlaying: bool
    var isRepeat: bool
    var currentTab: string
    var audioSrc: string
    var audioLoop: bool
    var currentTime: int
    var isAuthenticated: bool
    var authToken: Option<string>
    /** The `suno_auth` entry of local storage. */
    var savedAuth: SavedAuth

    function State(): Playback
      reads this
    {
      Playback(tracks, currentTrackIndex, isPlaying, isRepeat, currentTab, audioSrc, audioLoop, currentTime)
    }

    /** `new SunoPlayer()`, whose `init` runs `checkAuth` against the stored entry at time
        `now`. Loading the tracks that follows a successful check is `LoadTracks`. */
    constructor (saved: SavedAuth, now: int)
      ensures State() == Initial && savedAuth == saved
      ensures isAuthenticated == AcceptedToken(saved, now).Some?
      ensures authToken == AcceptedToken(saved, now)
    {
      tracks := [];
      currentTrackIndex := -1;
      isPlaying := false;
      isRepeat := false;
      currentTab := "all";
      audioSrc := "";
      audioLoop := false;
      currentTime := 0;
      savedAuth := saved;
      var token := AcceptedToken(saved, now);
      isAuthenticated := token.Some?;
      authToken := token;
    }

    method PlayTrack(index: int)
      modifies this
      ensures State() == Play(old(State()), index)
      ensures unchanged(this`isAuthenticated, this`authToken, this`savedAuth)
    {
      if index < 0 || index >= |tracks| {
        return;
      }
      var track := tracks[index];
      currentTrackIndex := index;
      if track.audio != "" {
        audioSrc := track.audio;
        currentTime := 0;
        isPlaying := true;
      }
    }

    method TogglePlay()
      modifies this
      ensures State() == PlayPause(old(State()))
      ensures unchanged(this`isAuthenticated, this`authToken, this`savedAuth)
    {
      if currentTrackIndex == -1 && |tracks| > 0 {
        PlayTrack(0);
        return;
      }
      isPlaying := !isPlaying;
    }

    method NextTrack()
      modifies this
      ensures State() == Next(old(State()))
      ensures unchanged(this`isAuthenticated, this`authToken, this`savedAuth)
    {
      if |tracks| == 0 {
        return;
      }
      var nextIndex := currentTrackIndex + 1;
      if nextIndex >= |tracks| {
        nextIndex := 0;
      }
      PlayTrack(nextIndex);
    }

    method PrevTrack()
      modifies this
      ensures State() == Prev(old(State()))
      ensures unchanged(this`isAuthenticated, this`authToken, this`savedAuth)
    {
      if |tracks| == 0 {
        return;
      }
      if currentTime > 3 {
        currentTime := 0;
        return;
      }
      var prevIndex := currentTrackIndex - 1;
      if prevIndex < 0 {
        prevIndex := |tracks| - 1;
      }
      PlayTrack(prevIndex);
    }

    method ToggleRepeat()
      modifies this
      ensures State() == FlipRepeat(old(State()))
      ensures unchanged(this`isAuthenticated, this`authToken, this`savedAuth)
    {
      isRepeat := !isRepeat;
      audioLoop := isRepeat;
    }

    method OnTrackEnd()
      modifies this
      ensures State() == TrackEnd(old(State()))
      ensures unchanged(this`isAuthenticated, this`authToken, this`savedAuth)
    {
      if !isRepeat {
        NextTrack();
      }
    }

    method ToggleLike(trackId: string)
      modifies this
      ensures State() == Like(old(State()), trackId)
      ensures unchanged(this`isAuthenticated, this`authToken, this`savedAuth)
    {
      tracks := Tracks.ToggleLike(tracks, trackId);
    }

    /** `switchTab(tab)`. */
    method SwitchTab(tab: string)
      modifies this
      ensures State() == old(State()).(tab := tab)
      ensures unchanged(this`isAuthenticated, this`authToken, this`savedAuth)
    {
      currentTab := tab;
    }

    /** The click handler of a rendered row: `playTrack(parseInt(item.dataset.index))`,
        where the index is the row's position in the visible list. */
    method ClickRow(row: int)
      modifies this
      ensures State() == Click(old(State()), row)
      ensures unchanged(this`isAuthenticated, this`authToken, this`savedAuth)
    {
      PlayTrack(row);
    }

    /** The audio element reports a new position (playback progress or a seek). */
    method SetCurrentTime(t: int)
      modifies this
      ensures State() == old(State()).(position := t)
      ensures unchanged(this`isAuthenticated, this`authToken, this`savedAuth)
    {
      currentTime := t;
    }

    /** `loadTracks`, given what the feed request produced: the feed's records, or `None`
        when the request failed, in which case the demo list is shown. */
    method LoadTracks(fetched: Option<seq<RawTrack>>)
      modifies this
      ensures State() == old(State()).(tracks := if fetched.Some? then FormatTracks(fetched.value) else DemoTracks())
      ensures unchanged(this`isAuthenticated, this`authToken, this`savedAuth)
    {
      if fetched.Some? {
        tracks := FormatTracks(fetched.value);
      } else {
        tracks := DemoTracks();
      }
    }

    /** `checkAuthComplete(url)` at time `now`, with the names the preload bridge exposes
        and the answer the main process would give to `getCookies` (`None` when reading the
        store fails): a captured session cookie becomes the token and is stored with an
        expiry one week ahead. */
    method CheckAuthComplete(url: string, bridge: set<string>, answer: Option<seq<Cookie>>, now: int)
      modifies this
      ensures State() == old(State())
      ensures var token := CapturedToken(url, BridgeCookies(bridge, answer));
              if token.Some? then
                authToken == token && isAuthenticated && savedAuth == Entry(SessionRecord(token.value, now))
              else
                unchanged(this`isAuthenticated, this`authToken, this`savedAuth)
    {
      var cookies := BridgeCookies(bridge, answer);
      var token := CapturedToken(url, cookies);
      if token.Some? {
        authToken := token;
        savedAuth := Entry(SessionRecord(token.value, now));
        isAuthenticated := true;
      }
    }

    /** `logout`: the stored session and the token go, and so does the list; the cursor and
        the rest of the playback state stay as they were. */
    method Logout()
      modifies this
      ensures State() == old(State()).(tracks := [])
      ensures savedAuth == NoEntry && !isAuthenticated && authToken == None
    {
      savedAuth := NoEntry;
      isAuthenticated := false;
      authToken := None;
      tracks := [];
    }
  }

  /** After a logout the cursor can point past the (now empty) list. */
  lemma LogoutLeavesCursor(p: Playback)
    requires p.index >= 0
    ensures !CursorInRange(p.(tracks := []))
  {
  }
}
