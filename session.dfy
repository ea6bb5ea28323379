/** The renderer's own session record (`checkAuth` and `checkAuthComplete` in
    `src/renderer/app.js`): a token and an expiry time kept in local storage under
    `suno_auth`. Clock readings and the outcome of reading the storage are inputs. */
module Session {
  import opened Wrappers
  import opened Text
  import opened Cookies

  /** Seven days in milliseconds. */
  const WeekMs: int := 7 * 24 * 60 * 60 * 1000

  /** The object stored under `suno_auth`. */
  datatype StoredAuth = StoredAuth(token: Option<string>, expiry: Option<int>)

  /** What reading `suno_auth` gives: no entry (or an empty one), an entry that does not
      parse as an object, or the parsed object. */
  datatype SavedAuth = NoEntry | Unreadable | Entry(auth: StoredAuth)

  /** `checkAuth`: the saved token, when there is one and its expiry lies after `now`. */
  function AcceptedToken(saved: SavedAuth, now: int): (r: Option<string>)
    ensures r.Some? <==> saved.Entry? && saved.auth.token.Some? && saved.auth.token.value != ""
                         && saved.auth.expiry.Some? && saved.auth.expiry.value > now
    ensures r.Some? ==> r == saved.auth.token
  {
    match saved
    case Entry(StoredAuth(Some(token), Some(expiry))) =>
      if token != "" && expiry > now then Some(token) else None
    case _ => None
  }

  /** The record `checkAuthComplete` stores for a captured token. */
  function SessionRecord(token: string, now: int): StoredAuth {
    StoredAuth(Some(token), Some(now + WeekMs))
  }

  lemma WeekValue()
    ensures WeekMs == 604_800_000
  {
  }

  /** A captured session is accepted for one week after it was stored, and not from then
      on. */
  lemma SessionLifetime(token: string, now: int, later: int)
    requires token != ""
    ensures AcceptedToken(Entry(SessionRecord(token, now)), later)
            == if later < now + WeekMs then Some(token) else None
  {
  }

  /** A page that `checkAuthComplete` treats as signed in: on suno.com and not a sign-in
      or sign-up page. */
  predicate SignedInPage(url: string) {
    Contains(url, "suno.com") && !Contains(url, "sign-in") && !Contains(url, "sign-up")
  }

  predicate SessionCookie(c: Cookie) {
    Contains(c.name, "__session") || Contains(c.name, "__client")
  }

  /** `cookies.find(c => ...)` for the session cookie, as an index. */
  function FindSessionCookie(cookies: seq<Cookie>): (r: Option<nat>)
    ensures r.Some? ==> r.value < |cookies| && SessionCookie(cookies[r.value])
                        && forall j :: 0 <= j < r.value ==> !SessionCookie(cookies[j])
    ensures r.None? ==> forall j :: 0 <= j < |cookies| ==> !SessionCookie(cookies[j])
  {
    if cookies == [] then None
    else if SessionCookie(cookies[0]) then Some(0)
    else
      var rest := FindSessionCookie(cookies[1..]);
      if rest.Some? then Some(rest.value + 1) else None
  }

  /** The token `checkAuthComplete` captures after a navigation to `url`, given the cookies
      the main process returned (`None` when asking for them failed): the value of the
      first session cookie. */
  function CapturedToken(url: string, cookies: Option<seq<Cookie>>): (r: Option<string>)
    ensures r.Some? ==> SignedInPage(url) && cookies.Some?
                        && exists j :: 0 <= j < |cookies.value| && SessionCookie(cookies.value[j])
                                       && (forall i :: 0 <= i < j ==> !SessionCookie(cookies.value[i]))
                                       && cookies.value[j].value == r.value
    ensures r.None? ==> !SignedInPage(url) || cookies.None?
                        || forall j :: 0 <= j < |cookies.value| ==> !SessionCookie(cookies.value[j])
  {
    if SignedInPage(url) && cookies.Some? then
      var i := FindSessionCookie(cookies.value);
      if i.Some? then Some(cookies.value[i.value].value) else None
    else None
  }

  // ---- The preload bridge ----

  /** The names `src/preload.js` puts on `window.electronAPI`. */
  const ShippedBridge: set<string> :=
    {"minimize", "maximize", "close", "openAuthWindow", "checkAuth", "logout", "apiRequest",
     "onTrayTogglePlay", "onThumbarPrev", "onThumbarPlayPause", "onThumbarNext",
     "onTokenExpiringSoon", "onTokenExpired", "notifyPlaybackState"}

  /** The bridge with the `getCookies` entry that forwards `get-suno-cookies`. */
  const IntendedBridge: set<string> := ShippedBridge + {"getCookies"}

  /** `await window.electronAPI?.getCookies()` inside the `try` of `checkAuthComplete`, where
      `answer` is what the main process returns (`None` when reading the store fails). On a
      bridge without `getCookies` the call throws a `TypeError`, and the `catch` leaves
      nothing to look at. */
  function BridgeCookies(bridge: set<string>, answer: Option<seq<Cookie>>): (r: Option<seq<Cookie>>)
    ensures "getCookies" !in bridge ==> r.None?
    ensures "getCookies" in bridge ==> r == answer
  {
    if "getCookies" in bridge then answer else None
  }

  /** With the bridge as shipped no navigation captures a token, whatever the main process
      would have answered. */
  lemma ShippedBridgeNeverCaptures(url: string, answer: Option<seq<Cookie>>)
    ensures "getCookies" !in ShippedBridge
    ensures CapturedToken(url, BridgeCookies(ShippedBridge, answer)).None?
  {
    assert "getCookies" !in ShippedBridge;
  }

  /** With the intended bridge a signed-in page and a session cookie in the main process's
      answer capture the first such cookie's value. */
  lemma IntendedBridgeCaptures(url: string, cookies: seq<Cookie>, j: nat)
    requires SignedInPage(url)
    requires j < |cookies| && SessionCookie(cookies[j])
    requires forall i :: 0 <= i < j ==> !SessionCookie(cookies[i])
    ensures "getCookies" in IntendedBridge
    ensures CapturedToken(url, BridgeCookies(IntendedBridge, Some(cookies))) == Some(cookies[j].value)
  {
    assert "getCookies" in IntendedBridge;
    var r := CapturedToken(url, Some(cookies));
    assert r.Some?;
    var k :| 0 <= k < |cookies| && SessionCookie(cookies[k])
             && (forall i :: 0 <= i < k ==> !SessionCookie(cookies[i])) && cookies[k].value == r.value;
    assert !(k < j) && !(j < k);
  }
}
