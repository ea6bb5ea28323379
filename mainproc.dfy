/** The rules of the Electron main process: the headers of an API request (the cookie
    string and the `browser-token`), the attributes of the cookies it copies or sets, the
    test that ends a sign-in, the `check-auth` answer and the classification of API
    responses; and the state its handlers share (the sign-in window slot and the two
    cookie stores). */
module MainProcess {
  import opened Wrappers
  import opened Text
  import opened Cookies
  import opened Bytes
  import Base64

  const SunoUrl := "https://suno.com"
  const SunoApiUrl := "https://studio-api.prod.suno.com"
  const ClerkUrl := "https://clerk.suno.com"

  // ---- The cookie header of an API request ----

  /** `${c.name}=${c.value}`. */
  function CookiePair(c: Cookie): string {
    c.name + "=" + c.value
  }

  function Pairs(cs: seq<Cookie>): (r: seq<string>)
    ensures |r| == |cs|
  {
    seq(|cs|, i requires 0 <= i < |cs| => CookiePair(cs[i]))
  }

  lemma PairsAppend(a: seq<Cookie>, b: seq<Cookie>)
    ensures Pairs(a + b) == Pairs(a) + Pairs(b)
  {
    assert forall i :: 0 <= i < |a| + |b| ==> Pairs(a + b)[i] == (Pairs(a) + Pairs(b))[i];
  }

  /** The cookies of suno.com, of the API host and of the Clerk host, in that order, as
      `name=value` pairs joined by `; `. */
  function CookieString(suno: seq<Cookie>, api: seq<Cookie>, clerk: seq<Cookie>): string {
    Join(Pairs(suno + api + clerk), "; ")
  }

  /** The `Cookie` header: set only when the cookie string is not empty. */
  function CookieHeader(suno: seq<Cookie>, api: seq<Cookie>, clerk: seq<Cookie>): Option<string> {
    var s := CookieString(suno, api, clerk);
    if s != "" then Some(s) else None
  }

  /** Every pair holds at least its `=`, so the header is sent exactly when there is a
      cookie at all. */
  lemma {:induction false} CookieHeaderPresent(suno: seq<Cookie>, api: seq<Cookie>, clerk: seq<Cookie>)
    ensures CookieHeader(suno, api, clerk).Some? <==> suno + api + clerk != []
  {
    var parts := Pairs(suno + api + clerk);
    forall k | 0 <= k < |parts|
      ensures parts[k] != ""
    {
      assert |parts[k]| > |(suno + api + clerk)[k].name|;
    }
    JoinEmpty(parts, "; ");
  }

  /** With cookies in all three stores, the suno.com pairs come first, then those of the
      API host, then those of the Clerk host, one `; ` between the groups. */
  lemma {:induction false} CookieOrder(suno: seq<Cookie>, api: seq<Cookie>, clerk: seq<Cookie>)
    requires suno != [] && api != [] && clerk != []
    ensures CookieString(suno, api, clerk)
            == Join(Pairs(suno), "; ") + "; " + Join(Pairs(api), "; ") + "; " + Join(Pairs(clerk), "; ")
  {
    PairsAppend(suno + api, clerk);
    PairsAppend(suno, api);
    JoinAppend(Pairs(suno) + Pairs(api), Pairs(clerk), "; ");
    JoinAppend(Pairs(suno), Pairs(api), "; ");
  }

  lemma OneCookie(c: Cookie)
    ensures CookieString([c], [], []) == c.name + "=" + c.value
  {
    assert [c] + [] + [] == [c];
  }

  // ---- The browser token ----

  predicate IsAscii(s: string) {
    forall k :: 0 <= k < |s| ==> s[k] as int < 128
  }

  /** Bytes read back as characters of the same codes. */
  function ByteChars(b: seq<byte>): (r: string)
    ensures |r| == |b|
  {
    seq(|b|, i requires 0 <= i < |b| => b[i] as char)
  }

  lemma AsciiChars(s: string)
    requires IsAscii(s)
    ensures ByteChars(Ascii(s)) == s
  {
    assert forall i :: 0 <= i < |s| ==> ByteChars(Ascii(s))[i] == s[i];
  }

  const StampOpen := "{\"timestamp\":"
  const StampClose := "}"
  const TokenOpen := "{\"token\":\""
  const TokenClose := "\"}"

  /** `JSON.stringify({ timestamp: now })` for a time in whole milliseconds. */
  function TimestampJson(now: nat): string {
    StampOpen + NatToString(now) + StampClose
  }

  lemma TimestampAscii(now: nat)
    ensures IsAscii(TimestampJson(now))
  {
    var d := NatToString(now);
    assert forall i :: 0 <= i < |d| ==> IsDigit(d[i]);
  }

  /** The `browser-token` header: the base 64 text of the timestamp JSON (`Buffer.from`
      of an ASCII text is its character codes) inside
      `{"token":"` and `"}`. */
  function BrowserToken(now: nat): string {
    TimestampAscii(now);
    TokenOpen + Base64.Encode(Ascii(TimestampJson(now))) + TokenClose
  }

  /** The text between `open` and `close`, when `s` starts and ends with them. */
  function Unwrap(s: string, open: string, close: string): Option<string> {
    if |s| >= |open| + |close| && s[..|open|] == open && s[|s| - |close|..] == close
    then Some(s[|open|..|s| - |close|])
    else None
  }

  lemma UnwrapWrap(open: string, mid: string, close: string)
    ensures Unwrap(open + mid + close, open, close) == Some(mid)
  {
    var s := open + mid + close;
    assert s[..|open|] == open && s[|s| - |close|..] == close && s[|open|..|s| - |close|] == mid;
  }

  /** The time written in a timestamp JSON. */
  function ReadTimestamp(json: string): Option<nat> {
    var d := Unwrap(json, StampOpen, StampClose);
    if d.Some? && d.value != "" && AllDigits(d.value) then Some(DigitsValue(d.value)) else None
  }

  /** The time a `browser-token` header carries. */
  function ReadBrowserToken(header: string): Option<nat> {
    var t := Unwrap(header, TokenOpen, TokenClose);
    if t.None? then None
    else
      var b := Base64.Decode(t.value);
      if b.None? then None else ReadTimestamp(ByteChars(b.value))
  }

  /** The header carries exactly the time it was made at. */
  lemma {:induction false} BrowserTokenRoundTrip(now: nat)
    ensures ReadBrowserToken(BrowserToken(now)) == Some(now)
  {
    var json := TimestampJson(now);
    TimestampAscii(now);
    var bytes := Ascii(json);
    UnwrapWrap(TokenOpen, Base64.Encode(bytes), TokenClose);
    Base64.DecodeEncode(bytes);
    AsciiChars(json);
    UnwrapWrap(StampOpen, NatToString(now), StampClose);
    NatToStringRoundTrip(now);
  }

  // ---- API requests ----

  datatype Header = Header(name: string, value: string)

  /** The headers of an API request made at time `now`. */
  function RequestHeaders(suno: seq<Cookie>, api: seq<Cookie>, clerk: seq<Cookie>, now: nat): seq<Header> {
    var fixed := [
      Header("Accept", "application/json"),
      Header("Content-Type", "application/json"),
      Header("Origin", SunoUrl),
      Header("Referer", SunoUrl + "/"),
      Header("browser-token", BrowserToken(now))];
    var cookie := CookieHeader(suno, api, clerk);
    if cookie.Some? then fixed + [Header("Cookie", cookie.value)] else fixed
  }

  /** A `Cookie` header is among the headers exactly when there is a cookie, and then it
      holds the cookie string; the `browser-token` header holds the token of `now`. */
  lemma {:induction false} RequestHeadersShape(suno: seq<Cookie>, api: seq<Cookie>, clerk: seq<Cookie>, now: nat)
    ensures var hs := RequestHeaders(suno, api, clerk, now);
            (exists i :: 0 <= i < |hs| && hs[i].name == "Cookie") <==> suno + api + clerk != []
    ensures var hs := RequestHeaders(suno, api, clerk, now);
            forall i :: 0 <= i < |hs| && hs[i].name == "Cookie" ==> hs[i].value == CookieString(suno, api, clerk)
    ensures Header("browser-token", BrowserToken(now)) in RequestHeaders(suno, api, clerk, now)
  {
    CookieHeaderPresent(suno, api, clerk);
    var hs := RequestHeaders(suno, api, clerk, now);
    assert hs[0].name == "Accept" && hs[1].name == "Content-Type" && hs[2].name == "Origin";
    assert hs[3].name == "Referer" && hs[4].name == "browser-token";
    if suno + api + clerk != [] {
      assert hs[5].name == "Cookie";
    }
  }

  /** What the request brought: a response (status code and body chunks), an error of the
      request, or an error before the request was made. Each chunk is the text that
      `chunk.toString()` gives for it: the UTF-8 decoding of one chunk on its own. */
  datatype Transport =
    | Response(status: int, chunks: seq<string>)
    | RequestError(message: string)
    | SetupError(message: string)

  datatype ApiResult<J> = Ok(data: J) | Failed(error: string)

  const InvalidJson := "Invalid JSON response"

  /** The chunks of a response body, in order. */
  function Concat(chunks: seq<string>): string {
    if chunks == [] then "" else Concat(chunks[..|chunks| - 1]) + chunks[|chunks| - 1]
  }

  lemma {:induction false} ConcatAppend(a: seq<string>, b: seq<string>)
    ensures Concat(a + b) == Concat(a) + Concat(b)
  {
    if b != [] {
      assert (a + b)[..|a + b| - 1] == a + b[..|b| - 1];
      ConcatAppend(a, b[..|b| - 1]);
    } else {
      assert a + b == a;
    }
  }

  /** The result the renderer receives, `parse` standing for `JSON.parse` (`None` when it
      throws). */
  function Classify<J>(t: Transport, parse: string -> Option<J>): ApiResult<J> {
    match t
    case Response(_, chunks) =>
      var json := parse(Concat(chunks));
      if json.Some? then Ok(json.value) else Failed(InvalidJson)
    case RequestError(m) => Failed(m)
    case SetupError(m) => Failed(m)
  }

  /** The response is accepted exactly when its body parses, whatever its status; every
      failure says why. */
  lemma ClassifyOutcome<J>(t: Transport, parse: string -> Option<J>)
    ensures Classify(t, parse).Ok? <==> t.Response? && parse(Concat(t.chunks)).Some?
    ensures Classify(t, parse).Ok? ==> Classify(t, parse).data == parse(Concat(t.chunks)).value
    ensures t.Response? && parse(Concat(t.chunks)).None? ==> Classify(t, parse) == Failed(InvalidJson)
    ensures !t.Response? ==> Classify(t, parse) == Failed(t.message)
  {
  }

  lemma StatusIgnored<J>(s1: int, s2: int, chunks: seq<string>, parse: string -> Option<J>)
    ensures Classify(Response(s1, chunks), parse) == Classify(Response(s2, chunks), parse)
  {
  }

  /** Once each chunk is decoded, how the decoded texts are divided among the chunks does
      not change the result. (A UTF-8 sequence cut between two chunks is decoded as two
      replacement characters before this point.) */
  lemma {:induction false} ChunkingIrrelevant<J>(status: int, a: seq<string>, x: string, y: string,
                                                 b: seq<string>, parse: string -> Option<J>)
    ensures Classify(Response(status, a + [x + y] + b), parse) == Classify(Response(status, a + [x, y] + b), parse)
  {
    ConcatAppend(a + [x + y], b);
    ConcatAppend(a, [x + y]);
    ConcatAppend(a + [x, y], b);
    ConcatAppend(a, [x, y]);
    assert [x, y][..1] == [x];
    assert [x + y][..0] == [] && [x][..0] == [];
    assert Concat([x + y]) == x + y;
    assert Concat([x, y]) == x + y;
    assert Concat(a + [x + y] + b) == Concat(a + [x, y] + b);
  }

  /** The `api-request` handler: the headers it sets, then the body gathered chunk by chunk
      and classified. */
  method ApiRequest<J>(suno: seq<Cookie>, api: seq<Cookie>, clerk: seq<Cookie>, now: nat,
                       t: Transport, parse: string -> Option<J>)
      returns (headers: seq<Header>, r: ApiResult<J>)
    ensures headers == RequestHeaders(suno, api, clerk, now)
    ensures r == Classify(t, parse)
  {
    headers := [
      Header("Accept", "application/json"),
      Header("Content-Type", "application/json"),
      Header("Origin", SunoUrl),
      Header("Referer", SunoUrl + "/"),
      Header("browser-token", BrowserToken(now))];
    var cookie := CookieString(suno, api, clerk);
    if cookie != "" {
      headers := headers + [Header("Cookie", cookie)];
    }
    match t
    case SetupError(m) => r := Failed(m);
    case RequestError(m) => r := Failed(m);
    case Response(_, chunks) =>
      var data := "";
      var i := 0;
      while i < |chunks|
        invariant 0 <= i <= |chunks|
        invariant data == Concat(chunks[..i])
      {
        assert chunks[..i + 1][..i] == chunks[..i];
        data := data + chunks[i];
        i := i + 1;
      }
      assert chunks[..i] == chunks;
      var json := parse(data);
      if json.Some? {
        r := Ok(json.value);
      } else {
        r := Failed(InvalidJson);
      }
  }

  // ---- Sign-in ----

  /** The sign-in window has reached a page of a signed-in user. */
  predicate LoginFinished(url: string) {
    Contains(url, "suno.com/create") || Contains(url, "suno.com/home")
    || url == "https://suno.com/" || url == SunoUrl
  }

  /** The page the sign-in window starts on already counts as signed in. */
  lemma StartPageFinishes()
    ensures LoginFinished(SunoUrl)
  {
  }

  /** The test the comments beside it describe: a page under `/create` or `/home`, which
      a user reaches only after signing in. */
  predicate SignInCompleted(url: string) {
    Contains(url, "suno.com/create") || Contains(url, "suno.com/home")
  }

  /** A text that starts with "https:" and has fewer than nine more characters after
      that prefix does not contain a text that starts with "suno.com". */
  lemma NotContainedEarly(s: string, sub: string)
    requires 6 <= |s| < |sub| + 6 && s[..6] == "https:"
    requires 2 <= |sub| && sub[..2] == "su"
    ensures forall i: nat :: !OccursAt(s, sub, i)
  {
    forall i: nat | i + |sub| <= |s|
      ensures !OccursAt(s, sub, i)
    {
      assert i < 6 && s[i] == s[..6][i];
      if i == 4 {
        assert s[i + 1] == s[..6][5] == ':';
        assert s[i..i + |sub|][1] != sub[1];
      } else {
        assert s[i..i + |sub|][0] != sub[0];
      }
    }
  }

  /** The intended test does not accept the start page of the sign-in window, with or
      without its slash, which the test as written accepts. */
  lemma SignInSkipsStartPage(url: string)
    requires url == SunoUrl || url == SunoUrl + "/"
    ensures LoginFinished(url) && !SignInCompleted(url)
  {
    assert url[..6] == "https:";
    NotContainedEarly(url, "suno.com/create");
    NotContainedEarly(url, "suno.com/home");
  }

  /** The intended test accepts every page under `/create` and `/home`, and every page it
      accepts the test as written accepts too. */
  lemma {:induction false} SignInPages(url: string, rest: string)
    ensures SignInCompleted(SunoUrl + "/create" + rest) && SignInCompleted(SunoUrl + "/home" + rest)
    ensures SignInCompleted(url) ==> LoginFinished(url)
  {
    LoginPages(rest);
  }

  /** Every page under `/create` or `/home` of suno.com counts. */
  lemma {:induction false} LoginPages(rest: string)
    ensures LoginFinished(SunoUrl + "/create" + rest)
    ensures LoginFinished(SunoUrl + "/home" + rest)
  {
    var c := SunoUrl + "/create" + rest;
    assert c[8..23] == "suno.com/create";
    assert OccursAt(c, "suno.com/create", 8);
    var h := SunoUrl + "/home" + rest;
    assert h[8..21] == "suno.com/home";
    assert OccursAt(h, "suno.com/home", 8);
  }

  /** An occurrence of a text is an occurrence of each of its prefixes. */
  lemma PrefixOccurs(s: string, long: string, short: string, i: nat)
    requires OccursAt(s, long, i) && short <= long
    ensures Contains(s, short)
  {
    assert s[i..i + |short|] == long[..|short|];
    assert OccursAt(s, short, i);
  }

  /** A finished sign-in is on suno.com: the start page or a path of it. */
  lemma {:induction false} LoginOnSuno(url: string)
    requires LoginFinished(url)
    ensures url == SunoUrl || Contains(url, "suno.com/")
  {
    if Contains(url, "suno.com/create") {
      var i: nat :| OccursAt(url, "suno.com/create", i);
      PrefixOccurs(url, "suno.com/create", "suno.com/", i);
    } else if Contains(url, "suno.com/home") {
      var i: nat :| OccursAt(url, "suno.com/home", i);
      PrefixOccurs(url, "suno.com/home", "suno.com/", i);
    } else if url != SunoUrl {
      assert url == "https://suno.com/";
      assert OccursAt(url, "suno.com/", 8);
    }
  }

  // ---- Cookie attributes ----

  /** What is handed to `cookies.set`. */
  datatype CookieDetails = CookieDetails(
    url: string,
    name: string,
    value: string,
    domain: string,
    path: string,
    secure: bool,
    httpOnly: bool,
    sameSite: Option<string>)

  /** `domain.replace(/^\./, '')`: one leading dot removed. */
  function StripLeadingDot(domain: string): string {
    if |domain| > 0 && domain[0] == '.' then domain[1..] else domain
  }

  /** The URL a copied cookie is set for. */
  function CopyUrl(domain: string): string {
    if Contains(domain, "suno") then "https://" + StripLeadingDot(domain) else SunoUrl
  }

  /** The attributes of a cookie copied from the sign-in session into the default one. */
  function CopyDetails(c: Cookie): CookieDetails {
    CookieDetails(CopyUrl(c.domain), c.name, c.value, c.domain, Or(c.path, "/"),
                  c.secure != Some(false), c.httpOnly == Some(true), Some(Or(c.sameSite, "lax")))
  }

  /** The cookie a store reports after `cookies.set(d)`. */
  function Stored(d: CookieDetails): Cookie {
    Cookie(d.name, d.value, d.domain, Some(d.path), Some(d.secure), Some(d.httpOnly), d.sameSite)
  }

  /** Copying a copied cookie again sets it with the same attributes. */
  lemma CopyIdempotent(c: Cookie)
    ensures CopyDetails(Stored(CopyDetails(c))) == CopyDetails(c)
  {
  }

  /** A copied cookie is secure unless it says it is not, HTTP-only only when it says so,
      and gets the path `/` and the same-site policy `lax` when it has none. */
  lemma CopyAttributes(c: Cookie)
    ensures !CopyDetails(c).secure <==> c.secure == Some(false)
    ensures CopyDetails(c).httpOnly <==> c.httpOnly == Some(true)
    ensures CopyDetails(c).path != "" && (Truthy(c.path) ==> CopyDetails(c).path == c.path.value)
    ensures !Truthy(c.path) ==> CopyDetails(c).path == "/"
    ensures !Truthy(c.sameSite) ==> CopyDetails(c).sameSite == Some("lax")
    ensures CopyDetails(c).name == c.name && CopyDetails(c).value == c.value && CopyDetails(c).domain == c.domain
  {
  }

  /** Dropping a leading dot keeps an occurrence of `suno`. */
  lemma {:induction false} StripKeepsSuno(domain: string)
    requires Contains(domain, "suno")
    ensures Contains(StripLeadingDot(domain), "suno")
  {
    if |domain| > 0 && domain[0] == '.' {
      var i: nat :| OccursAt(domain, "suno", i);
      assert i > 0;
      assert domain[1..][i - 1..i - 1 + 4] == domain[i..i + 4];
      assert OccursAt(domain[1..], "suno", i - 1);
    }
  }

  /** A copied cookie is always set for an `https` URL with `suno` in it. */
  lemma {:induction false} CopyUrlOnSuno(domain: string)
    ensures "https://" <= CopyUrl(domain) && Contains(CopyUrl(domain), "suno")
  {
    var u := CopyUrl(domain);
    if Contains(domain, "suno") {
      var d := StripLeadingDot(domain);
      StripKeepsSuno(domain);
      var i: nat :| OccursAt(d, "suno", i);
      assert u[8 + i..8 + i + 4] == d[i..i + 4];
      assert OccursAt(u, "suno", 8 + i);
    } else {
      assert OccursAt(u, "suno", 8);
    }
  }

  /** A domain with `suno` in it gives its own `https` URL. */
  lemma SunoDomain(domain: string, i: nat)
    requires OccursAt(domain, "suno", i)
    ensures CopyUrl(domain) == "https://" + StripLeadingDot(domain)
  {
  }

  lemma DottedDomain()
    ensures CopyUrl(".suno.com") == "https://suno.com"
  {
    SunoDomain(".suno.com", 1);
    assert StripLeadingDot(".suno.com") == "suno.com";
  }

  lemma ClerkDomain()
    ensures CopyUrl("clerk.suno.com") == "https://clerk.suno.com"
  {
    SunoDomain("clerk.suno.com", 6);
    assert StripLeadingDot("clerk.suno.com") == "clerk.suno.com";
  }

  /** The attributes of a cookie the renderer asks to set. `cookie.secure || true` is true
      whatever the cookie says. */
  function SetDetails(c: Cookie): CookieDetails {
    CookieDetails(SunoUrl, c.name, c.value, c.domain, Or(c.path, "/"), true, c.httpOnly == Some(true), None)
  }

  /** A cookie set by the renderer is always secure: its own `secure` is ignored. */
  lemma SetAlwaysSecure(c: Cookie, s: Option<bool>)
    ensures SetDetails(c).secure
    ensures SetDetails(c.(secure := s)) == SetDetails(c)
    ensures SetDetails(c).url == SunoUrl && SetDetails(c).name == c.name && SetDetails(c).value == c.value
  {
  }

  // ---- Cookie copying and setting ----

  /** The cookies the sign-in copy writes: every cookie's details, in order, except those
      the store refuses (`refuses` stands for `cookies.set` throwing). */
  function Copied(cs: seq<Cookie>, refuses: CookieDetails -> bool): seq<CookieDetails> {
    if cs == [] then []
    else
      var d := CopyDetails(cs[|cs| - 1]);
      Copied(cs[..|cs| - 1], refuses) + (if refuses(d) then [] else [d])
  }

  /** Everything written is the copy of a cookie the store accepted, and when the store
      refuses nothing, every cookie is written. */
  lemma {:induction false} CopiedFacts(cs: seq<Cookie>, refuses: CookieDetails -> bool)
    ensures |Copied(cs, refuses)| <= |cs|
    ensures forall d :: d in Copied(cs, refuses) ==> !refuses(d) && exists c :: c in cs && d == CopyDetails(c)
    ensures (forall i :: 0 <= i < |cs| ==> !refuses(CopyDetails(cs[i]))) ==> |Copied(cs, refuses)| == |cs|
  {
    if cs != [] {
      var init := cs[..|cs| - 1];
      CopiedFacts(init, refuses);
      forall d | d in Copied(init, refuses) ensures exists c :: c in cs && d == CopyDetails(c) {
        var c :| c in init && d == CopyDetails(c);
        assert c in cs;
      }
      if (forall i :: 0 <= i < |cs| ==> !refuses(CopyDetails(cs[i]))) {
        assert forall i :: 0 <= i < |init| ==> init[i] == cs[i];
      }
    }
  }

  /** The index of the first cookie the store refuses, or the number of cookies. */
  function FirstRefused(cs: seq<Cookie>, refuses: CookieDetails -> bool): (k: nat)
    ensures k <= |cs| && (k < |cs| ==> refuses(SetDetails(cs[k])))
    ensures forall j :: 0 <= j < k ==> !refuses(SetDetails(cs[j]))
  {
    if cs == [] then 0
    else if refuses(SetDetails(cs[0])) then 0
    else 1 + FirstRefused(cs[1..], refuses)
  }

  function SetAll(cs: seq<Cookie>): (r: seq<CookieDetails>)
    ensures |r| == |cs|
  {
    seq(|cs|, i requires 0 <= i < |cs| => SetDetails(cs[i]))
  }

  /** The slot of the sign-in window and the two cookie stores: the default session and the
      persistent `persist:suno` session the sign-in window uses. */
  class MainState {
    /** `authWindow !== null`. */
    var authWindowOpen: bool
    /** `authWindow.close()` was called and the window is on its way out. */
    var closing: bool
    /** Sign-in windows created so far. */
    var windowsCreated: nat
    /** Times an open sign-in window was brought to the front. */
    var focusCount: nat
    /** How the promise of the request that opened the window settled, if it has. */
    var loginOutcome: Option<bool>
    /** The cookies in the sign-in session. */
    var partitionCookies: seq<Cookie>
    /** The cookies written into the default session since it was last cleared. */
    var defaultCookies: seq<CookieDetails>

    constructor(partition: seq<Cookie>)
      ensures !authWindowOpen && !closing && windowsCreated == 0 && focusCount == 0
      ensures loginOutcome == None && partitionCookies == partition && defaultCookies == []
    {
      authWindowOpen := false;
      closing := false;
      windowsCreated := 0;
      focusCount := 0;
      loginOutcome := None;
      partitionCookies := partition;
      defaultCookies := [];
    }

    /** `open-auth-window`: with a window already open it is focused and the request
        settles at once with `false`; otherwise a window is opened and the request waits
        (`settled == None`). */
    method OpenAuthWindow() returns (settled: Option<bool>)
      modifies this
      ensures old(authWindowOpen) ==> settled == Some(false) && focusCount == old(focusCount) + 1
                                      && windowsCreated == old(windowsCreated) && loginOutcome == old(loginOutcome)
                                      && closing == old(closing)
      ensures !old(authWindowOpen) ==> settled == None && focusCount == old(focusCount)
                                       && windowsCreated == old(windowsCreated) + 1 && loginOutcome == None
                                       && !closing
      ensures authWindowOpen
      ensures partitionCookies == old(partitionCookies) && defaultCookies == old(defaultCookies)
    {
      if authWindowOpen {
        focusCount := focusCount + 1;
        settled := Some(false);
      } else {
        authWindowOpen := true;
        closing := false;
        windowsCreated := windowsCreated + 1;
        loginOutcome := None;
        settled := None;
      }
    }

    /** The loop of `did-navigate` that copies every cookie of the sign-in session into the
        default one, skipping those the store refuses. */
    method CopyCookies(refuses: CookieDetails -> bool)
      modifies this
      ensures defaultCookies == old(defaultCookies) + Copied(partitionCookies, refuses)
      ensures authWindowOpen == old(authWindowOpen) && closing == old(closing)
      ensures windowsCreated == old(windowsCreated) && focusCount == old(focusCount)
      ensures loginOutcome == old(loginOutcome) && partitionCookies == old(partitionCookies)
    {
      var all := partitionCookies;
      var i := 0;
      while i < |all|
        invariant 0 <= i <= |all| && all == partitionCookies
        invariant defaultCookies == old(defaultCookies) + Copied(all[..i], refuses)
        invariant authWindowOpen == old(authWindowOpen) && closing == old(closing)
        invariant windowsCreated == old(windowsCreated) && focusCount == old(focusCount)
        invariant loginOutcome == old(loginOutcome) && partitionCookies == old(partitionCookies)
      {
        assert all[..i + 1][..i] == all[..i];
        var d := CopyDetails(all[i]);
        if !refuses(d) {
          defaultCookies := defaultCookies + [d];
        }
        i := i + 1;
      }
      assert all[..i] == all;
    }

    /** `did-navigate` of the sign-in window: on a signed-in page the cookies are copied,
        the window is asked to close and the request settles with `true` unless it already
        has; any other page changes nothing. */
    method Navigated(url: string, refuses: CookieDetails -> bool)
      requires authWindowOpen
      modifies this
      ensures LoginFinished(url) ==> defaultCookies == old(defaultCookies) + Copied(partitionCookies, refuses)
                                     && closing && loginOutcome == Settle(old(loginOutcome), true)
      ensures !LoginFinished(url) ==> defaultCookies == old(defaultCookies) && closing == old(closing)
                                      && loginOutcome == old(loginOutcome)
      ensures authWindowOpen && windowsCreated == old(windowsCreated) && focusCount == old(focusCount)
      ensures partitionCookies == old(partitionCookies)
    {
      if LoginFinished(url) {
        CopyCookies(refuses);
        closing := true;
        loginOutcome := Settle(loginOutcome, true);
      }
    }

    /** `closed` of the sign-in window: the slot is cleared and the request settles with
        `false` unless it already has. */
    method Closed()
      requires authWindowOpen
      modifies this
      ensures !authWindowOpen && !closing && loginOutcome == Settle(old(loginOutcome), false)
      ensures windowsCreated == old(windowsCreated) && focusCount == old(focusCount)
      ensures partitionCookies == old(partitionCookies) && defaultCookies == old(defaultCookies)
    {
      authWindowOpen := false;
      closing := false;
      loginOutcome := Settle(loginOutcome, false);
    }

    /** `set-cookies`: the cookies are set one after the other for suno.com; the first one
        the store refuses ends the handler with an error (`ok == false`) and the rest are
        not set. */
    method SetCookies(cookies: seq<Cookie>, refuses: CookieDetails -> bool) returns (ok: bool)
      modifies this
      ensures defaultCookies == old(defaultCookies) + SetAll(cookies[..FirstRefused(cookies, refuses)])
      ensures ok <==> forall i :: 0 <= i < |cookies| ==> !refuses(SetDetails(cookies[i]))
      ensures authWindowOpen == old(authWindowOpen) && closing == old(closing)
      ensures windowsCreated == old(windowsCreated) && focusCount == old(focusCount)
      ensures loginOutcome == old(loginOutcome) && partitionCookies == old(partitionCookies)
    {
      var i := 0;
      ok := true;
      while i < |cookies| && ok
        invariant 0 <= i <= |cookies|
        decreases |cookies| - i, ok
        invariant forall j :: 0 <= j < i ==> !refuses(SetDetails(cookies[j]))
        invariant ok ==> i <= FirstRefused(cookies, refuses)
        invariant !ok ==> i < |cookies| && refuses(SetDetails(cookies[i]))
        invariant defaultCookies == old(defaultCookies) + SetAll(cookies[..i])
        invariant authWindowOpen == old(authWindowOpen) && closing == old(closing)
        invariant windowsCreated == old(windowsCreated) && focusCount == old(focusCount)
        invariant loginOutcome == old(loginOutcome) && partitionCookies == old(partitionCookies)
      {
        var d := SetDetails(cookies[i]);
        if refuses(d) {
          ok := false;
        } else {
          assert SetAll(cookies[..i + 1]) == SetAll(cookies[..i]) + [d];
          defaultCookies := defaultCookies + [d];
          i := i + 1;
        }
      }
      assert i == FirstRefused(cookies, refuses);
    }

    /** `logout`: both sessions are emptied and the handler answers `true`. */
    method Logout() returns (r: bool)
      modifies this
      ensures r && defaultCookies == [] && partitionCookies == []
      ensures authWindowOpen == old(authWindowOpen) && closing == old(closing)
      ensures windowsCreated == old(windowsCreated) && focusCount == old(focusCount)
      ensures loginOutcome == old(loginOutcome)
    {
      defaultCookies := [];
      partitionCookies := [];
      r := true;
    }
  }

  /** A promise settles once: the first value wins. */
  function Settle(outcome: Option<bool>, v: bool): (r: Option<bool>)
    ensures r.Some?
  {
    if outcome.Some? then outcome else Some(v)
  }

  /** A sign-in that finishes and then closes its window settles with `true`: the later
      `false` of `closed` is lost; a window closed before a sign-in settles with `false`. */
  lemma SettleFirstWins(outcome: Option<bool>, a: bool, b: bool)
    ensures Settle(Settle(outcome, a), b) == Settle(outcome, a)
    ensures Settle(Settle(None, true), false) == Some(true)
    ensures Settle(None, false) == Some(false)
  {
  }

  // ---- check-auth ----

  predicate ClerkSessionName(name: string) {
    Contains(name, "__clerk") || Contains(name, "__session")
  }

  /** `cookies.some(c => ...)` for a Clerk session cookie. */
  function HasClerkSession(cs: seq<Cookie>): bool {
    cs != [] && (ClerkSessionName(cs[0].name) || HasClerkSession(cs[1..]))
  }

  lemma {:induction false} HasClerkSessionSome(cs: seq<Cookie>)
    ensures HasClerkSession(cs) <==> exists i :: 0 <= i < |cs| && ClerkSessionName(cs[i].name)
  {
    if cs != [] {
      HasClerkSessionSome(cs[1..]);
      if HasClerkSession(cs[1..]) {
        var i :| 0 <= i < |cs[1..]| && ClerkSessionName(cs[1..][i].name);
        assert cs[i + 1] == cs[1..][i];
      }
      if exists i :: 0 <= i < |cs| && ClerkSessionName(cs[i].name) {
        var i :| 0 <= i < |cs| && ClerkSessionName(cs[i].name);
        if i > 0 {
          assert cs[1..][i - 1] == cs[i];
        }
      }
    }
  }

  /** The `check-auth` answer from the default session's suno.com and Clerk cookies
      (`None` when asking for them failed). */
  function CheckAuth(suno: Option<seq<Cookie>>, clerk: Option<seq<Cookie>>): bool {
    if suno.None? || clerk.None? then false
    else HasClerkSession(clerk.value) || |suno.value| > 0
  }

  /** Signed in exactly when both lists were read and there is a suno.com cookie or a
      Clerk cookie named like a session. */
  lemma {:induction false} CheckAuthAnswer(suno: Option<seq<Cookie>>, clerk: Option<seq<Cookie>>)
    ensures CheckAuth(suno, clerk) <==>
            suno.Some? && clerk.Some?
            && (|suno.value| > 0 || exists i :: 0 <= i < |clerk.value| && ClerkSessionName(clerk.value[i].name))
  {
    if clerk.Some? {
      HasClerkSessionSome(clerk.value);
    }
  }
}
