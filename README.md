# Suno AI Desktop: a verified model of its core logic

Suno AI Desktop is an Electron wrapper around the Suno music service. This project models
in Dafny the four pieces of sequential logic inside it, and proves properties of each.

- **Icon encoders** (`scripts/generate-icon.js`, modules `Crc32`, `Png`, `Canvas`, `Ico`,
  with helpers in `Bits`, `Bytes`, `Layout`). This part covers:
  - the table-driven CRC-32 of the PNG format (section 5.5 and Annex D of the PNG
    specification, ISO/IEC 15948), with the table cached in an object that is filled once;
  - PNG chunk framing, the signature, the IHDR payload and the scanline layout;
  - the multi-image ICO writer: header, directory, running offsets, the bottom-up row flip
    and the AND mask;
  - the bounds-checked pixel writes into a pixel buffer.

  These are imperative in the source, so they are methods over `array`s with loop
  invariants, proved against specification functions on `seq<byte>`.
- **The player** (`src/renderer/app.js`, modules `Player`, `Tracks`, `TimeFormat`,
  `Session`):
  - the class `SunoPlayer` with its playback cursor, loops and tabs;
  - the pure helpers `formatTracks`, `formatTime` and the liked filter;
  - the stored-session test and the capture of a session after sign-in, through the preload bridge, which as shipped lacks the call the capture needs.

  Each method of the class is proved equal to a transition function on a `Playback`
  value, and the lemmas are stated about those functions.
- **Localisation** (`src/renderer/i18n.js`, module `Localization`): the three message
  tables, the three-level fallback lookup, language detection, and the class `I18n`. The
  class keeps the code's guard `translations[lang]`, which also passes inherited
  object-prototype names such as `toString`; when no such name is used, the current
  language is one of `en`, `uk` and `ru`.
- **The main process** (`src/main.js`, modules `MainProcess`, `Base64`, `Cookies`). This
  part covers:
  - the `Cookie` and `browser-token` headers of the `api-request` handler, with base 64 as
    section 4 of RFC 4648 defines it;
  - the classification of API results;
  - the login-finished URL test;
  - the cookie-copy attributes and the `set-cookies` attributes;
  - the `check-auth` decision;
  - a class `MainState` for the module-level auth-window slot and the two cookie stores.

Electron, the DOM, storage, the clock, `fetch`, `JSON.parse` and `zlib` are not modelled.
Their results are parameters: a `now: nat`, a `parse: string -> Option<J>`, a
`deflate: seq<byte> -> seq<byte>`, the cookie lists a store returns, and a predicate
`refuses` for the cookie writes a store rejects.

Where a documented behaviour and the code differ, the model follows the code:
- An API response with any HTTP status whose body parses gives `ok: true` (`StatusIgnored`).
- `logout` and a new track list leave `currentTrackIndex` as it was, so it can point past
  the end of the list (`LogoutLeavesCursor`).
- `formatTracks` filters nothing by status and does not rewrite `http` to `https`.
- A row click plays `tracks[row]`, where `row` is the row's position in the visible list,
  also on the liked tab (`Player.ClickSelects`).
- The language test is a plain-object lookup, so inherited names pass it
  (`Localization.PrototypeLanguageSet`).

## Model

| member | source | states |
|---|---|---|
| Crc32.CrcTableCache.constructor | scripts/generate-icon.js:322 | the cache starts empty |
| Crc32.CrcTableCache.GetTable | scripts/generate-icon.js:322-335 | the table has 256 entries; entry i is i after eight rounds of "xor 0xEDB88320 into the halved value when the low bit is set"; a second call returns the same array and a first call a fresh one |
| Crc32.EntryRounds | scripts/generate-icon.js:328-332 | the inner loop leaves table entry i: i after eight rounds |
| Crc32.ComputeCrc32 | scripts/generate-icon.js:311-320 | the result is the complement of the table-driven fold of the bytes started at 0xFFFFFFFF; the table cache stays filled |
| Crc32.CrcEmpty | scripts/generate-icon.js:312-319 | the CRC of no bytes is 0 |
| Crc32.FoldAppend | scripts/generate-icon.js:313-316 | folding a concatenation is folding the second part from the register the first part leaves |
| Crc32.RoundsXor | scripts/generate-icon.js:329-331 | the eight table rounds are linear over xor |
| Crc32.UpdateIsBitwise | scripts/generate-icon.js:315 | one table step equals eight bitwise rounds of the register xored with the byte |
| Crc32.CrcIsBitwise | scripts/generate-icon.js:311-320 | the table-driven CRC equals the bit-at-a-time reflected CRC-32 |
| Crc32.TableAnchors | scripts/generate-icon.js:326-331 | table entry 0 is 0 and entry 128 is the polynomial 0xEDB88320 |
| Canvas.PixelBuffer.constructor | scripts/generate-icon.js:23 | a fresh buffer of 4·size·size zero bytes |
| Canvas.PixelBuffer.SetPixel | scripts/generate-icon.js:25-33 | inside the square, the four bytes at (y·size+x)·4 become B, G, R, A (each taken mod 256) and no other byte changes; outside it nothing changes |
| Canvas.PixelBuffer.SetPixelRGBA | scripts/generate-icon.js:35-43 | the same write in R, G, B, A order |
| Canvas.PixelIndexFormula | scripts/generate-icon.js:27 | the byte index of a pixel is (y·size+x)·4 |
| Canvas.PixelFits | scripts/generate-icon.js:26-27 | an in-bounds pixel's four bytes lie inside the buffer |
| Canvas.PixelsDisjoint | scripts/generate-icon.js:27 | two different pixels never share a byte |
| Canvas.PaintedBytes | scripts/generate-icon.js:25-33 | byte by byte: a painted byte is the colour's, every other byte is unchanged |
| Canvas.PaintedTwice | scripts/generate-icon.js:25-33 | painting one pixel twice leaves only the second colour |
| Canvas.PaintedCommute | scripts/generate-icon.js:25-33 | writes to different pixels commute |
| Png.ChunkTypeNames | scripts/generate-icon.js:274-289 | the ASCII bytes of "IHDR", "IDAT" and "IEND" are the chunk type constants |
| Png.CreatePngChunk | scripts/generate-icon.js:296-308 | a 32-bit big-endian length, the type bytes, the data, and the big-endian CRC of type and data; nothing when the length does not fit in 32 bits |
| Png.ChunkBytes | scripts/generate-icon.js:296-308 | a framed chunk is 12 bytes longer than its data for a four-byte type |
| Png.ParseChunkBytes | scripts/generate-icon.js:296-308 | a reader of length, type, data and checked CRC recovers the type and the data from a framed chunk, whatever follows it |
| Png.IhdrData | scripts/generate-icon.js:266-273 | 13 bytes: width and height big-endian, depth 8, colour type 6, then three zero bytes |
| Png.ScanlineLayout | scripts/generate-icon.js:279-283 | row y of the raw data starts with filter byte 0 at y·(4·size+1), followed by pixel bytes y·4·size up to (y+1)·4·size; the raw data is size·(4·size+1) bytes |
| Png.ScanlinesStep | scripts/generate-icon.js:279-283 | one more row appends a zero byte and that row |
| Png.WriteRow | scripts/generate-icon.js:280-282 | a row is written as a zero byte and its pixel bytes, and nothing before it changes |
| Png.CopyRows | scripts/generate-icon.js:279-283 | the loop over rows fills the array with the scanline data |
| Png.BuildScanlines | scripts/generate-icon.js:277-283 | a fresh array of size·(4·size+1) bytes holding the scanline data of the pixel buffer |
| Png.PngBytes | scripts/generate-icon.js:263-291 | the stream exists exactly when the size and the compressed data fit in 32 bits; it is 57 bytes longer than the compressed data and starts with the eight-byte signature |
| Png.CreatePngFile | scripts/generate-icon.js:256-294 | the file is the signature, the IHDR chunk, one IDAT chunk of the compressed scanlines, and an empty IEND chunk |
| Png.PngRoundTrip | scripts/generate-icon.js:263-291 | reading the stream back gives the signature, size × size, depth 8, colour type 6, methods 0 0 0, and the compressed data |
| Ico.FlipAt | scripts/generate-icon.js:219-224 | byte k of destination row y is byte k of source row rows−1−y |
| Ico.FlipInvolution | scripts/generate-icon.js:219-224 | flipping twice gives the original rows |
| Ico.FlipFront | scripts/generate-icon.js:219-224 | the flip of rows is the flip of all but the first, followed by the first |
| Ico.FlipAppend | scripts/generate-icon.js:219-224 | the flip of rows a followed by rows b is the flip of b followed by the flip of a |
| Ico.FlipRows | scripts/generate-icon.js:219-224 | the nested copy loop fills a fresh array with the flipped rows |
| Ico.AndMaskRowFormula | scripts/generate-icon.js:227 | an AND-mask row is ceil(ceil(size/8)/4)·4 bytes |
| Ico.AndMaskRowFits | scripts/generate-icon.js:227 | the row is a multiple of four bytes, holds one bit per pixel, and is the shortest such row |
| Ico.PartBounds | scripts/generate-icon.js:225-228 | for sizes up to 256 the pixel and mask parts are at most 262144 and 8192 bytes |
| Ico.BmpInfoHeaderFields | scripts/generate-icon.js:204-216 | header size 40, width size, height 2·size, one plane, 32 bits, no compression, image size 4·size·size, then zeros |
| Ico.BitmapLen | scripts/generate-icon.js:205-231 | a bitmap is between 40 and 270376 bytes for sizes up to 256 |
| Ico.BitmapLenFormula | scripts/generate-icon.js:205-231 | a bitmap is 40 + 4·size·size + maskRow·size bytes |
| Ico.BitmapLayout | scripts/generate-icon.js:205-231 | the bitmap starts with the info header and ends with an all-zero AND mask |
| Ico.BitmapRows | scripts/generate-icon.js:218-231 | after the header, row y of the pixel area is row size−1−y of the image |
| Ico.BuildBitmap | scripts/generate-icon.js:202-231 | the bytes built for one image are its bitmap |
| Ico.IcoHeaderFields | scripts/generate-icon.js:189-192 | little-endian reserved 0, type 1, count |
| Ico.SizeByte | scripts/generate-icon.js:235-236 | the width/height byte is 0 exactly for size 256, and the size otherwise |
| Ico.DirEntryFields | scripts/generate-icon.js:234-242 | width and height bytes, two zero bytes, planes 1, 32 bits, then bitmap length and offset little-endian |
| Ico.DataStartsChain | scripts/generate-icon.js:195-246 | the first bitmap starts at 6 + 16·n; each later one starts at the previous start plus the previous length, so the starts increase strictly |
| Ico.IcoHeaderOf | scripts/generate-icon.js:189-192 | the file starts with type 1 and the number of images |
| Ico.IcoEntryAt | scripts/generate-icon.js:234-244 | directory entry i is at 6 + 16·i and describes image i's size, bitmap length and start |
| Ico.IcoBitmapAt | scripts/generate-icon.js:231-250 | bitmap i sits in the file at its directory offset |
| Ico.DirectoryAt | scripts/generate-icon.js:234-242 | directory entry i is built from image i's size, bitmap length and start |
| Ico.IcoLength | scripts/generate-icon.js:250 | the file is as long as the last offset plus the last bitmap length |
| Ico.OffsetTooLarge | scripts/generate-icon.js:242 | a running offset past 32 bits means the directory cannot be written |
| Ico.CreateIcoFile | scripts/generate-icon.js:178-253 | the loop over the images yields exactly the header, the directory and the bitmaps, or nothing where a 32-bit field would overflow |
| Ico.IconBitmapLens | scripts/generate-icon.js:179 | the bitmap lengths of the six standard sizes |
| Ico.IconOffsets | scripts/generate-icon.js:179-246 | for the six standard sizes the bitmaps start at 102 and total 369968 bytes |
| Ico.StandardIcon | scripts/generate-icon.js:178-253 | the six-size icon is always written and is 370070 bytes long |
| Tracks.FormatTrack | src/renderer/app.js:212-223 | id and date are kept; the title falls back to the prompt and then to "Untitled"; the artist falls back to "Suno AI"; the cover falls back to the large image URL and then to ""; the audio falls back to the song path and then to ""; the duration falls back to 0; a track is liked only when the source says true |
| Tracks.FormatTracks | src/renderer/app.js:212-223 | the list keeps its length and order, element by element |
| Tracks.FormatAsRaw | src/renderer/app.js:212-223 | normalising a normalised track changes nothing |
| Tracks.FormatTracksIdempotent | src/renderer/app.js:212-223 | normalising the normalised list again gives the same list |
| Tracks.Liked | src/renderer/app.js:264-268 | the liked view holds only liked tracks |
| Tracks.LikedPositionsShow | src/renderer/app.js:264-268 | row k of the liked tab shows the track at the k-th liked position, and there are as many positions as liked tracks |
| Tracks.LikedPositionsSorted | src/renderer/app.js:264-268 | the liked positions are in bounds and strictly increasing, so the tab keeps the list order |
| Tracks.LikedPositionsComplete | src/renderer/app.js:264-268 | every liked track's position is among them |
| Tracks.LikedMembers | src/renderer/app.js:264-268 | a track is in the liked view exactly when it is in the list and liked |
| Tracks.LikedAppend | src/renderer/app.js:264-268 | the liked view of a concatenation is the concatenation of the liked views |
| Tracks.RowTargetMismatch | src/renderer/app.js:278-280 | a clicked row on the liked tab starts a different track than the row shows |
| Tracks.RowTarget | src/renderer/app.js:278-280 | the intended mapping: a visible row maps to the position in the full list of the track it shows; any other row to no track |
| Tracks.OneRowPlaying | src/renderer/app.js:278-280 | with the corrected mapping, at most one row shows the current track, and it is that track |
| Tracks.FindId | src/renderer/app.js:445 | the first track with the id, or none when no track has it |
| Tracks.ToggleLike | src/renderer/app.js:444-448 | the first track with the id has its like flag flipped and every other track is unchanged |
| Tracks.ToggleUnknown | src/renderer/app.js:444-448 | an unknown id changes nothing |
| Tracks.ToggleTwice | src/renderer/app.js:444-448 | toggling twice restores the list |
| Player.PlayBounds | src/renderer/app.js:325-353 | an index out of bounds changes nothing; an index in bounds becomes current, and the player plays when the track has audio (otherwise its playing flag stays) |
| Player.NextIndex | src/renderer/app.js:369-377 | the next index is index+1 wrapped to 0 at the end, so from −1 it is 0 |
| Player.PrevIndex | src/renderer/app.js:379-393 | within three seconds the previous index is index−1, wrapping to the last track |
| Player.PrevRewinds | src/renderer/app.js:383-386 | after three seconds "previous" only rewinds to 0 |
| Player.NextThenPrev | src/renderer/app.js:369-393 | "previous" undoes "next" when the next track has audio |
| Player.AdvanceIndex | src/renderer/app.js:369-377 | k "next" steps move the cursor k places round the list |
| Player.PlayPauseTwice | src/renderer/app.js:355-367 | with a started cursor, toggling play twice changes nothing |
| Player.RepeatToggles | src/renderer/app.js:395-399 | toggling repeat flips it and sets the loop flag to the same value |
| Player.TrackEndIndex | src/renderer/app.js:401-405 | at the end of a track the cursor stays under repeat and moves on otherwise |
| Player.HandlersKeepCursor | src/renderer/app.js:355-405 | every player handler keeps the cursor −1 or in bounds |
| Player.EditsKeepCursor | src/renderer/app.js:434-453 | liking, switching tab and clicking a row (as written or with the intended mapping) keep the cursor −1 or in bounds |
| Player.ClickSelects | src/renderer/app.js:278-299 | a click on visible row k selects position k of the full list, which is the track the row shows on the "all" tab |
| Player.ClickIntendedSelects | src/renderer/app.js:278-280 | with the intended mapping, a click on a visible row selects the track the row shows |
| Player.NextInBounds | src/renderer/app.js:369-377 | from a cursor −1 or past the end, "next" lands in bounds (a stale cursor wraps to 0) |
| Player.PrevFromStale | src/renderer/app.js:379-393 | within three seconds, "previous" from more than one past the end changes nothing |
| Player.LikeKeepsPlayback | src/renderer/app.js:444-453 | liking touches only the list, and liking twice restores the state |
| Player.DemoList | src/renderer/app.js:225-257 | the demo tracks have no audio, so playing them never starts playback; the first and third are liked |
| Player.LogoutLeavesCursor | src/renderer/app.js:475-481 | a started cursor is out of bounds after logout |
| Player.SunoPlayer.constructor | src/renderer/app.js:3-10 | the initial playback state; signed in exactly when the stored session is accepted |
| Player.SunoPlayer.PlayTrack | src/renderer/app.js:325-353 | the new state is the play transition of the old one; the session fields are unchanged |
| Player.SunoPlayer.TogglePlay | src/renderer/app.js:355-367 | with index −1 and a non-empty list it plays track 0, and otherwise it flips the playing flag |
| Player.SunoPlayer.NextTrack | src/renderer/app.js:369-377 | the next transition; an empty list is left as it is |
| Player.SunoPlayer.PrevTrack | src/renderer/app.js:379-393 | the previous transition, including the rewind rule |
| Player.SunoPlayer.ToggleRepeat | src/renderer/app.js:395-399 | the repeat transition |
| Player.SunoPlayer.OnTrackEnd | src/renderer/app.js:401-405 | replay under repeat, "next" otherwise |
| Player.SunoPlayer.ToggleLike | src/renderer/app.js:444-453 | the like flip on the list, nothing else |
| Player.SunoPlayer.SwitchTab | src/renderer/app.js:434-442 | only the tab changes |
| Player.SunoPlayer.ClickRow | src/renderer/app.js:278-299 | a row click plays the row's position in the visible list as an index into the full list |
| Player.SunoPlayer.SetCurrentTime | src/renderer/app.js:65-69 | only the playback position changes |
| Player.SunoPlayer.LoadTracks | src/renderer/app.js:176-191 | the list becomes the normalised fetched list, or the demo list when fetching failed |
| Player.SunoPlayer.CheckAuthComplete | src/renderer/app.js:139-163 | the cookies are asked for through the preload bridge; a captured token signs the player in and is stored with a one-week expiry; otherwise nothing changes |
| Player.SunoPlayer.Logout | src/renderer/app.js:475-481 | the stored session, the token and the list go; the cursor and the other playback fields stay |
| TimeFormat.JsRem | src/renderer/app.js:459 | JavaScript's `%`: the usual remainder for a non-negative dividend, and a value in (−d, 0] for a negative one |
| TimeFormat.FormatDuration | src/renderer/app.js:456-461 | whole minutes, a colon, and the seconds padded to two digits |
| TimeFormat.FormatTimeExamples | src/renderer/app.js:456-461 | 0 gives "0:00", 65 gives "1:05", 600 gives "10:00" |
| TimeFormat.SecondsField | src/renderer/app.js:460 | the seconds field is two digits with the value of the seconds |
| TimeFormat.FormatTimeRoundTrip | src/renderer/app.js:456-461 | reading the "m:ss" text back gives the seconds |
| Session.AcceptedToken | src/renderer/app.js:91-109 | a saved session is accepted exactly when it has a non-empty token and an expiry after now |
| Session.WeekValue | src/renderer/app.js:151 | one week is 604800000 ms |
| Session.SessionLifetime | src/renderer/app.js:149-152 | a captured session is accepted for one week after it was stored, and not from then on |
| Session.FindSessionCookie | src/renderer/app.js:145 | the first cookie whose name contains "__session" or "__client", or none |
| Session.CapturedToken | src/renderer/app.js:139-163 | a token is captured only on a suno.com page that is not a sign-in or sign-up page, when the cookies were read and one is a session cookie; the token is the value of the first session cookie |
| Session.ShippedBridgeNeverCaptures | src/renderer/app.js:144 | the bridge of src/preload.js:4-46 has no `getCookies`, so the call throws, the `catch` swallows it and no navigation captures a token |
| Session.IntendedBridgeCaptures | src/renderer/app.js:144-145 | with a bridge that forwards `get-suno-cookies`, a signed-in page and a session cookie capture the first session cookie's value |
| Localization.Translate | src/renderer/i18n.js:193-195 | the current language's entry when truthy, else the English entry when truthy, else the key |
| Localization.TranslateNonEmpty | src/renderer/i18n.js:193-195 | a lookup is empty only for the empty key |
| Localization.UnknownLanguageIsEnglish | src/renderer/i18n.js:193-195 | an unknown language looks up like English |
| Localization.LoginHintDetail | src/renderer/i18n.js:3-165 | in English "loginHintDetail" gives back the key; in Ukrainian it gives a message |
| Localization.Detect | src/renderer/i18n.js:184-191 | the part before the first "-", lower-cased, when it is "uk" or "ru", and "en" otherwise |
| Localization.DetectIgnoresRegion | src/renderer/i18n.js:186 | a region suffix does not change the detected language |
| Localization.DetectExamples | src/renderer/i18n.js:184-191 | "uk-UA" gives "uk" and "RU" gives "ru" |
| Localization.DetectPrefersLanguage | src/renderer/i18n.js:185 | the browser language wins over the user language |
| Localization.DetectFallbacks | src/renderer/i18n.js:185 | an empty language falls through to the user language, and nothing at all gives "en" |
| Localization.InitialLanguage | src/renderer/i18n.js:173-182 | a saved language naming a table is used, and otherwise detection |
| Localization.PrototypeNameAccepted | src/renderer/i18n.js:176 | the plain-object lookup accepts "constructor" as a language |
| Localization.GuardsAgree | src/renderer/i18n.js:176 | for every name that is not an object-prototype member, the lookup test and the table test agree |
| Localization.AvailableCodes | src/renderer/i18n.js:210-216 | the codes en, uk, ru in this order, each a known table |
| Localization.AvailableNames | src/renderer/i18n.js:210-216 | the names English, Українська, Русский from the English table |
| Localization.InitialAgrees | src/renderer/i18n.js:176 | unless the saved name is an inherited property name, `init` as written picks the same language as with the table test |
| Localization.SelectLanguage | src/renderer/i18n.js:197-204 | the corrected setter: accepted exactly for a table, which becomes current; a refusal keeps the language; a language with a table stays one |
| Localization.SelectAgrees | src/renderer/i18n.js:198 | off the inherited names, the corrected setter answers as the guard as written |
| Localization.I18n.constructor | src/renderer/i18n.js:167-182 | the current language is the initial language under the guard as written; it has a table exactly unless the saved name is an inherited property name |
| Localization.I18n.Get | src/renderer/i18n.js:193-195 | the lookup in the current language |
| Localization.I18n.SetLanguage | src/renderer/i18n.js:197-204 | true exactly when the guard as written passes, and the name then becomes current and is saved; otherwise nothing changes; a current language with a table keeps one unless an inherited name is set |
| Localization.I18n.GetLanguage | src/renderer/i18n.js:206-208 | the current language |
| Localization.I18n.GetAvailableLanguages | src/renderer/i18n.js:210-216 | the language list |
| Localization.PrototypeLanguageSet | src/renderer/i18n.js:197-208 | on a fresh object, `setLanguage("toString")` answers true and leaves "toString" current, which has no table |
| Base64.LettersValues | src/main.js:245 | letters of six-bit values read back as those values and are never "=" |
| Base64.ValuesLetters | src/main.js:245 | values of letters written back give the letters |
| Base64.SplitJoin | src/main.js:245 | four six-bit groups join back to the three bytes they came from |
| Base64.JoinSplit | src/main.js:245 | three bytes split back to the four groups they came from |
| Base64.UnsextetsSextets | src/main.js:245 | the grouping of any byte string is undone by the ungrouping |
| Base64.SextetsUnsextets | src/main.js:245 | any valid grouping is the grouping of what it ungroups to |
| Base64.SextetsLength | src/main.js:245 | a last partial group has two or three letters, and with padding the text is 4·ceil(n/3) letters |
| Base64.EncodeLength | src/main.js:245 | the encoded text is 4·ceil(n/3) characters |
| Base64.DecodeEncode | src/main.js:245 | decoding the encoding of any bytes gives those bytes |
| Base64.EncodeDecode | src/main.js:245 | any text that decodes is the encoding of what it decodes to |
| Base64.EncodeExample | src/main.js:245 | "Man" is "TWFu", "Ma" is "TWE=", "M" is "TQ==" |
| MainProcess.PairsAppend | src/main.js:240 | the name=value pairs of a concatenation are the concatenated pairs |
| MainProcess.CookieHeaderPresent | src/main.js:259-261 | a Cookie header is sent exactly when there is a cookie |
| MainProcess.CookieOrder | src/main.js:235-241 | the suno, API and clerk pairs in that order, joined by "; " |
| MainProcess.OneCookie | src/main.js:240 | a single cookie gives "name=value" |
| MainProcess.AsciiChars | src/main.js:245 | the bytes of ASCII text read back as that text |
| MainProcess.TimestampAscii | src/main.js:244 | the timestamp JSON is ASCII |
| MainProcess.UnwrapWrap | src/main.js:257 | stripping the JSON wrapper gives back what was wrapped |
| MainProcess.BrowserTokenRoundTrip | src/main.js:244-257 | the browser token is {"token":"B"} where B is the base 64 of {"timestamp":N}, and reading it back gives N |
| MainProcess.RequestHeadersShape | src/main.js:253-261 | a Cookie header is present exactly when there are cookies and carries the cookie string; the browser token is among the headers |
| MainProcess.ConcatAppend | src/main.js:266-268 | accumulating chunks over a concatenation appends the two bodies |
| MainProcess.ClassifyOutcome | src/main.js:270-290 | ok with the parsed data exactly when a response body parses; an unparseable body gives "Invalid JSON response"; a request or setup error gives its message |
| MainProcess.StatusIgnored | src/main.js:270-276 | the HTTP status does not change the result |
| MainProcess.ChunkingIrrelevant | src/main.js:266-268 | how the decoded chunk texts are divided among the chunks does not change the result |
| MainProcess.ApiRequest | src/main.js:229-293 | the handler sends the fixed headers plus the Cookie header, and its accumulating loop gives the classified result |
| MainProcess.StartPageFinishes | src/main.js:166 | the start page itself counts as login finished |
| MainProcess.LoginPages | src/main.js:166 | every page under /create or /home counts as login finished |
| MainProcess.SignInSkipsStartPage | src/main.js:161-166 | the test the comments describe, a page under /create or /home, rejects the start page and its slash form, which the test as written accepts |
| MainProcess.SignInPages | src/main.js:163-166 | the intended test accepts every page under /create and /home, and only pages that the test as written accepts |
| MainProcess.LoginOnSuno | src/main.js:166 | a finished login is always on suno.com |
| MainProcess.CopyAttributes | src/main.js:174-181 | name, value and domain are kept; secure unless exactly false; httpOnly only when true; path defaults to "/"; sameSite defaults to "lax" |
| MainProcess.CopyIdempotent | src/main.js:174-181 | copying a copied cookie gives the same details |
| MainProcess.CopyUrlOnSuno | src/main.js:175 | the copy URL is always https and on a suno host |
| MainProcess.SunoDomain | src/main.js:175 | a domain containing "suno" gives https:// plus the domain without one leading dot |
| MainProcess.DottedDomain | src/main.js:175 | ".suno.com" gives "https://suno.com" |
| MainProcess.ClerkDomain | src/main.js:175 | "clerk.suno.com" gives "https://clerk.suno.com" |
| MainProcess.StripKeepsSuno | src/main.js:175 | removing a leading dot keeps "suno" in the domain |
| MainProcess.CopiedFacts | src/main.js:168-185 | the copied cookies are copies of partition cookies that the store accepted; none is lost when the store refuses none |
| MainProcess.SetAlwaysSecure | src/main.js:126-134 | set-cookies always sets secure, whatever the cookie says, on the suno.com URL with its name and value |
| MainProcess.FirstRefused | src/main.js:125-135 | the first cookie the store refuses, or the end |
| MainProcess.SetAll | src/main.js:125-135 | one write per cookie |
| MainProcess.MainState.constructor | src/main.js:10 | no auth window, no outcome, no copied cookies |
| MainProcess.MainState.OpenAuthWindow | src/main.js:139-161 | with a window open it is focused and the request settles false; otherwise a window is opened and nothing settles yet |
| MainProcess.MainState.Navigated | src/main.js:164-191 | on a finished login the partition cookies are copied and the window closes; otherwise only the navigation happens |
| MainProcess.MainState.CopyCookies | src/main.js:168-185 | the loop adds each copy the store accepts, in order; nothing else changes |
| MainProcess.MainState.Closed | src/main.js:193-196 | the slot is cleared and the request settles false unless it already settled |
| MainProcess.MainState.SetCookies | src/main.js:124-135 | writes the cookies up to the first one refused; true exactly when none is refused |
| MainProcess.MainState.Logout | src/main.js:217-226 | both stores are cleared and the answer is true |
| MainProcess.Settle | src/main.js:140-196 | settling always gives an outcome |
| MainProcess.SettleFirstWins | src/main.js:188-196 | the first settlement wins: a closed window after a finished login still gives true |
| MainProcess.HasClerkSessionSome | src/main.js:207 | some clerk cookie name contains "__clerk" or "__session" |
| MainProcess.CheckAuthAnswer | src/main.js:201-213 | true exactly when both cookie lists were read and the suno list is non-empty or a clerk cookie is a session |

## Left out

- The pixel art of `generateIconPixels` and `generatePngPixels` uses floating point (`Math.sqrt`, gradients, anti-aliasing). The pixel buffer is an input of length 4·size·size.
- `zlib.deflateSync` is a library call: `Png.CreatePngFile` takes it as the `deflate` parameter.
- The file writes, `mkdir` and console output of the icon script are I/O. `scripts/check-icons.js` is a file-existence check with console output.
- `src/preload.js` is modelled only by the set of names it exposes (`Session.ShippedBridge`). It exposes no `getCookies`, and no entry for the `get-suno-cookies` or `set-cookies` handlers.
- `Crc32.TableAnchors`: only entries 0 and 128 are computed as constants. Any other entry needs dozens of unfoldings of the bitwise xor. The whole table is instead characterised by `Crc32.CrcTableCache.GetTable`.
- Event binding, HTML rendering, `escapeHtml`, notifications, the loading indicator, the progress-bar percentage and the volume are DOM work or float ratios.
- The audio element is modelled by its `src`, `loop` and an integer `currentTime`. `audio.play()` is modelled as setting the source, and the outcome of its promise is not modelled.
- `fetch` is an input: `Player.SunoPlayer.LoadTracks` takes the fetched list, or `None` for a failure.
- The `loadTracks` call that the constructor and `checkAuthComplete` start is a separate `LoadTracks` call.
- `checkAuth`'s `JSON.parse` of the stored entry is an input: a `SavedAuth` that is no entry, unreadable, or the parsed record.
- `TimeFormat.FormatTimeRoundTrip`: `formatTime` is read back only for whole non-negative seconds. `NaN`, fractions and negative values are not modelled.
- `localStorage` and `navigator.language` are parameters and fields. `toLowerCase` is modelled for ASCII letters only.
- The main window, the tray and the `minimize-window`, `maximize-window` and `close-window` handlers are Electron wiring. `get-suno-cookies` passes a store result through, and the shipped renderer cannot reach it (see Findings).
- A cookie store is modelled as a list of writes. Matching by URL and the replacement of a cookie with the same name are not modelled. A store's rejection of a write is the `refuses` parameter.
- The request method, URL and body of `api-request` are passed to `net.request` unchanged and are not modelled.
- The handlers are modelled as sequential steps. Promise ordering and overlapping handlers are not modelled.
- `Date.now()` is a `nat` parameter. JSON number formatting is modelled for non-negative integers.
- `Buffer.from` of a string is modelled for ASCII text, which is all the timestamp JSON contains.
- `MainProcess.ChunkingIrrelevant`: a response chunk is the text `chunk.toString()` gives for it. A UTF-8 sequence split between two byte chunks is decoded as replacement characters by the source; byte chunks are not modelled.
- `Tracks.FormatTrack`: `metadata.duration` is a whole number of seconds, so a fractional JSON duration is not modelled; `is_liked` is modelled as a boolean, so another truthy value is not.
- `Localization.Translate`: the tables hold only their own entries, so two lookups of the source are not modelled: a key that names an inherited property of a table (such as `toString` or `__proto__`), and, while the current language is an inherited name, a key that names a property of the inherited value (such as `name` or `length` under `toString`). Any other key under an inherited current language looks up like English, as in the source.

## Findings

| source | as written | input that shows it | evidently intended | confidence | as-written member | corrected member |
|---|---|---|---|---|---|---|
| src/renderer/app.js:278-280 | the liked tab gives each row its index in the filtered list, but a click plays that index in the full list | tracks [a (not liked), b (liked)] on the liked tab; the only row shows b, and clicking it plays a | a row plays the track it shows | not executed | Tracks.RowTargetMismatch | Tracks.OneRowPlaying |
| src/renderer/i18n.js:176 | the language test is a plain-object lookup, so object-prototype names such as "constructor" pass it | a saved language "constructor" becomes the current language | only en, uk and ru are accepted | not executed | Localization.PrototypeNameAccepted | Localization.InitialLanguage |
| src/renderer/i18n.js:198 | `setLanguage` uses the same plain-object lookup, so it accepts inherited names | `setLanguage("toString")` answers true and makes "toString" the current language | only en, uk and ru are accepted | not executed | Localization.PrototypeLanguageSet | Localization.SelectLanguage |
| src/renderer/app.js:144 | `checkAuthComplete` calls `window.electronAPI?.getCookies()`, which the bridge of src/preload.js:4-46 does not expose; the call throws, the `catch` swallows the error and no session is ever captured | any navigation of the sign-in view to https://suno.com/create | the bridge forwards `get-suno-cookies` as `getCookies`, so the session cookie signs the player in | not executed | Session.ShippedBridgeNeverCaptures | Session.IntendedBridgeCaptures |
| src/main.js:166 | the finished-login test accepts `https://suno.com`, the page the sign-in window loads at src/main.js:161, so the first navigation copies the cookies, closes the window and answers true before any sign-in | opening the sign-in window; its first `did-navigate` is to https://suno.com | only a page reached after signing in, under /create or /home, finishes the sign-in | not executed | MainProcess.StartPageFinishes | MainProcess.SignInSkipsStartPage |
