/** Message lookup and language selection of the player's interface
    (`src/renderer/i18n.js`): three fixed message tables, the lookup `get` with its
    fallbacks, system-language detection, and the `I18n` object that keeps the current
    language and remembers the user's choice. */
module Localization {
  import opened Wrappers
  import opened Text

  /** The codes of the three tables, in the order the settings list shows them. */
  const Languages: seq<string> := ["en", "uk", "ru"]

  // The message tables. Longer messages are written as several short literals joined
  // with `+`, which keeps the verifier's reasoning about them cheap.

  /** The `en` table. */
  function En(key: string): Option<string> {
    if key == "appTitle" then Some("Suno Player")
    else if key == "authTitle" then Some("Suno Desktop Player")
    else if key == "authSubtitle" then Some("Listen to your Suno " + "AI music")
    else if key == "loginButton" then Some("Sign In")
    else if key == "loginHint" then Some("Connect to your " + "Suno account")
    else if key == "navAllTracks" then Some("All Tracks")
    else if key == "navLiked" then Some("Liked ❤️")
    else if key == "settingsTooltip" then Some("Settings")
    else if key == "selectTrack" then Some("Select a track")
    else if key == "loading" then Some("Loading tracks...")
    else if key == "noTracks" then Some("🎵 No tracks yet")
    else if key == "noAudio" then Some("Audio unavailable " + "for this track")
    else if key == "previous" then Some("Previous")
    else if key == "next" then Some("Next")
    else if key == "playPause" then Some("Play/Pause")
    else if key == "repeat" then Some("Repeat")
    else if key == "prevPage" then Some("← Previous")
    else if key == "nextPage" then Some("Next →")
    else if key == "page" then Some("Page")
    else if key == "settingsTitle" then Some("⚙️ Settings")
    else if key == "volume" then Some("🔊 Volume")
    else if key == "repeatToggle" then Some("🔁 Repeat")
    else if key == "language" then Some("🌐 Language")
    else if key == "logout" then Some("🚪 Log out")
    else if key == "sessionExpired" then Some("Session expired. " + "Please log in again.")
    else if key == "tokenExpiringSoon" then Some("Session expires in " + "{min} min. Re-login " + "recommended.")
    else if key == "loadError" then Some("Loading error: ")
    else if key == "noTracksFound" then Some("No tracks found. " + "Create music at " + "suno.com first")
    else if key == "pageLoadError" then Some("Error loading page")
    else if key == "langEnglish" then Some("English")
    else if key == "langUkrainian" then Some("Українська")
    else if key == "langRussian" then Some("Русский")
    else None
  }

  /** The `uk` table. */
  function Uk(key: string): Option<string> {
    if key == "appTitle" then Some("Suno Player")
    else if key == "authTitle" then Some("Suno Desktop Player")
    else if key == "authSubtitle" then Some("Слухай свою музику " + "з Suno AI")
    else if key == "loginButton" then Some("Увійти")
    else if key == "loginHint" then Some("Відкриється " + "сторінка Suno для " + "входу")
    else if key == "loginHintDetail" then Some("Натисніть \"Sign In\" " + "на сторінці Suno і " + "увійдіть")
    else if key == "tokenExpiringSoon" then Some("⏰ Сесія " + "закінчується через " + "5 хвилин. " + "Перезайдіть для " + "продовження.")
    else if key == "navAllTracks" then Some("Всі треки")
    else if key == "navLiked" then Some("Лайкнуті ❤️")
    else if key == "settingsTooltip" then Some("Налаштування")
    else if key == "selectTrack" then Some("Виберіть трек")
    else if key == "loading" then Some("Завантаження " + "треків...")
    else if key == "noTracks" then Some("🎵 Треків поки немає")
    else if key == "noAudio" then Some("Аудіо недоступне " + "для цього треку")
    else if key == "previous" then Some("Попередній")
    else if key == "next" then Some("Наступний")
    else if key == "playPause" then Some("Грати/Пауза")
    else if key == "repeat" then Some("Повтор")
    else if key == "prevPage" then Some("← Попередня")
    else if key == "nextPage" then Some("Наступна →")
    else if key == "page" then Some("Сторінка")
    else if key == "settingsTitle" then Some("⚙️ Налаштування")
    else if key == "volume" then Some("🔊 Гучність")
    else if key == "repeatToggle" then Some("🔁 Повтор")
    else if key == "language" then Some("🌐 Мова")
    else if key == "logout" then Some("🚪 Вийти з акаунту")
    else if key == "sessionExpired" then Some("Сесія закінчилась. " + "Увійдіть знову.")
    else if key == "loadError" then Some("Помилка " + "завантаження: ")
    else if key == "noTracksFound" then Some("Треків не знайдено. " + "Спочатку створіть " + "музику на suno.com")
    else if key == "pageLoadError" then Some("Помилка " + "завантаження " + "сторінки")
    else if key == "langEnglish" then Some("English")
    else if key == "langUkrainian" then Some("Українська")
    else if key == "langRussian" then Some("Русский")
    else None
  }

  /** The `ru` table. */
  function Ru(key: string): Option<string> {
    if key == "appTitle" then Some("Suno Player")
    else if key == "authTitle" then Some("Suno Desktop Player")
    else if key == "authSubtitle" then Some("Слушай свою музыку " + "из Suno AI")
    else if key == "loginButton" then Some("Войти")
    else if key == "loginHint" then Some("Откроется страница " + "Suno для входа")
    else if key == "loginHintDetail" then Some("Нажмите \"Sign In\" " + "на странице Suno и " + "войдите")
    else if key == "tokenExpiringSoon" then Some("⏰ Сессия истекает " + "через 5 минут. " + "Перезайдите для " + "продолжения.")
    else if key == "navAllTracks" then Some("Все треки")
    else if key == "navLiked" then Some("Понравившиеся ❤️")
    else if key == "settingsTooltip" then Some("Настройки")
    else if key == "selectTrack" then Some("Выберите трек")
    else if key == "loading" then Some("Загрузка треков...")
    else if key == "noTracks" then Some("🎵 Треков пока нет")
    else if key == "noAudio" then Some("Аудио недоступно " + "для этого трека")
    else if key == "previous" then Some("Предыдущий")
    else if key == "next" then Some("Следующий")
    else if key == "playPause" then Some("Играть/Пауза")
    else if key == "repeat" then Some("Повтор")
    else if key == "prevPage" then Some("← Предыдущая")
    else if key == "nextPage" then Some("Следующая →")
    else if key == "page" then Some("Страница")
    else if key == "settingsTitle" then Some("⚙️ Настройки")
    else if key == "volume" then Some("🔊 Громкость")
    else if key == "repeatToggle" then Some("🔁 Повтор")
    else if key == "language" then Some("🌐 Язык")
    else if key == "logout" then Some("🚪 Выйти из аккаунта")
    else if key == "sessionExpired" then Some("Сессия истекла. " + "Войдите снова.")
    else if key == "loadError" then Some("Ошибка загрузки: ")
    else if key == "noTracksFound" then Some("Треки не найдены. " + "Сначала создайте " + "музыку на suno.com")
    else if key == "pageLoadError" then Some("Ошибка загрузки " + "страницы")
    else if key == "langEnglish" then Some("English")
    else if key == "langUkrainian" then Some("Українська")
    else if key == "langRussian" then Some("Русский")
    else None
  }

  /** `translations[lang]?.[key]` over the tables' own entries. */
  function Entry(lang: string, key: string): Option<string> {
    if lang == "en" then En(key)
    else if lang == "uk" then Uk(key)
    else if lang == "ru" then Ru(key)
    else None
  }

  /** A language with a table of its own. */
  predicate Known(lang: string) {
    lang in Languages
  }

  /** `get(key)` with current language `lang`: the language's own entry when it is
      truthy, else the English entry when that is truthy, else the key itself. */
  function Translate(lang: string, key: string): (r: string)
    ensures Truthy(Entry(lang, key)) ==> r == Entry(lang, key).value
    ensures !Truthy(Entry(lang, key)) && Truthy(En(key)) ==> r == En(key).value
    ensures !Truthy(Entry(lang, key)) && !Truthy(En(key)) ==> r == key
  {
    Or(Entry(lang, key), Or(En(key), key))
  }

  /** `get` never answers with an empty string unless asked for the empty key. */
  lemma TranslateNonEmpty(lang: string, key: string)
    ensures Translate(lang, key) == "" ==> key == ""
  {
  }

  /** A language without a table reads every message from the English table. */
  lemma UnknownLanguageIsEnglish(lang: string, key: string)
    requires !Known(lang)
    ensures Translate(lang, key) == Translate("en", key)
  {
  }

  /** Only the Ukrainian and Russian tables have `loginHintDetail`, so in English the
      lookup falls through to the key itself, while in Ukrainian it finds the message. */
  lemma LoginHintDetail()
    ensures Translate("en", "loginHintDetail") == "loginHintDetail"
    ensures Translate("uk", "loginHintDetail") != "loginHintDetail"
  {
  }

  // ---- Detection and start-up ----

  /** `detectSystemLanguage`, given `navigator.language` and `navigator.userLanguage`: the
      first truthy one (or `en`) up to its first `-`, lower-cased; `uk` and `ru` are
      recognised, anything else is English. */
  function Detect(language: Option<string>, userLanguage: Option<string>): (r: string)
    ensures Known(r)
    ensures var code := LowerAscii(BeforeFirst(Or(language, Or(userLanguage, "en")), '-'));
            (r == "uk" <==> code == "uk") && (r == "ru" <==> code == "ru")
  {
    var lang := Or(language, Or(userLanguage, "en"));
    var code := LowerAscii(BeforeFirst(lang, '-'));
    if code == "uk" then "uk"
    else if code == "ru" then "ru"
    else "en"
  }

  /** The region part of a language tag does not matter. */
  lemma {:induction false} DetectIgnoresRegion(code: string, region: string, userLanguage: Option<string>)
    requires code != "" && '-' !in code
    ensures Detect(Some(code + "-" + region), userLanguage) == Detect(Some(code), userLanguage)
  {
    BeforeDash(code, region);
    BeforeDash(code, []);
    assert BeforeFirst(code + "-" + [], '-') == BeforeFirst(code, '-') by {
      NoDash(code);
    }
  }

  lemma {:induction false} BeforeDash(code: string, rest: string)
    requires '-' !in code
    ensures BeforeFirst(code + "-" + rest, '-') == code
  {
    if code != [] {
      assert (code + "-" + rest)[1..] == code[1..] + "-" + rest;
      BeforeDash(code[1..], rest);
    } else {
      assert code + "-" + rest == ['-'] + rest;
    }
  }

  lemma {:induction false} NoDash(s: string)
    requires '-' !in s
    ensures BeforeFirst(s, '-') == s
  {
    if s != [] {
      NoDash(s[1..]);
    }
  }

  lemma DetectExamples()
    ensures Detect(Some("uk-UA"), None) == "uk"
    ensures Detect(Some("RU"), None) == "ru"
  {
    assert BeforeFirst("uk-UA", '-') == "uk" by { BeforeDash("uk", "UA"); }
    assert BeforeFirst("RU", '-') == "RU" by { NoDash("RU"); }
  }

  /** A truthy `navigator.language` wins over `navigator.userLanguage`. */
  lemma DetectPrefersLanguage()
    ensures Detect(Some("en-US"), Some("uk")) == "en"
  {
    assert BeforeFirst("en-US", '-') == "en" by { BeforeDash("en", "US"); }
  }

  /** A falsy `navigator.language` defers to `navigator.userLanguage`, and with neither
      the answer is English. */
  lemma DetectFallbacks()
    ensures Detect(Some(""), Some("ru-RU")) == "ru"
    ensures Detect(None, None) == "en"
  {
    assert BeforeFirst("ru-RU", '-') == "ru" by { BeforeDash("ru", "RU"); }
    assert BeforeFirst("en", '-') == "en" by { NoDash("en"); }
  }

  /** `init`: a saved choice that names a table wins; otherwise the system language. */
  function InitialLanguage(saved: Option<string>, language: Option<string>, userLanguage: Option<string>): (r: string)
    ensures Known(r)
    ensures Truthy(saved) && Known(saved.value) ==> r == saved.value
    ensures !(Truthy(saved) && Known(saved.value)) ==> r == Detect(language, userLanguage)
  {
    if Truthy(saved) && Known(saved.value) then saved.value else Detect(language, userLanguage)
  }

  // ---- The guard as written ----

  /** The properties every plain JavaScript object inherits from `Object.prototype`. */
  const PrototypeNames: set<string> := {
    "constructor", "hasOwnProperty", "isPrototypeOf", "propertyIsEnumerable",
    "toString", "toLocaleString", "valueOf", "__proto__",
    "__defineGetter__", "__defineSetter__", "__lookupGetter__", "__lookupSetter__"}

  /** As written, `translations[lang]` is a property read on a plain object, so it is
      truthy for the three tables and for every inherited property name as well. */
  predicate KnownAsWritten(lang: string) {
    lang in Languages || lang in PrototypeNames
  }

  /** `init` as written. */
  function InitialLanguageAsWritten(saved: Option<string>, language: Option<string>, userLanguage: Option<string>): string {
    if Truthy(saved) && KnownAsWritten(saved.value) then saved.value else Detect(language, userLanguage)
  }

  /** An inherited name passes the guard as written, so `init` can make it the current
      language, which then has no table (for `setLanguage`, see `PrototypeLanguageSet`). */
  lemma PrototypeNameAccepted()
    ensures KnownAsWritten("constructor") && !Known("constructor")
    ensures InitialLanguageAsWritten(Some("constructor"), None, None) == "constructor"
  {
  }

  /** The two guards agree on every name that is not inherited. */
  lemma GuardsAgree(lang: string)
    requires lang !in PrototypeNames
    ensures KnownAsWritten(lang) <==> Known(lang)
  {
  }

  /** Off the inherited names, `init` as written and `init` with the table test agree. */
  lemma InitialAgrees(saved: Option<string>, language: Option<string>, userLanguage: Option<string>)
    requires !(Truthy(saved) && saved.value in PrototypeNames)
    ensures InitialLanguageAsWritten(saved, language, userLanguage) == InitialLanguage(saved, language, userLanguage)
  {
    if Truthy(saved) {
      GuardsAgree(saved.value);
    }
  }

  /** `setLanguage` with the table test: the language after the call and the answer. */
  function SelectLanguage(current: string, lang: string): (r: (string, bool))
    ensures r.1 <==> Known(lang)
    ensures r.1 ==> r.0 == lang
    ensures !r.1 ==> r.0 == current
    ensures Known(current) ==> Known(r.0)
  {
    if Known(lang) then (lang, true) else (current, false)
  }

  /** Off the inherited names, the table test answers as the guard as written does. */
  lemma SelectAgrees(current: string, lang: string)
    requires lang !in PrototypeNames
    ensures SelectLanguage(current, lang).1 <==> KnownAsWritten(lang)
  {
    GuardsAgree(lang);
  }

  // ---- The language list ----

  /** An entry of `getAvailableLanguages`; the name is whatever the English table holds
      under the language's name key. */
  datatype LanguageOption = LanguageOption(code: string, name: Option<string>)

  /** `getAvailableLanguages`: the three codes with their names from the English table. */
  function Available(): seq<LanguageOption> {
    [LanguageOption("en", En("langEnglish")),
     LanguageOption("uk", En("langUkrainian")),
     LanguageOption("ru", En("langRussian"))]
  }

  /** The list offers exactly the known languages, in table order, and each choice is one
      `setLanguage` accepts. */
  lemma AvailableCodes()
    ensures |Available()| == |Languages|
    ensures forall i :: 0 <= i < |Available()| ==> Available()[i].code == Languages[i] && Known(Available()[i].code)
  {
  }

  /** Each language is listed under its own name, whatever the current language. */
  lemma AvailableNames()
    ensures Available()[0].name == Some("English")
    ensures Available()[1].name == Some("Українська")
    ensures Available()[2].name == Some("Русский")
  {
    EnglishName();
    UkrainianName();
    RussianName();
  }

  lemma EnglishName()
    ensures En("langEnglish") == Some("English")
  {
  }

  lemma UkrainianName()
    ensures En("langUkrainian") == Some("Українська")
  {
  }

  lemma RussianName()
    ensures En("langRussian") == Some("Русский")
  {
  }

  // ---- The I18n object ----

  class I18n {
    var currentLang: string
    /** The `suno_language` entry of local storage. */
    var saved: Option<string>

    /** The current language always passes the guard `translations[lang]` as written:
        one of the three tables, or an inherited property name. */
    ghost predicate Valid()
      reads this
    {
      KnownAsWritten(currentLang)
    }

    /** `new I18n()`, given the stored choice and what the browser reports. The current
        language has a table of its own unless the stored choice is an inherited property
        name. */
    constructor (saved: Option<string>, language: Option<string>, userLanguage: Option<string>)
      ensures Valid()
      ensures currentLang == InitialLanguageAsWritten(saved, language, userLanguage) && this.saved == saved
      ensures Known(currentLang) <==> !(Truthy(saved) && saved.value in PrototypeNames)
    {
      this.saved := saved;
      if Truthy(saved) && KnownAsWritten(saved.value) {
        currentLang := saved.value;
      } else {
        currentLang := Detect(language, userLanguage);
      }
    }

    method Get(key: string) returns (r: string)
      ensures r == Translate(currentLang, key)
    {
      r := Translate(currentLang, key);
    }

    /** `setLanguage(lang)`: a name that passes `translations[lang]` becomes current and is
        remembered; any other name is refused and changes nothing. A name other than an
        inherited property keeps the current language one with a table. */
    method SetLanguage(lang: string) returns (ok: bool)
      modifies this
      ensures ok <==> KnownAsWritten(lang)
      ensures ok ==> currentLang == lang && saved == Some(lang)
      ensures !ok ==> unchanged(this)
      ensures old(Valid()) ==> Valid()
      ensures old(Known(currentLang)) && lang !in PrototypeNames ==> Known(currentLang)
    {
      if KnownAsWritten(lang) {
        currentLang := lang;
        saved := Some(lang);
        return true;
      }
      return false;
    }

    method GetLanguage() returns (r: string)
      ensures r == currentLang
    {
      return currentLang;
    }

    method GetAvailableLanguages() returns (r: seq<LanguageOption>)
      ensures r == Available()
    {
      r := Available();
    }
  }

  /** As written, `setLanguage("toString")` on a fresh object succeeds and leaves a current
      language without a table of its own. */
  method PrototypeLanguageSet() returns (ok: bool, current: string)
    ensures ok && current == "toString" && !Known(current)
  {
    var i18n := new I18n(None, None, None);
    ok := i18n.SetLanguage("toString");
    current := i18n.GetLanguage();
  }
}
