/**
 * Choosing the language of a request and loading its translation file,
 * with one retry against the default language's file.
 */
module Loading {
  import opened Wrappers
  import opened Exceptions
  import opened KeyValues
  import opened Dictionaries
  import opened Hosting

  /** `DewLocalizationMiddlewareOptions`. */
  datatype LocalizationOptions = LocalizationOptions(
    Language: string,   // the default language
    Path: string,       // directory of the `<language>.json` files
    Cookie: string,     // name of the cookie that selects the language
    CustomName: string) // key of the dictionary in `HttpContext.Items`

  /** The field initialisers of a fresh options object. */
  const DefaultOptions := LocalizationOptions("en-us", "Localization", "lang", "DewLocalization")

  /**
   * What `DeserializeObject<Dictionary<string, string>>` makes of a text:
   * a failure (`Malformed`), a null result without an exception (`NullToken`:
   * the literal `null`, or a text holding no JSON token at all, such as an
   * empty or whitespace-only file), or the members of the top-level object
   * in document order.
   */
  datatype Parsed = Malformed | NullToken | Members(members: seq<(string, string)>)

  /** The JSON deserializer. */
  type Deserializer = string -> Parsed

  /**
   * The language of a request: the value of the first cookie named
   * `options.Cookie`, or the default language when there is no such cookie.
   */
  function ResolveLanguage(cookies: seq<(string, string)>, options: LocalizationOptions): (language: string)
    ensures options.Cookie !in ToMap(cookies) ==> language == options.Language
    ensures options.Cookie in ToMap(cookies) ==> language == ToMap(cookies)[options.Cookie]
  {
    match FirstWithKey(cookies, options.Cookie)
    case None => options.Language
    case Some(cookie) => cookie.1
  }

  /** The cookie that decides the language is the first one with the configured name. */
  lemma ResolveLanguageFromFirstCookie(cookies: seq<(string, string)>, options: LocalizationOptions, i: nat)
    requires i < |cookies| && cookies[i].0 == options.Cookie
    requires forall j :: 0 <= j < i ==> cookies[j].0 != options.Cookie
    ensures ResolveLanguage(cookies, options) == cookies[i].1
  {
  }

  /** The file of a language: `<Path>/<language>.json`. */
  function LocalizationPath(options: LocalizationOptions, language: string): (path: string)
    ensures |path| == |options.Path| + |language| + 6
    ensures path[..|options.Path|] == options.Path && path[|options.Path|] == '/'
    ensures path[|options.Path| + 1..|path| - 5] == language && path[|path| - 5..] == ".json"
  {
    options.Path + "/" + language + ".json"
  }

  /** Different languages are read from different files. */
  lemma LocalizationPathInjective(options: LocalizationOptions, a: string, b: string)
    ensures LocalizationPath(options, a) == LocalizationPath(options, b) <==> a == b
  {
  }

  /**
   * The text read for a request: the language file if it can be read,
   * otherwise the default language's file, whose failure is not caught.
   */
  function ReadLocalizationJson(cookies: seq<(string, string)>, options: LocalizationOptions,
                                env: HostingEnvironment?): (r: Result<string, Exception>)
    ensures var primary := ReadFile(env, LocalizationPath(options, ResolveLanguage(cookies, options)));
            var fallback := ReadFile(env, LocalizationPath(options, options.Language));
            && (primary.Success? ==> r == primary)
            && (primary.Failure? ==> r == fallback)
            && (r.Success? <==> primary.Success? || fallback.Success?)
  {
    var primary := ReadFile(env, LocalizationPath(options, ResolveLanguage(cookies, options)));
    if primary.Success? then primary
    else ReadFile(env, LocalizationPath(options, options.Language))
  }

  /** The paths opened while reading: the language file, then the default one if that failed. */
  function AttemptedPaths(cookies: seq<(string, string)>, options: LocalizationOptions,
                          env: HostingEnvironment?): (paths: seq<string>)
    ensures env == null ==> paths == []
    ensures env != null ==>
              && 1 <= |paths| <= 2
              && paths[0] == LocalizationPath(options, ResolveLanguage(cookies, options))
              && (|paths| == 2 <==> ReadFile(env, paths[0]).Failure?)
              && (|paths| == 2 ==> paths[1] == LocalizationPath(options, options.Language))
  {
    if env == null then []
    else
      var primary := LocalizationPath(options, ResolveLanguage(cookies, options));
      if ReadFile(env, primary).Success? then [primary]
      else [primary, LocalizationPath(options, options.Language)]
  }

  /**
   * The dictionary deserialization yields: JsonReader for a malformed text,
   * null (None) for a text without a JSON token, otherwise the entries
   * filled in from the members.
   */
  function DictionaryFrom(parsed: Parsed): (r: Result<Option<seq<(string, string)>>, Exception>)
    ensures r.Failure? <==> parsed.Malformed?
    ensures r.Failure? ==> r.error == JsonReader
    ensures r.Success? ==> (r.value.None? <==> parsed.NullToken?)
    ensures r.Success? && r.value.Some? ==>
              DistinctKeys(r.value.value) && ToMap(r.value.value).Keys == KeysOf(parsed.members)
    ensures r.Success? && r.value.Some? ==> r.value.value == FromMembers(parsed.members)
  {
    match parsed
    case Malformed => Failure(JsonReader)
    case NullToken => Success(None)
    case Members(members) =>
      FromMembersKeys(members);
      Success(Some(FromMembers(members)))
  }

  /**
   * The dictionary a request ends up with (None: a null dictionary): the
   * text that was read, deserialized once, outside the retry.
   */
  function LoadDictionary(cookies: seq<(string, string)>, options: LocalizationOptions,
                          env: HostingEnvironment?, deserialize: Deserializer)
    : (r: Result<Option<seq<(string, string)>>, Exception>)
    ensures r.Success? ==>
              && ReadLocalizationJson(cookies, options, env).Success?
              && r == DictionaryFrom(deserialize(ReadLocalizationJson(cookies, options, env).value))
    ensures r.Failure? ==>
              || r.error == JsonReader
              || (&& ReadFile(env, LocalizationPath(options, ResolveLanguage(cookies, options))).Failure?
                  && ReadFile(env, LocalizationPath(options, options.Language)).Failure?
                  && r.error == ReadFile(env, LocalizationPath(options, options.Language)).error)
  {
    match ReadLocalizationJson(cookies, options, env)
    case Failure(e) => Failure(e)
    case Success(json) => DictionaryFrom(deserialize(json))
  }

  /** The loader in full: which text is used, what is retried and what fails. */
  lemma TwoAttemptLoader(cookies: seq<(string, string)>, options: LocalizationOptions,
                         env: HostingEnvironment?, deserialize: Deserializer)
    ensures var language := ResolveLanguage(cookies, options);
            var primary := ReadFile(env, LocalizationPath(options, language));
            var fallback := ReadFile(env, LocalizationPath(options, options.Language));
            var load := LoadDictionary(cookies, options, env, deserialize);
            && (primary.Success? ==> load == DictionaryFrom(deserialize(primary.value)))
            && (primary.Failure? && fallback.Success? ==> load == DictionaryFrom(deserialize(fallback.value)))
            && (primary.Failure? && fallback.Failure? ==> load == Failure(fallback.error))
    ensures env != null ==> 1 <= |AttemptedPaths(cookies, options, env)| <= 2
    ensures env != null ==>
              AttemptedPaths(cookies, options, env)[0] == LocalizationPath(options, ResolveLanguage(cookies, options))
  {
  }

  /** The requested language's file is read: it is the only file opened, and its text is deserialized. */
  lemma PrimaryFileLoads(cookies: seq<(string, string)>, options: LocalizationOptions,
                         env: HostingEnvironment, deserialize: Deserializer, text: string)
    requires var path := LocalizationPath(options, ResolveLanguage(cookies, options));
             path in env.ContentRoot && env.ContentRoot[path] == Some(text)
    ensures AttemptedPaths(cookies, options, env) == [LocalizationPath(options, ResolveLanguage(cookies, options))]
    ensures LoadDictionary(cookies, options, env, deserialize) == DictionaryFrom(deserialize(text))
  {
  }

  /** The requested language has no file: the default language's file is opened next and its text is deserialized. */
  lemma FallbackFileLoads(cookies: seq<(string, string)>, options: LocalizationOptions,
                          env: HostingEnvironment, deserialize: Deserializer, text: string)
    requires LocalizationPath(options, ResolveLanguage(cookies, options)) !in env.ContentRoot
    requires var path := LocalizationPath(options, options.Language);
             path in env.ContentRoot && env.ContentRoot[path] == Some(text)
    ensures AttemptedPaths(cookies, options, env)
            == [LocalizationPath(options, ResolveLanguage(cookies, options)), LocalizationPath(options, options.Language)]
    ensures LoadDictionary(cookies, options, env, deserialize) == DictionaryFrom(deserialize(text))
  {
  }

  /**
   * A language file that reads but does not parse is not retried: the
   * request fails whatever the default language's file holds.
   */
  lemma MalformedLanguageFileIsNotRetried(cookies: seq<(string, string)>, options: LocalizationOptions,
                                          env: HostingEnvironment?, deserialize: Deserializer)
    requires var primary := ReadFile(env, LocalizationPath(options, ResolveLanguage(cookies, options)));
             primary.Success? && deserialize(primary.value).Malformed?
    ensures LoadDictionary(cookies, options, env, deserialize) == Failure(JsonReader)
    ensures AttemptedPaths(cookies, options, env) == [LocalizationPath(options, ResolveLanguage(cookies, options))]
  {
  }

  /**
   * A language file without a JSON token is not retried either: the load
   * succeeds with a null dictionary.
   */
  lemma EmptyLanguageFileYieldsNullDictionary(cookies: seq<(string, string)>, options: LocalizationOptions,
                                              env: HostingEnvironment?, deserialize: Deserializer)
    requires var primary := ReadFile(env, LocalizationPath(options, ResolveLanguage(cookies, options)));
             primary.Success? && deserialize(primary.value).NullToken?
    ensures LoadDictionary(cookies, options, env, deserialize) == Success(None)
  {
  }

  /**
   * When the language is the default one, the retry opens the same file
   * again; since the content root does not change during a request, the
   * request fails with the second read's error.
   */
  lemma RetryOfDefaultLanguageRereadsSameFile(cookies: seq<(string, string)>, options: LocalizationOptions,
                                              env: HostingEnvironment?, deserialize: Deserializer)
    requires ResolveLanguage(cookies, options) == options.Language
    requires ReadFile(env, LocalizationPath(options, options.Language)).Failure?
    ensures LoadDictionary(cookies, options, env, deserialize)
            == Failure(ReadFile(env, LocalizationPath(options, options.Language)).error)
    ensures env != null ==>
              AttemptedPaths(cookies, options, env)
              == [LocalizationPath(options, options.Language), LocalizationPath(options, options.Language)]
  {
  }

  /**
   * `GetDictionaryFromFiles` up to the assignment of the dictionary field:
   * resolve the language, read with one retry, deserialize, build the
   * dictionary (null when the text holds no JSON token).
   */
  method LoadFromFiles(cookies: seq<(string, string)>, options: LocalizationOptions,
                       env: HostingEnvironment?, deserialize: Deserializer)
    returns (r: Result<StringDictionary?, Exception>)
    modifies env
    ensures var load := LoadDictionary(cookies, options, env, deserialize);
            && (r.Failure? <==> load.Failure?)
            && (r.Failure? ==> r.error == load.error)
            && (r.Success? ==> (r.value == null <==> load.value.None?))
            && (r.Success? && r.value != null ==>
                  fresh(r.value) && r.value.Valid() && r.value.entries == load.value.value)
    ensures env != null ==> env.OpenedPaths == old(env.OpenedPaths) + AttemptedPaths(cookies, options, env)
  {
    var language := FirstWithKey(cookies, options.Cookie);
    var currLanguage := options.Language;
    if language.Some? {
      currLanguage := language.value.1;
    }
    var localizationJson := ReadToEnd(env, options.Path + "/" + currLanguage + ".json");
    if localizationJson.Failure? {
      localizationJson := ReadToEnd(env, options.Path + "/" + options.Language + ".json");
    }
    if localizationJson.Failure? {
      return Failure(localizationJson.error);
    }
    var parsed := deserialize(localizationJson.value);
    if parsed.Malformed? {
      return Failure(JsonReader);
    } else if parsed.NullToken? {
      return Success(null);
    }
    var dictionary := new StringDictionary.Deserialized(parsed.members);
    return Success(dictionary);
  }
}
