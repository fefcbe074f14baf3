/**
 * The pipeline stage that loads the request's dictionary into
 * `HttpContext.Items`, and the helper downstream code uses to get a
 * translator back out of it.
 */
module Middleware {
  import opened Wrappers
  import opened Exceptions
  import opened KeyValues
  import opened Dictionaries
  import opened Hosting
  import opened Loading
  import opened Translators

  /** The item name the retrieval helper uses when no name is given. */
  const DefaultItemName := "DewLocalization"

  class DewLocalizationMiddleware {
    const options: LocalizationOptions
    const deserialize: Deserializer
    /** The dictionary most recently loaded by this stage. */
    var dictionary: StringDictionary?

    constructor (options: LocalizationOptions, deserialize: Deserializer)
      ensures this.options == options && this.deserialize == deserialize && dictionary == null
    {
      this.options := options;
      this.deserialize := deserialize;
      dictionary := null;
    }

    /**
     * `GetDictionaryFromFiles(context, env)`: load the dictionary for the
     * request's language into the field; on failure the field is unchanged.
     */
    method GetDictionaryFromFiles(context: HttpContext, env: HostingEnvironment?) returns (outcome: Outcome<Exception>)
      modifies this`dictionary, env
      ensures var load := LoadDictionary(context.Cookies, options, env, deserialize);
              && (load.Failure? ==> outcome == Fail(load.error) && dictionary == old(dictionary))
              && (load.Success? ==> outcome == Pass && (dictionary == null <==> load.value.None?))
              && (load.Success? && dictionary != null ==>
                    fresh(dictionary) && dictionary.Valid() && dictionary.entries == load.value.value)
      ensures env != null ==> env.OpenedPaths == old(env.OpenedPaths) + AttemptedPaths(context.Cookies, options, env)
    {
      var loaded := LoadFromFiles(context.Cookies, options, env, deserialize);
      if loaded.Failure? {
        return Fail(loaded.error);
      }
      dictionary := loaded.value;
      return Pass;
    }

    /** `_next(context)`: hands the request, with its current items, to the next stage. */
    method Next(context: HttpContext)
      modifies context`DownstreamCalls
      ensures context.DownstreamCalls == old(context.DownstreamCalls) + [context.Items]
    {
      context.DownstreamCalls := context.DownstreamCalls + [context.Items];
    }

    /**
     * `Invoke(context, env)`: load the dictionary, add it to the items under
     * `options.CustomName`, then call the next stage. A failed load (rethrown
     * by `Wait` as an aggregate) or a name already in use ends the request
     * before the next stage is reached.
     */
    method Invoke(context: HttpContext, env: HostingEnvironment?) returns (outcome: Outcome<Exception>)
      requires context.Valid()
      modifies this`dictionary, context`Items, context`DownstreamCalls, env
      ensures context.Valid()
      ensures var load := LoadDictionary(context.Cookies, options, env, deserialize);
              load.Failure? ==>
                && outcome == Fail(Aggregate(load.error))
                && dictionary == old(dictionary)
                && context.Items == old(context.Items)
                && context.DownstreamCalls == old(context.DownstreamCalls)
      ensures var load := LoadDictionary(context.Cookies, options, env, deserialize);
              load.Success? ==>
                && (dictionary == null <==> load.value.None?)
                && (dictionary != null ==>
                      fresh(dictionary) && dictionary.Valid() && dictionary.entries == load.value.value)
      ensures var load := LoadDictionary(context.Cookies, options, env, deserialize);
              load.Success? && options.CustomName in ToMap(old(context.Items)) ==>
                && outcome == Fail(Argument(options.CustomName))
                && context.Items == old(context.Items)
                && context.DownstreamCalls == old(context.DownstreamCalls)
      ensures var load := LoadDictionary(context.Cookies, options, env, deserialize);
              load.Success? && options.CustomName !in ToMap(old(context.Items)) ==>
                && outcome == Pass
                && context.Items == old(context.Items) + [(options.CustomName, DictionaryObject(dictionary))]
                && context.DownstreamCalls == old(context.DownstreamCalls) + [context.Items]
      ensures env != null ==> env.OpenedPaths == old(env.OpenedPaths) + AttemptedPaths(context.Cookies, options, env)
    {
      var loaded := GetDictionaryFromFiles(context, env);
      if loaded.Fail? {
        return Fail(Aggregate(loaded.error));
      }
      var added := context.AddItem(options.CustomName, DictionaryObject(dictionary));
      if added.Fail? {
        return added;
      }
      Next(context);
      return Pass;
    }
  }

  /** `customName ?? "DewLocalization"`. */
  function ItemName(customName: Option<string>): (name: string)
    ensures customName.Some? ==> name == customName.value
    ensures customName.None? ==> name == DefaultItemName
  {
    match customName
    case None => DefaultItemName
    case Some(name) => name
  }

  /**
   * What the retrieval helper finds in the items: None when no item has the
   * name, otherwise the stored value seen as a dictionary (null when it is
   * not one).
   */
  function StoredDictionary(items: seq<(string, ItemValue)>, customName: Option<string>): (r: Option<StringDictionary?>)
    ensures r.None? <==> ItemName(customName) !in ToMap(items)
    ensures r.Some? ==> r.value == AsDictionary(ToMap(items)[ItemName(customName)])
  {
    match FirstWithKey(items, ItemName(customName))
    case None => None
    case Some(item) => Some(AsDictionary(item.1))
  }

  /**
   * `context.GetDewLocalizationTranslator(customName)`: null when no item has
   * the name, otherwise a new translator over the stored value.
   */
  method GetDewLocalizationTranslator(context: HttpContext, customName: Option<string>) returns (translator: DewTranslator?)
    ensures translator == null <==> StoredDictionary(context.Items, customName).None?
    ensures translator != null ==>
              fresh(translator) && translator.dictionary == StoredDictionary(context.Items, customName).value
  {
    var name := ItemName(customName);
    var data := FirstWithKey(context.Items, name);
    if data.None? {
      return null;
    }
    translator := new DewTranslator(AsDictionary(data.value.1));
  }

  /**
   * The dictionary `Invoke` adds is what the retrieval helper finds under the
   * same name, and with the default options it is also found without a name.
   */
  lemma AddedDictionaryIsRetrieved(items: seq<(string, ItemValue)>, options: LocalizationOptions, d: StringDictionary?)
    requires options.CustomName !in ToMap(items)
    ensures var added := items + [(options.CustomName, DictionaryObject(d))];
            && StoredDictionary(added, Some(options.CustomName)) == Some(d)
            && (options.CustomName == DefaultOptions.CustomName ==> StoredDictionary(added, None) == Some(d))
  {
    ToMapAppend(items, options.CustomName, DictionaryObject(d));
  }

  /**
   * With a custom item name, the retrieval helper called without a name
   * looks under "DewLocalization" and does not see the added dictionary.
   */
  lemma CustomNameNeedsExplicitRetrieval(items: seq<(string, ItemValue)>, options: LocalizationOptions, d: StringDictionary?)
    requires options.CustomName !in ToMap(items)
    requires options.CustomName != DefaultItemName && DefaultItemName !in ToMap(items)
    ensures StoredDictionary(items + [(options.CustomName, DictionaryObject(d))], None).None?
  {
    ToMapAppend(items, options.CustomName, DictionaryObject(d));
  }

  /** The defaults of a fresh options object agree with the retrieval helper's default name. */
  lemma DefaultOptionValues(language: string)
    ensures DefaultOptions.Language == "en-us" && DefaultOptions.Path == "Localization"
    ensures DefaultOptions.Cookie == "lang" && DefaultOptions.CustomName == DefaultItemName
    ensures LocalizationPath(DefaultOptions, language) == "Localization/" + language + ".json"
  {
  }

  /**
   * A request with cookie `lang=it-it`, default options and the files
   * `Localization/en-us.json` and `Localization/it-it.json`: downstream code
   * gets the Italian dictionary, and a missing key translates to itself.
   */
  method ItalianRequest()
  {
    var english := "{\"hello\": \"Hello\"}";
    var italian := "{\"hello\": \"Ciao\"}";
    var deserialize: Deserializer := text =>
      if text == english then Members([("hello", "Hello")])
      else if text == italian then Members([("hello", "Ciao")])
      else Malformed;
    var enPath, itPath := LocalizationPath(DefaultOptions, "en-us"), LocalizationPath(DefaultOptions, "it-it");
    var env := new HostingEnvironment(map[enPath := Some(english), itPath := Some(italian)]);
    var stage := new DewLocalizationMiddleware(DefaultOptions, deserialize);
    var context := new HttpContext([("lang", "it-it")], []);
    assert ResolveLanguage(context.Cookies, DefaultOptions) == "it-it" by {
      ResolveLanguageFromFirstCookie(context.Cookies, DefaultOptions, 0);
    }
    assert deserialize(italian) == Members([("hello", "Ciao")]);
    PrimaryFileLoads(context.Cookies, DefaultOptions, env, deserialize, italian);
    assert FromMembers([("hello", "Ciao")]) == [("hello", "Ciao")];
    assert LoadDictionary(context.Cookies, DefaultOptions, env, deserialize) == Success(Some([("hello", "Ciao")]));
    var outcome := stage.Invoke(context, env);
    assert outcome == Pass;
    var translator := GetDewLocalizationTranslator(context, None);
    assert translator != null;
    assert translator.GetString("hello") == Success("Ciao");
    assert "missing_key" !in translator.dictionary.Map() by {
      assert translator.dictionary.Map() == map["hello" := "Ciao"];
    }
    assert translator.GetString("missing_key") == Success("missing_key");
    assert env.OpenedPaths == [itPath];
  }

  /** A request for a language without a file falls back to the default language. */
  method FrenchRequestFallsBack()
  {
    var english := "{\"hello\": \"Hello\"}";
    var deserialize: Deserializer := text => if text == english then Members([("hello", "Hello")]) else Malformed;
    var enPath, frPath := LocalizationPath(DefaultOptions, "en-us"), LocalizationPath(DefaultOptions, "fr-fr");
    var env := new HostingEnvironment(map[enPath := Some(english)]);
    var stage := new DewLocalizationMiddleware(DefaultOptions, deserialize);
    var context := new HttpContext([("lang", "fr-fr")], []);
    assert ResolveLanguage(context.Cookies, DefaultOptions) == "fr-fr" by {
      ResolveLanguageFromFirstCookie(context.Cookies, DefaultOptions, 0);
    }
    LocalizationPathInjective(DefaultOptions, "fr-fr", "en-us");
    FallbackFileLoads(context.Cookies, DefaultOptions, env, deserialize, english);
    assert FromMembers([("hello", "Hello")]) == [("hello", "Hello")];
    assert LoadDictionary(context.Cookies, DefaultOptions, env, deserialize) == Success(Some([("hello", "Hello")]));
    var outcome := stage.Invoke(context, env);
    assert outcome == Pass;
    assert env.OpenedPaths == [frPath, enPath];
    var translator := GetDewLocalizationTranslator(context, None);
    assert translator != null && translator.GetString("hello") == Success("Hello");
  }

  /** A request without the cookie is served in the default language. */
  method RequestWithoutCookie()
  {
    var english := "{\"hello\": \"Hello\"}";
    var deserialize: Deserializer := text => if text == english then Members([("hello", "Hello")]) else Malformed;
    var env := new HostingEnvironment(map["Localization/en-us.json" := Some(english)]);
    var stage := new DewLocalizationMiddleware(DefaultOptions, deserialize);
    var context := new HttpContext([("theme", "dark")], []);
    assert ResolveLanguage(context.Cookies, DefaultOptions) == "en-us";
    assert LocalizationPath(DefaultOptions, "en-us") == "Localization/en-us.json";
    assert deserialize(english) == Members([("hello", "Hello")]);
    var outcome := stage.Invoke(context, env);
    assert outcome == Pass;
    var translator := GetDewLocalizationTranslator(context, None);
    assert translator != null && translator.GetString("hello") == Success("Hello");
  }

  /**
   * When neither the requested nor the default language has a file, the
   * request fails before the next stage and no dictionary reaches the items.
   */
  method MissingDefaultFileFailsRequest()
  {
    var deserialize: Deserializer := text => Members([]);
    var env := new HostingEnvironment(map[]);
    var stage := new DewLocalizationMiddleware(DefaultOptions, deserialize);
    var context := new HttpContext([("lang", "fr-fr")], []);
    assert ResolveLanguage(context.Cookies, DefaultOptions) == "fr-fr" by {
      ResolveLanguageFromFirstCookie(context.Cookies, DefaultOptions, 0);
    }
    assert LocalizationPath(DefaultOptions, "en-us") == "Localization/en-us.json";
    var outcome := stage.Invoke(context, env);
    assert outcome == Fail(Aggregate(FileNotFound("Localization/en-us.json")));
    assert context.Items == [] && context.DownstreamCalls == [];
    var translator := GetDewLocalizationTranslator(context, None);
    assert translator == null;
  }

  /**
   * A language file holding no JSON token deserializes to null: the load
   * succeeds, a null dictionary is added to the items, and the translator
   * built over it fails on every lookup.
   */
  method EmptyLanguageFileGivesNullDictionary()
  {
    var deserialize: Deserializer := text => if text == "" then NullToken else Malformed;
    var env := new HostingEnvironment(map["Localization/it-it.json" := Some("")]);
    var stage := new DewLocalizationMiddleware(DefaultOptions, deserialize);
    var context := new HttpContext([("lang", "it-it")], []);
    assert ResolveLanguage(context.Cookies, DefaultOptions) == "it-it" by {
      ResolveLanguageFromFirstCookie(context.Cookies, DefaultOptions, 0);
    }
    assert LocalizationPath(DefaultOptions, "it-it") == "Localization/it-it.json";
    var outcome := stage.Invoke(context, env);
    assert outcome == Pass && stage.dictionary == null;
    assert context.Items == [(DefaultItemName, DictionaryObject(null))];
    var translator := GetDewLocalizationTranslator(context, None);
    assert translator != null && translator.dictionary == null;
    assert translator.GetString("hello") == Failure(ArgumentNull);
    assert translator.Item("hello") == Failure(NullReference);
  }
}
