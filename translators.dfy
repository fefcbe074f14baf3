/**
 * The two translator façades over a translation dictionary:
 * `DewTranslatorService`, which loads its own dictionary and has a strict
 * indexer, and `DewTranslator`, a view over a given dictionary with a
 * lenient indexer.
 */
module Translators {
  import opened Wrappers
  import opened Exceptions
  import opened KeyValues
  import opened Dictionaries
  import opened Hosting
  import opened Loading

  /**
   * `GetString(key)` on the entries of a dictionary: the value of `key`
   * found by a scan, or the key itself when it is missing.
   */
  function TranslateOrKey(entries: seq<(string, string)>, key: string): (r: string)
    ensures key in ToMap(entries) ==> r == ToMap(entries)[key]
    ensures key !in ToMap(entries) ==> r == key
  {
    match FirstWithKey(entries, key)
    case None => key
    case Some(pair) => pair.1
  }

  /** `GetString(key, def)`: the value of `key`, or `def` when it is missing. */
  function TranslateOrDefault(entries: seq<(string, string)>, key: string, def: string): (r: string)
    ensures key in ToMap(entries) ==> r == ToMap(entries)[key]
    ensures key !in ToMap(entries) ==> r == def
  {
    match FirstWithKey(entries, key)
    case None => def
    case Some(pair) => pair.1
  }

  /** `First(x => x.Key == key).Value`: the value of `key`, or InvalidOperation. */
  function TranslateStrict(entries: seq<(string, string)>, key: string): (r: Result<string, Exception>)
    ensures r.Success? <==> key in ToMap(entries)
    ensures r.Success? ==> r.value == ToMap(entries)[key]
    ensures r.Failure? ==> r.error == InvalidOperation
  {
    match FirstWithKey(entries, key)
    case None => Failure(InvalidOperation)
    case Some(pair) => Success(pair.1)
  }

  /** The key-fallback lookup is the default-fallback lookup with the key as default. */
  lemma TranslateOrKeyDefaultsToKey(entries: seq<(string, string)>, key: string)
    ensures TranslateOrKey(entries, key) == TranslateOrDefault(entries, key, key)
  {
  }

  /** For a key that is present, the default argument makes no difference. */
  lemma DefaultIgnoredWhenPresent(entries: seq<(string, string)>, key: string, def1: string, def2: string)
    requires key in ToMap(entries)
    ensures TranslateOrDefault(entries, key, def1) == TranslateOrDefault(entries, key, def2)
  {
  }

  /** All three lookups agree on a key that is present. */
  lemma LookupsAgreeWhenPresent(entries: seq<(string, string)>, key: string, def: string)
    requires key in ToMap(entries)
    ensures TranslateStrict(entries, key) == Success(TranslateOrKey(entries, key))
    ensures TranslateOrDefault(entries, key, def) == TranslateOrKey(entries, key)
  {
  }

  /** `DewTranslatorService`: a translator that loads its own dictionary. */
  class DewTranslatorService {
    /** Null until `GetDictionaryFromFiles` has loaded a text holding a JSON object. */
    var dictionary: StringDictionary?
    /** None when the constructor was given null options. */
    const options: Option<LocalizationOptions>
    const env: HostingEnvironment?
    const deserialize: Deserializer

    constructor (options: Option<LocalizationOptions>, env: HostingEnvironment?, deserialize: Deserializer)
      ensures dictionary == null
      ensures this.options == options && this.env == env && this.deserialize == deserialize
    {
      dictionary := null;
      this.options := options;
      this.env := env;
      this.deserialize := deserialize;
    }

    /** `GetString(key)`: the translation, the key when missing; no dictionary makes the scan throw. */
    function GetString(key: string): (r: Result<string, Exception>)
      reads this, dictionary
      ensures r.Failure? <==> dictionary == null
      ensures r.Failure? ==> r.error == ArgumentNull
      ensures r.Success? && key in dictionary.Map() ==> r.value == dictionary.Map()[key]
      ensures r.Success? && key !in dictionary.Map() ==> r.value == key
    {
      if dictionary == null then Failure(ArgumentNull)
      else Success(TranslateOrKey(dictionary.entries, key))
    }

    /** `GetString(key, def)`: the translation, `def` when missing; no dictionary makes the scan throw. */
    function GetStringOrDefault(key: string, def: string): (r: Result<string, Exception>)
      reads this, dictionary
      ensures r.Failure? <==> dictionary == null
      ensures r.Failure? ==> r.error == ArgumentNull
      ensures r.Success? && key in dictionary.Map() ==> r.value == dictionary.Map()[key]
      ensures r.Success? && key !in dictionary.Map() ==> r.value == def
    {
      if dictionary == null then Failure(ArgumentNull)
      else Success(TranslateOrDefault(dictionary.entries, key, def))
    }

    /** `this[key]`, strict: InvalidOperation for a missing key. */
    function Item(key: string): (r: Result<string, Exception>)
      reads this, dictionary
      ensures dictionary == null ==> r == Failure(ArgumentNull)
      ensures dictionary != null && key !in dictionary.Map() ==> r == Failure(InvalidOperation)
      ensures dictionary != null && key in dictionary.Map() ==> r == Success(dictionary.Map()[key]) == GetString(key)
    {
      if dictionary == null then Failure(ArgumentNull)
      else TranslateStrict(dictionary.entries, key)
    }

    /** `GetInternalDictionary()`: the dictionary object itself, not a copy. */
    function GetInternalDictionary(): (d: StringDictionary?)
      reads this
      ensures d == dictionary
    {
      dictionary
    }

    /**
     * `GetDictionaryFromFiles(context)`: load the dictionary for the request's
     * language and store it; on failure the field keeps its previous value.
     */
    method GetDictionaryFromFiles(context: HttpContext) returns (outcome: Outcome<Exception>)
      modifies this`dictionary, env
      ensures options.None? ==> outcome == Fail(NullReference) && dictionary == old(dictionary)
      ensures options.None? && env != null ==> env.OpenedPaths == old(env.OpenedPaths)
      ensures options.Some? ==>
                var load := LoadDictionary(context.Cookies, options.value, env, deserialize);
                && (load.Failure? ==> outcome == Fail(load.error) && dictionary == old(dictionary))
                && (load.Success? ==> outcome == Pass && (dictionary == null <==> load.value.None?))
                && (load.Success? && dictionary != null ==>
                      fresh(dictionary) && dictionary.Valid() && dictionary.entries == load.value.value)
      ensures options.Some? && env != null ==>
                env.OpenedPaths == old(env.OpenedPaths) + AttemptedPaths(context.Cookies, options.value, env)
    {
      if options.None? {
        return Fail(NullReference);
      }
      var loaded := LoadFromFiles(context.Cookies, options.value, env, deserialize);
      if loaded.Failure? {
        return Fail(loaded.error);
      }
      dictionary := loaded.value;
      return Pass;
    }
  }

  /** `DewTranslator`: a read-only view over the dictionary it was constructed with. */
  class DewTranslator {
    const dictionary: StringDictionary?

    constructor (dictionary: StringDictionary?)
      ensures this.dictionary == dictionary
    {
      this.dictionary := dictionary;
    }

    /** `GetString(key)`: the translation, or the key when missing. */
    function GetString(key: string): (r: Result<string, Exception>)
      reads dictionary
      ensures r.Failure? <==> dictionary == null
      ensures r.Failure? ==> r.error == ArgumentNull
      ensures r.Success? && key in dictionary.Map() ==> r.value == dictionary.Map()[key]
      ensures r.Success? && key !in dictionary.Map() ==> r.value == key
    {
      if dictionary == null then Failure(ArgumentNull)
      else Success(TranslateOrKey(dictionary.entries, key))
    }

    /** `GetString(key, def)`: the translation, or `def` when missing. */
    function GetStringOrDefault(key: string, def: string): (r: Result<string, Exception>)
      reads dictionary
      ensures r.Failure? <==> dictionary == null
      ensures r.Failure? ==> r.error == ArgumentNull
      ensures r.Success? && key in dictionary.Map() ==> r.value == dictionary.Map()[key]
      ensures r.Success? && key !in dictionary.Map() ==> r.value == def
    {
      if dictionary == null then Failure(ArgumentNull)
      else Success(TranslateOrDefault(dictionary.entries, key, def))
    }

    /**
     * `this[key]`, lenient: a hashed `ContainsKey` test instead of a scan,
     * and the key itself when it is missing. On a dictionary it never fails
     * and agrees with `GetString`; on null it fails calling `ContainsKey`,
     * where `GetString` fails in the LINQ scan instead.
     */
    function Item(key: string): (r: Result<string, Exception>)
      reads dictionary
      ensures dictionary != null ==> r.Success? && r == GetString(key)
      ensures dictionary == null ==> r == Failure(NullReference)
    {
      if dictionary == null then Failure(NullReference)
      else if key in dictionary.Map() then Success(dictionary.Map()[key])
      else Success(key)
    }

    /** `GetInternalDictionary()`: the object passed to the constructor, not a copy. */
    function GetInternalDictionary(): (d: StringDictionary?)
      ensures d == dictionary
    {
      dictionary
    }
  }
}
