# DewLocalizationMiddleware in Dafny

A model of the localization core of DewLocalizationMiddleware, an ASP.NET Core
pipeline stage. On each request the stage picks the language from a cookie,
reads `<Path>/<language>.json`, falls back once to the default language's
file when that read fails, and stores the resulting `Dictionary<string,string>`
in `HttpContext.Items`. Downstream code wraps that dictionary in a
`DewTranslator`, whose lookups fall back to the key itself or to a given default.

Files, one module each (`wrappers.dfy` holds two small ones):

- `wrappers.dfy`: `Option`, `Result`, `Outcome`. The module `Exceptions` lists the exceptions the code throws or lets through.
- `keyvalues.dfy`: sequences of key/value pairs. These model the enumeration of a `Dictionary<,>`, of the request cookies and of `Items`. `ToMap` is their keyed view. `FirstWithKey` is LINQ's `FirstOrDefault(x => x.Key == key)`, and it is proved to agree with `ToMap`. `SetValue` is the indexer setter, `Add` is `IDictionary.Add`, and `FromMembers` is how the JSON deserializer fills a dictionary.
- `dictionary.dfy`: `StringDictionary`, the `Dictionary<string,string>` as a heap object. It is an object so that "returned by reference" is reference equality.
- `hosting.dfy`: the content-root file provider, with a log of the files it was asked to open, and `HttpContext`, with its cookies, its `Items` and the calls made to the next stage.
- `loading.dfy`: the options and their defaults, language resolution, the file path, and the two-attempt loader, first as functions and then as the imperative `LoadFromFiles`.
- `translators.dfy`: `DewTranslatorService` and `DewTranslator`.
- `middleware.dfy`: `DewLocalizationMiddleware` (`Invoke`), the retrieval helper `GetDewLocalizationTranslator`, and five concrete requests.

The JSON deserializer is a parameter (`Deserializer`). It reports one of three outcomes:
- the text does not parse into a dictionary (`Malformed`);
- it deserializes to null without an exception (`NullToken`: the literal `null`, or a text holding no JSON token, such as an empty file);
- the members of the top-level object, in document order.

Filling the dictionary from those members is modelled (`FromMembers`): when a
name repeats, its last value wins. A map has no enumeration order, and the
lookups scan in enumeration order, so the deserializer gives members rather
than a map. Files are a map from path to content. An absent path means
FileNotFound; a None content means an IOException on read.

Behaviour of the code worth knowing, each proved in the model:
- The JSON is deserialized after the `try`/`catch`. So only a failed open or read falls back to the default language. A language file that reads but does not parse fails the request, and the default file is not tried (`Loading.MalformedLanguageFileIsNotRetried`).
- An empty language file loads as a null dictionary. The middleware stores that null in `Items`, and downstream lookups through it fail (`Loading.EmptyLanguageFileYieldsNullDictionary`, `Middleware.EmptyLanguageFileGivesNullDictionary`).
- The retrieval helper builds a `DewTranslator` over `value as Dictionary<string,string>`. That is null when the stored item is not a dictionary or is itself null. Such a translator's `GetString` overloads then throw ArgumentNullException from the LINQ scan, and its indexer throws NullReferenceException from `ContainsKey`.
- Without a name argument, the retrieval helper looks under "DewLocalization", not under the stage's `CustomName` (`Middleware.CustomNameNeedsExplicitRetrieval`).

## Model

| member | source | states |
|---|---|---|
| KeyValues.IndexOfKey | DewLocalizationMiddleware/DewLocalizationMiddleware/DewLocalizationMiddleware.cs:57 | the LINQ scan stops at the first pair carrying the key, or at the end when no pair carries it |
| KeyValues.FirstWithKey | DewLocalizationMiddleware/DewLocalizationMiddleware/DewLocalizationMiddleware.cs:57-58 | `FirstOrDefault` returns the default pair exactly when the key is absent; otherwise it returns the key's first pair, and its value is the dictionary's value for the key |
| KeyValues.SetValue | DewLocalizationMiddleware/DewLocalizationMiddleware/DewLocalizationMiddleware.cs:131 | the indexer setter binds the key to the new value, leaves every other binding alone, and keeps keys unique |
| KeyValues.FromMembers | DewLocalizationMiddleware/DewLocalizationMiddleware/DewLocalizationMiddleware.cs:131 | the dictionary built from the parsed members never holds a key twice |
| KeyValues.FromMembersKeys | DewLocalizationMiddleware/DewLocalizationMiddleware/DewLocalizationMiddleware.cs:131 | the built dictionary's keys are exactly the member names |
| KeyValues.FromMembersLastWins | DewLocalizationMiddleware/DewLocalizationMiddleware/DewLocalizationMiddleware.cs:131 | a member name is bound to the value of its last occurrence in the object |
| KeyValues.Add | DewLocalizationMiddleware/DewLocalizationMiddleware/DewLocalizationMiddleware.cs:274 | `Add` fails exactly when the key is present; otherwise it appends one binding, keeps every existing entry, and keeps keys unique |
| Dictionaries.StringDictionary.Deserialized | DewLocalizationMiddleware/DewLocalizationMiddleware/DewLocalizationMiddleware.cs:131 | the deserialized dictionary holds the members' entries, and its keys are unique |
| Hosting.ReadFile | DewLocalizationMiddleware/DewLocalizationMiddleware/DewLocalizationMiddleware.cs:113-119 | reading succeeds exactly when the environment is non-null and the path names a readable file, and it yields that file's text; a null environment raises NullReference, a path absent from the content root raises FileNotFound for that path, and an unreadable file raises IOError for that path |
| Hosting.ReadToEnd | DewLocalizationMiddleware/DewLocalizationMiddleware/DewLocalizationMiddleware.cs:113-119 | opening and reading records exactly one attempt on the path, and yields the text or the exception |
| Hosting.HttpContext.AddItem | DewLocalizationMiddleware/DewLocalizationMiddleware/DewLocalizationMiddleware.cs:274 | `Items.Add` throws ArgumentException on a present key and leaves the items unchanged; otherwise it appends the new item |
| Loading.ResolveLanguage | DewLocalizationMiddleware/DewLocalizationMiddleware/DewLocalizationMiddleware.cs:106-109 | the language is the value of the cookie named `options.Cookie` when there is one, else `options.Language` |
| Loading.ResolveLanguageFromFirstCookie | DewLocalizationMiddleware/DewLocalizationMiddleware/DewLocalizationMiddleware.cs:106-109 | when several cookies share the configured name, the first one in enumeration order decides |
| Loading.LocalizationPath | DewLocalizationMiddleware/DewLocalizationMiddleware/DewLocalizationMiddleware.cs:113 | the path is the directory, a slash, the language and ".json", in that order |
| Loading.LocalizationPathInjective | DewLocalizationMiddleware/DewLocalizationMiddleware/DewLocalizationMiddleware.cs:113 | two languages give the same `Path + "/" + language + ".json"` only when they are equal |
| Loading.ReadLocalizationJson | DewLocalizationMiddleware/DewLocalizationMiddleware/DewLocalizationMiddleware.cs:111-130 | the language file's text when it can be read; otherwise the result of reading the default language's file, error included; it succeeds exactly when one of the two reads does |
| Loading.AttemptedPaths | DewLocalizationMiddleware/DewLocalizationMiddleware/DewLocalizationMiddleware.cs:113-123 | no open on a null environment; otherwise the language file first, and the default file second exactly when the first read failed |
| Loading.DictionaryFrom | DewLocalizationMiddleware/DewLocalizationMiddleware/DewLocalizationMiddleware.cs:131 | a malformed text raises JsonReader; a text without a JSON token gives a null dictionary; otherwise the dictionary built from the members in order, last value winning, which is key-unique and whose keys are the member names |
| Loading.LoadDictionary | DewLocalizationMiddleware/DewLocalizationMiddleware/DewLocalizationMiddleware.cs:110-131 | a successful load deserializes the text that was read; a failed load is either a parse error or, after the language file failed, the default file's read error |
| Loading.TwoAttemptLoader | DewLocalizationMiddleware/DewLocalizationMiddleware/DewLocalizationMiddleware.cs:110-131 | a readable language file is the one parsed; if it cannot be read, the default language's file is parsed; if that fails too, its error propagates; one or two opens, the first on the language file |
| Loading.PrimaryFileLoads | DewLocalizationMiddleware/DewLocalizationMiddleware/DewLocalizationMiddleware.cs:110-131 | when the requested language's file is readable, it is the only file opened and the load is the deserialization of its text |
| Loading.FallbackFileLoads | DewLocalizationMiddleware/DewLocalizationMiddleware/DewLocalizationMiddleware.cs:110-131 | when the requested language has no file, the requested path and then the default language's path are opened, and the load is the deserialization of the default file's text |
| Loading.MalformedLanguageFileIsNotRetried | DewLocalizationMiddleware/DewLocalizationMiddleware/DewLocalizationMiddleware.cs:111-131 | a language file that reads but does not parse fails with JsonReader after a single open, whatever the default file holds |
| Loading.EmptyLanguageFileYieldsNullDictionary | DewLocalizationMiddleware/DewLocalizationMiddleware/DewLocalizationMiddleware.cs:131 | a readable language file without a JSON token yields a null dictionary, with no retry |
| Loading.RetryOfDefaultLanguageRereadsSameFile | DewLocalizationMiddleware/DewLocalizationMiddleware/DewLocalizationMiddleware.cs:121-129 | when the resolved language is the default one and its file cannot be read, the retry opens the same file again and the second error propagates |
| Loading.LoadFromFiles | DewLocalizationMiddleware/DewLocalizationMiddleware/DewLocalizationMiddleware.cs:226-253 | the step-by-step loader returns the loader's error, a null dictionary when the text holds no JSON token, or a fresh, key-unique dictionary with the loaded entries; it opens exactly the attempted paths, in order |
| Translators.TranslateOrKey | DewLocalizationMiddleware/DewLocalizationMiddleware/DewLocalizationMiddleware.cs:55-63 | the scan-based `GetString(key)` gives the key's value when the key is present and the key itself when it is absent |
| Translators.TranslateOrDefault | DewLocalizationMiddleware/DewLocalizationMiddleware/DewLocalizationMiddleware.cs:70-78 | `GetString(key, def)` gives the key's value when the key is present and `def` when it is absent |
| Translators.TranslateStrict | DewLocalizationMiddleware/DewLocalizationMiddleware/DewLocalizationMiddleware.cs:87-90 | `First(...).Value` succeeds exactly when the key is present, with its value; otherwise it throws InvalidOperation |
| Translators.TranslateOrKeyDefaultsToKey | DewLocalizationMiddleware/DewLocalizationMiddleware/DewLocalizationMiddleware.cs:55-78 | `GetString(key)` equals `GetString(key, key)` |
| Translators.DefaultIgnoredWhenPresent | DewLocalizationMiddleware/DewLocalizationMiddleware/DewLocalizationMiddleware.cs:70-78 | for a present key the result does not depend on `def` |
| Translators.LookupsAgreeWhenPresent | DewLocalizationMiddleware/DewLocalizationMiddleware/DewLocalizationMiddleware.cs:55-90 | on a present key the strict indexer and both `GetString` overloads return the same value |
| Translators.DewTranslatorService.constructor | DewLocalizationMiddleware/DewLocalizationMiddleware/DewLocalizationMiddleware.cs:138-142 | a new service has no dictionary yet and keeps the options and environment it was given |
| Translators.DewTranslatorService.GetString | DewLocalizationMiddleware/DewLocalizationMiddleware/DewLocalizationMiddleware.cs:55-63 | before a dictionary is loaded, the LINQ scan throws ArgumentNullException; afterwards it gives the translation, or the key when it is missing |
| Translators.DewTranslatorService.GetStringOrDefault | DewLocalizationMiddleware/DewLocalizationMiddleware/DewLocalizationMiddleware.cs:70-78 | before a dictionary is loaded, the LINQ scan throws ArgumentNullException; afterwards it gives the translation, or `def` when the key is missing |
| Translators.DewTranslatorService.Item | DewLocalizationMiddleware/DewLocalizationMiddleware/DewLocalizationMiddleware.cs:87-90 | before a dictionary is loaded, it throws ArgumentNullException; the strict indexer throws InvalidOperation on a missing key; on a present key it agrees with `GetString` |
| Translators.DewTranslatorService.GetInternalDictionary | DewLocalizationMiddleware/DewLocalizationMiddleware/DewLocalizationMiddleware.cs:95-98 | returns the service's dictionary object itself |
| Translators.DewTranslatorService.GetDictionaryFromFiles | DewLocalizationMiddleware/DewLocalizationMiddleware/DewLocalizationMiddleware.cs:104-132 | null options raise NullReference and open nothing; a failed load leaves the field as it was and returns the loader's error; a successful load sets the field to null for a text without a JSON token, otherwise to a fresh dictionary holding the loaded entries |
| Translators.DewTranslator.constructor | DewLocalizationMiddleware/DewLocalizationMiddleware/DewLocalizationMiddleware.cs:213-216 | the translator holds exactly the dictionary reference it was given, and the reference can never change |
| Translators.DewTranslator.GetString | DewLocalizationMiddleware/DewLocalizationMiddleware/DewLocalizationMiddleware.cs:155-163 | on a null dictionary, the LINQ scan throws ArgumentNullException; otherwise it gives the translation, or the key when it is missing |
| Translators.DewTranslator.GetStringOrDefault | DewLocalizationMiddleware/DewLocalizationMiddleware/DewLocalizationMiddleware.cs:170-178 | on a null dictionary, the LINQ scan throws ArgumentNullException; otherwise it gives the translation, or `def` when the key is missing |
| Translators.DewTranslator.Item | DewLocalizationMiddleware/DewLocalizationMiddleware/DewLocalizationMiddleware.cs:187-190 | on a dictionary, the lenient indexer (a hashed `ContainsKey`) never fails and agrees with the scan-based `GetString`; on null, `ContainsKey` throws NullReferenceException |
| Translators.DewTranslator.GetInternalDictionary | DewLocalizationMiddleware/DewLocalizationMiddleware/DewLocalizationMiddleware.cs:195-198 | returns the very object passed to the constructor |
| Middleware.DewLocalizationMiddleware.constructor | DewLocalizationMiddleware/DewLocalizationMiddleware/DewLocalizationMiddleware.cs:260-264 | the stage keeps its options and has loaded nothing yet |
| Middleware.DewLocalizationMiddleware.GetDictionaryFromFiles | DewLocalizationMiddleware/DewLocalizationMiddleware/DewLocalizationMiddleware.cs:226-254 | a failed load leaves the field unchanged and reports the error; a successful load stores null for a text without a JSON token, otherwise a fresh dictionary with the loaded entries |
| Middleware.DewLocalizationMiddleware.Next | DewLocalizationMiddleware/DewLocalizationMiddleware/DewLocalizationMiddleware.cs:275 | the next stage receives the request with its items as they are at the call |
| Middleware.DewLocalizationMiddleware.Invoke | DewLocalizationMiddleware/DewLocalizationMiddleware/DewLocalizationMiddleware.cs:271-276 | a failed load rethrows as an aggregate, with items untouched and the next stage not called; a name already in `Items` throws ArgumentException, and the next stage is not called; otherwise the loaded dictionary reference is appended under `CustomName` (null when the file held no JSON token), nothing else in `Items` changes, and then the next stage is called |
| Hosting.AsDictionary | DewLocalizationMiddleware/DewLocalizationMiddleware/DewLocalizationMiddleware.cs:315 | the `as` cast yields a non-null reference only from a stored dictionary object, returns exactly the stored reference for a dictionary object, and yields null for any other object |
| Middleware.ItemName | DewLocalizationMiddleware/DewLocalizationMiddleware/DewLocalizationMiddleware.cs:313 | the given name when there is one, else "DewLocalization" |
| Middleware.StoredDictionary | DewLocalizationMiddleware/DewLocalizationMiddleware/DewLocalizationMiddleware.cs:313-315 | the helper finds nothing exactly when no item has the name `customName ?? "DewLocalization"`; otherwise it finds the stored value cast to a dictionary |
| Middleware.GetDewLocalizationTranslator | DewLocalizationMiddleware/DewLocalizationMiddleware/DewLocalizationMiddleware.cs:311-316 | returns null exactly when no item has the name; otherwise it returns a new translator over the stored dictionary reference |
| Middleware.AddedDictionaryIsRetrieved | DewLocalizationMiddleware/DewLocalizationMiddleware/DewLocalizationMiddleware.cs:274 | the dictionary `Invoke` adds is found again under `CustomName`, and with the default options it is found with no name given |
| Middleware.CustomNameNeedsExplicitRetrieval | DewLocalizationMiddleware/DewLocalizationMiddleware/DewLocalizationMiddleware.cs:313 | with a custom item name, retrieval without a name finds nothing |
| Middleware.DefaultOptionValues | DewLocalizationMiddleware/DewLocalizationMiddleware/DewLocalizationMiddleware.cs:286-298 | the option defaults are "en-us", "Localization", "lang" and "DewLocalization", and for every language the default language file is `Localization/` + language + `.json` |

## Left out

- Hosting plumbing: `UseDewLocalizationMiddleware` and `UseMiddleware`, with their null-options substitution, and `RequestDelegate`. The next stage is modelled only as receiving the request. What it does downstream, and any exception it raises, is not modelled.
- Middleware.DewLocalizationMiddleware.Next: it records the items the next stage receives and changes nothing else. A real next stage may change the request arbitrarily.
- Streams, `StreamReader`, `ReadToEndAsync` and `using` disposal are replaced by one read of a path-to-content map. Cancellation and handle release are not modelled.
- Asynchrony, `Task.Wait` blocking and concurrent requests are not modelled. In particular, the middleware's `_dictionary` field is shared between concurrent requests, and that race is not captured. The model runs one request at a time.
- Newtonsoft.Json's `JsonConvert.DeserializeObject` is not part of this model. It is the `Deserializer` parameter, which reports a malformed text, a null result or the object's members. Which texts give which outcome is left to that parameter.
- The content root is fixed for the whole request: reading the same path twice gives the same result. So a retry that succeeds after a transient IOException on the same file is not modelled. `Loading.RetryOfDefaultLanguageRereadsSameFile` relies on this.
- `DewTranslator.GetDictionaryFromFiles` only returns null and has no behaviour to state.
- HTTP cookie parsing is not modelled: cookies are a given sequence of name/value pairs.
- Null strings are not modelled: null keys, a null `customName` other than the "not given" case, null option fields, and null member values. For `{"hello": null}` the source's `GetString("hello")` returns null, not the key; the model has no such value. So the ArgumentNullException that `ContainsKey(null)` throws does not arise.
- `HttpContext.Items` keys that are not strings are not modelled. They never match a string name, and `Add` with a string key never collides with them.
- The option fields are public and mutable in the source. Here they are fixed once the stage or service is constructed.
- The middleware's options are never null here: the hosting extension substitutes defaults for null. The service's options and environment can be null, and that is modelled.
