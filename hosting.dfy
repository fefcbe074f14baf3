/**
 * The parts of the hosting framework the localization code touches: the
 * content-root file provider and the per-request `HttpContext`.
 */
module Hosting {
  import opened Wrappers
  import opened Exceptions
  import opened KeyValues
  import opened Dictionaries

  /**
   * The file provider of the content root. `ContentRoot` maps a path to the
   * file there (None: the file exists but cannot be read); `OpenedPaths`
   * records every attempt to open a file for reading, in order.
   */
  class HostingEnvironment {
    const ContentRoot: map<string, Option<string>>
    var OpenedPaths: seq<string>

    constructor (contentRoot: map<string, Option<string>>)
      ensures ContentRoot == contentRoot && OpenedPaths == []
    {
      ContentRoot := contentRoot;
      OpenedPaths := [];
    }
  }

  /**
   * The text that `GetFileInfo(path).CreateReadStream()` followed by
   * `ReadToEndAsync()` yields through `env`, or what it throws.
   */
  function ReadFile(env: HostingEnvironment?, path: string): (r: Result<string, Exception>)
    ensures r.Success? <==> env != null && path in env.ContentRoot && env.ContentRoot[path].Some?
    ensures r.Success? ==> r.value == env.ContentRoot[path].value
    ensures env == null ==> r == Failure(NullReference)
    ensures env != null && path !in env.ContentRoot ==> r == Failure(FileNotFound(path))
    ensures env != null && path in env.ContentRoot && env.ContentRoot[path].None? ==> r == Failure(IOError(path))
  {
    if env == null then Failure(NullReference)
    else if path !in env.ContentRoot then Failure(FileNotFound(path))
    else match env.ContentRoot[path]
      case None => Failure(IOError(path))
      case Some(text) => Success(text)
  }

  /** Opens `path` through `env` and reads it to the end. */
  method ReadToEnd(env: HostingEnvironment?, path: string) returns (r: Result<string, Exception>)
    modifies env
    ensures r == ReadFile(env, path)
    ensures env != null ==> env.OpenedPaths == old(env.OpenedPaths) + [path]
  {
    if env == null {
      return Failure(NullReference);
    }
    env.OpenedPaths := env.OpenedPaths + [path];
    r := ReadFile(env, path);
  }

  /**
   * A value stored in `HttpContext.Items`: a translation dictionary (the
   * reference may be null) or an object of another type.
   */
  datatype ItemValue = DictionaryObject(dictionary: StringDictionary?) | OtherObject

  /** `value as Dictionary<string, string>`: null unless the object is one. */
  function AsDictionary(value: ItemValue): (d: StringDictionary?)
    ensures d != null ==> value == DictionaryObject(d)
    ensures value.DictionaryObject? ==> d == value.dictionary
    ensures value.OtherObject? ==> d == null
  {
    match value
    case DictionaryObject(d) => d
    case OtherObject => null
  }

  class HttpContext {
    /** The request's cookies, name and value, in enumeration order. */
    const Cookies: seq<(string, string)>
    /** The request-scoped item bag. */
    var Items: seq<(string, ItemValue)>
    /** The `Items` handed to each call of the next pipeline stage, in call order. */
    var DownstreamCalls: seq<seq<(string, ItemValue)>>

    ghost predicate Valid()
      reads this
    {
      DistinctKeys(Items)
    }

    constructor (cookies: seq<(string, string)>, items: seq<(string, ItemValue)>)
      requires DistinctKeys(items)
      ensures Valid()
      ensures Cookies == cookies && Items == items && DownstreamCalls == []
    {
      Cookies := cookies;
      Items := items;
      DownstreamCalls := [];
    }

    /** `Items.Add(key, value)`: throws when `key` is already present. */
    method AddItem(key: string, value: ItemValue) returns (outcome: Outcome<Exception>)
      requires Valid()
      modifies this`Items
      ensures Valid()
      ensures outcome == (if key in ToMap(old(Items)) then Fail(Argument(key)) else Pass)
      ensures outcome.Fail? ==> Items == old(Items)
      ensures outcome.Pass? ==> Items == old(Items) + [(key, value)]
    {
      var added := Add(Items, key, value);
      if added.None? {
        return Fail(Argument(key));
      }
      Items := added.value;
      return Pass;
    }
  }
}
