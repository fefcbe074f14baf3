/** `Dictionary<string, string>`: the translation dictionary as a heap object. */
module Dictionaries {
  import opened KeyValues

  class StringDictionary {
    /** The key/value pairs in enumeration order. */
    var entries: seq<(string, string)>

    ghost predicate Valid()
      reads this
    {
      DistinctKeys(entries)
    }

    /** What the JSON deserializer builds from the members of a top-level object. */
    constructor Deserialized(members: seq<(string, string)>)
      ensures Valid() && entries == FromMembers(members)
    {
      entries := FromMembers(members);
    }

    /** Keyed view of the dictionary. */
    function Map(): map<string, string>
      reads this
    {
      ToMap(entries)
    }
  }
}
