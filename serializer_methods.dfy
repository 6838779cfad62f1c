/**
 * The list and cache (de)serializers of `SerializerService`, as the loops
 * they are: each reads or writes one array element per iteration and is
 * proved to compute the function of module Serializer that specifies it.
 * Every serializer also states that its output reads back.
 */
module SerializerMethods {
  import opened Wrappers
  import opened Json
  import opened Entities
  import opened Serializer

  /** Decodes the elements of an array in order, stopping at the first failure. */
  method DecodeArray<T>(items: seq<Json>, decode: Json -> Parsed<T>) returns (r: Parsed<seq<T>>)
    ensures r == DecodeEach(items, decode)
  {
    var result: seq<T> := [];
    var i := 0;
    while i < |items|
      invariant 0 <= i <= |items|
      invariant DecodeEach(items[..i], decode) == Success(result)
    {
      var element := decode(items[i]);
      if element.Failure? {
        DecodeEachStops(items, i, decode);
        return Failure(element.error);
      }
      DecodeEachStep(items, i, decode);
      result := result + [element.value];
      i := i + 1;
    }
    assert items[..i] == items;
    return Success(result);
  }

  /** Encodes each element in order, appending it to the array. */
  method EncodeArray<T>(xs: seq<T>, encode: T -> Json) returns (items: seq<Json>)
    ensures items == EncodeEach(xs, encode)
  {
    items := [];
    var i := 0;
    while i < |xs|
      invariant 0 <= i <= |xs|
      invariant items == EncodeEach(xs[..i], encode)
    {
      items := items + [encode(xs[i])];
      i := i + 1;
      assert items == EncodeEach(xs[..i], encode);
    }
    assert xs[..i] == xs;
  }

  /** `deserializeProfileList`. */
  method DeserializeProfileList(json: Object) returns (r: Parsed<seq<Profile>>)
    ensures r == DecodeProfileList(json)
  {
    if "data" !in json {
      return Failure(MissingKey("data"));
    }
    var data := GetObject(json, "data");
    if data.Failure? {
      return Failure(data.error);
    }
    if "profile_list" !in data.value {
      return Failure(MissingKey("profile_list"));
    }
    var items := GetArray(data.value, "profile_list");
    if items.Failure? {
      return Failure(items.error);
    }
    r := DecodeArray(items.value, ProfileElement);
  }

  /** `deserializeInstanceList`. */
  method DeserializeInstanceList(json: Object) returns (r: Parsed<InstanceList>)
    ensures r == DecodeInstanceList(json)
  {
    var version := GetInt(json, "version");
    if version.Failure? {
      return Failure(version.error);
    }
    if version.value != 1 {
      return Failure(UnknownVersion(version.value));
    }
    var items := GetArray(json, "instances");
    if items.Failure? {
      return Failure(items.error);
    }
    var instances := DecodeArray(items.value, InstanceElement);
    if instances.Failure? {
      return Failure(instances.error);
    }
    return Success(InstanceList(version.value, instances.value));
  }

  /** `serializeInstanceList`: a version-1 list reads back as itself. */
  method SerializeInstanceList(l: InstanceList) returns (o: Object)
    ensures o == EncodeInstanceList(l)
    ensures l.version == 1 ==> DecodeInstanceList(o) == Success(l)
  {
    var items := EncodeArray(l.instances, InstanceJson);
    o := map["version" := JInt(l.version), "instances" := JArray(items)];
    InstanceListRoundTrip(l);
  }

  /**
   * `deserializeMessageList`: the recognised messages in order; an element of
   * unknown type is skipped, any malformed element fails the whole list.
   */
  method DeserializeMessageList(json: Object) returns (r: Parsed<seq<Message>>)
    ensures r == DecodeMessageList(json)
  {
    var data := GetObject(json, "data");
    if data.Failure? {
      return Failure(data.error);
    }
    var messages := GetArray(data.value, "messages");
    if messages.Failure? {
      return Failure(messages.error);
    }
    var items := messages.value;
    var result: seq<Message> := [];
    ghost var found: seq<Option<Message>> := [];
    var i := 0;
    while i < |items|
      invariant 0 <= i <= |items|
      invariant DecodeEach(items[..i], MessageElement) == Success(found)
      invariant result == Present(found)
    {
      var element := MessageElement(items[i]);
      if element.Failure? {
        DecodeEachStops(items, i, MessageElement);
        return Failure(element.error);
      }
      DecodeEachStep(items, i, MessageElement);
      assert found + [element.value] == (found + [element.value])[..|found|] + [element.value];
      assert (found + [element.value])[..|found|] == found;
      if element.value.Some? {
        result := result + [element.value.value];
      }
      found := found + [element.value];
      i := i + 1;
    }
    assert items[..i] == items;
    return Success(result);
  }

  /** `serializeMessageList`: every message list reads back as itself. */
  method SerializeMessageList(ms: seq<Message>) returns (o: Object)
    ensures o == EncodeMessageList(ms)
    ensures DecodeMessageList(o) == Success(ms)
  {
    var items := EncodeArray(ms, MessageJson);
    o := map["data" := JObject(map["messages" := JArray(items)])];
    MessageListRoundTrip(ms);
  }

  /** `serializeSavedTokenList`: every token list reads back as itself. */
  method SerializeSavedTokenList(ts: seq<SavedToken>) returns (o: Object)
    ensures o == EncodeSavedTokenList(ts)
    ensures DecodeSavedTokenList(o) == Success(ts)
  {
    var items := EncodeArray(ts, TokenJson);
    o := map["data" := JArray(items)];
    SavedTokenListRoundTrip(ts);
  }

  /** `deserializeSavedTokenList`. */
  method DeserializeSavedTokenList(json: Object) returns (r: Parsed<seq<SavedToken>>)
    ensures r == DecodeSavedTokenList(json)
  {
    var items := GetArray(json, "data");
    if items.Failure? {
      return Failure(items.error);
    }
    r := DecodeArray(items.value, TokenElement);
  }

  /** `serializeSavedProfileList`: every saved-profile list reads back as itself. */
  method SerializeSavedProfileList(ps: seq<SavedProfile>) returns (o: Object)
    ensures o == EncodeSavedProfileList(ps)
    ensures DecodeSavedProfileList(o) == Success(ps)
  {
    var items := EncodeArray(ps, SavedProfileJson);
    o := map["data" := JArray(items)];
    SavedProfileListRoundTrip(ps);
  }

  /** `deserializeSavedProfileList`. */
  method DeserializeSavedProfileList(json: Object) returns (r: Parsed<seq<SavedProfile>>)
    ensures r == DecodeSavedProfileList(json)
  {
    var items := GetArray(json, "data");
    if items.Failure? {
      return Failure(items.error);
    }
    r := DecodeArray(items.value, SavedProfileElement);
  }

  /**
   * `serializeDiscoveredAPITTLCache`: one element per entry, in whatever order
   * the map hands its entries out; a cache of current APIs reads back as itself.
   */
  method SerializeDiscoveredApiCache(c: DiscoveredApiCache) returns (o: Object)
    ensures exists keys :: KeyOrder(keys, c.entries) && o == EncodeDiscoveredApiCache(c, keys)
    ensures CachedApisCurrent(c) ==> DecodeDiscoveredApiCache(o) == Success(c)
  {
    var remaining := c.entries.Keys;
    var items: seq<Json> := [];
    ghost var keys: seq<string> := [];
    while remaining != {}
      invariant remaining <= c.entries.Keys
      invariant forall k :: k in keys ==> k in c.entries && k !in remaining
      invariant forall k :: k in c.entries ==> k in keys || k in remaining
      invariant forall i, j :: 0 <= i < j < |keys| ==> keys[i] != keys[j]
      invariant items == EncodeEach(Pairs(keys, c.entries), CacheEntryJson)
      decreases |remaining|
    {
      var k :| k in remaining;
      EncodePairsSnoc(keys, c.entries, k);
      DistinctSnoc(keys, k);
      items := items + [CacheEntryJson((k, c.entries[k]))];
      keys := keys + [k];
      remaining := remaining - {k};
    }
    o := map["purge_after_seconds" := JInt(c.purgeAfterSeconds), "data" := JArray(items)];
    assert KeyOrder(keys, c.entries);
    assert o == EncodeDiscoveredApiCache(c, keys);
    if CachedApisCurrent(c) {
      CacheRoundTrip(c, keys);
    }
  }

  /** A key list without repeats stays so when a new key is appended. */
  lemma DistinctSnoc(keys: seq<string>, k: string)
    requires forall i, j :: 0 <= i < j < |keys| ==> keys[i] != keys[j]
    requires k !in keys
    ensures forall i, j :: 0 <= i < j < |keys + [k]| ==> (keys + [k])[i] != (keys + [k])[j]
  {
    forall i, j | 0 <= i < j < |keys + [k]| ensures (keys + [k])[i] != (keys + [k])[j] {
      assert (keys + [k])[i] == keys[i];
      if j == |keys| {
        assert keys[i] in keys;
      }
    }
  }

  /** Encoding the entries of one more key appends that entry's element. */
  lemma EncodePairsSnoc(keys: seq<string>, m: map<string, CacheEntry>, k: string)
    requires forall key :: key in keys ==> key in m
    requires k in m
    ensures EncodeEach(Pairs(keys + [k], m), CacheEntryJson) ==
      EncodeEach(Pairs(keys, m), CacheEntryJson) + [CacheEntryJson((k, m[k]))]
  {
    var longer := EncodeEach(Pairs(keys + [k], m), CacheEntryJson);
    var shorter := EncodeEach(Pairs(keys, m), CacheEntryJson);
    forall i | 0 <= i < |keys| ensures longer[i] == shorter[i] {
      assert (keys + [k])[i] == keys[i];
    }
    assert (keys + [k])[|keys|] == k;
  }

  /** `deserializeDiscoveredAPITTLCache`: each element is put into the map in order, a later key overwriting an earlier one. */
  method DeserializeDiscoveredApiCache(json: Object) returns (r: Parsed<DiscoveredApiCache>)
    ensures r == DecodeDiscoveredApiCache(json)
  {
    var purgeAfterSeconds := GetInt(json, "purge_after_seconds");
    if purgeAfterSeconds.Failure? {
      return Failure(purgeAfterSeconds.error);
    }
    var data := GetArray(json, "data");
    if data.Failure? {
      return Failure(data.error);
    }
    var items := data.value;
    var entries: map<string, CacheEntry> := map[];
    ghost var pairs: seq<(string, CacheEntry)> := [];
    var i := 0;
    while i < |items|
      invariant 0 <= i <= |items|
      invariant DecodeEach(items[..i], CacheEntryElement) == Success(pairs)
      invariant entries == ToMap(pairs)
    {
      var element := CacheEntryElement(items[i]);
      if element.Failure? {
        DecodeEachStops(items, i, CacheEntryElement);
        return Failure(element.error);
      }
      DecodeEachStep(items, i, CacheEntryElement);
      entries := entries[element.value.0 := element.value.1];
      assert (pairs + [element.value])[..|pairs|] == pairs;
      pairs := pairs + [element.value];
      i := i + 1;
    }
    assert items[..i] == items;
    return Success(DiscoveredApiCache(entries, purgeAfterSeconds.value));
  }
}
