/**
 * The (de)serializer of the domain entities: one function per single-entity
 * `serialize*`/`deserialize*`, and the functions that specify the list and
 * cache (de)serializers (their loops live in module SerializerMethods).
 * Every read either yields a fully built value or fails with one
 * `FormatError`; nothing partially built escapes.
 */
module Serializer {
  import opened Wrappers
  import opened Json
  import opened Entities
  import opened ApiDate

  predicate HasString(o: Object, key: string) { key in o && o[key].JString? }

  predicate HasBool(o: Object, key: string) { key in o && o[key].JBool? }

  // ---------------------------------------------------------------- Profile

  /** `deserializeProfile`. */
  function DeserializeProfile(o: Object): (r: Parsed<Profile>)
    ensures r.Success? <==>
      HasString(o, "display_name") && HasString(o, "profile_id") && HasBool(o, "two_factor")
    ensures r.Success? ==>
      && o["display_name"] == JString(r.value.displayName)
      && o["profile_id"] == JString(r.value.profileId)
      && o["two_factor"] == JBool(r.value.twoFactor)
  {
    var displayName :- GetString(o, "display_name");
    var profileId :- GetString(o, "profile_id");
    var twoFactor :- GetBool(o, "two_factor");
    Success(Profile(displayName, profileId, twoFactor))
  }

  /** `serializeProfile`: every profile reads back as itself. */
  function SerializeProfile(p: Profile): (o: Object)
    ensures DeserializeProfile(o) == Success(p)
  {
    map["display_name" := JString(p.displayName),
        "profile_id" := JString(p.profileId),
        "two_factor" := JBool(p.twoFactor)]
  }

  /** An element of `profile_list`: `getJSONObject(i)` then `deserializeProfile`. */
  function ProfileElement(j: Json): Parsed<Profile> {
    var o :- AsObject(j);
    DeserializeProfile(o)
  }

  /** What `deserializeProfileList` returns for `{data: {profile_list: [...]}}`. */
  function DecodeProfileList(o: Object): (r: Parsed<seq<Profile>>)
    ensures "data" !in o ==> r == Failure(MissingKey("data"))
    ensures ("data" in o && o["data"].JObject? && "profile_list" !in o["data"].fields) ==>
              r == Failure(MissingKey("profile_list"))
    ensures r.Success? ==>
      && "data" in o && o["data"].JObject? && "profile_list" in o["data"].fields
      && o["data"].fields["profile_list"].JArray?
      && var items := o["data"].fields["profile_list"].items;
         |r.value| == |items|
         && forall i :: 0 <= i < |items| ==> ProfileElement(items[i]) == Success(r.value[i])
    ensures ("data" in o && o["data"].JObject? && "profile_list" in o["data"].fields
             && o["data"].fields["profile_list"].JArray?
             && var items := o["data"].fields["profile_list"].items;
                forall i :: 0 <= i < |items| ==> ProfileElement(items[i]).Success?) ==>
              r.Success?
  {
    if "data" !in o then Failure(MissingKey("data"))
    else
      var data :- GetObject(o, "data");
      if "profile_list" !in data then Failure(MissingKey("profile_list"))
      else
        var items :- GetArray(data, "profile_list");
        DecodeEachSuccess(items, ProfileElement);
        DecodeEach(items, ProfileElement)
  }

  // ---------------------------------------------------------------- Instance

  /** `deserializeInstance`: `base_uri` and `display_name` are required, `logo_uri` is optional. */
  function DeserializeInstance(o: Object): (r: Parsed<Instance>)
    ensures r.Success? <==>
      HasString(o, "base_uri") && HasString(o, "display_name")
      && ("logo_uri" in o ==> o["logo_uri"].JString?)
    ensures r.Success? ==>
      && o["base_uri"] == JString(r.value.baseUri)
      && o["display_name"] == JString(r.value.displayName)
      && (r.value.logoUri.None? <==> "logo_uri" !in o)
      && (r.value.logoUri.Some? ==> o["logo_uri"] == JString(r.value.logoUri.value))
  {
    var baseUri :- GetString(o, "base_uri");
    var displayName :- GetString(o, "display_name");
    var logoUri :- GetOptionalString(o, "logo_uri");
    Success(Instance(baseUri, displayName, logoUri))
  }

  /** `serializeInstance`: an absent logo is an absent key, and every instance reads back as itself. */
  function SerializeInstance(i: Instance): (o: Object)
    ensures "logo_uri" in o <==> i.logoUri.Some?
    ensures DeserializeInstance(o) == Success(i)
  {
    PutOptionalString(
      map["base_uri" := JString(i.baseUri), "display_name" := JString(i.displayName)],
      "logo_uri", i.logoUri)
  }

  function InstanceJson(i: Instance): Json {
    JObject(SerializeInstance(i))
  }

  function InstanceElement(j: Json): Parsed<Instance> {
    var o :- AsObject(j);
    DeserializeInstance(o)
  }

  /** What `deserializeInstanceList` returns: only version 1 is understood. */
  function DecodeInstanceList(o: Object): (r: Parsed<InstanceList>)
    ensures ("version" in o && o["version"].JInt? && o["version"].n != 1) ==>
              r == Failure(UnknownVersion(o["version"].n))
    ensures "version" !in o ==> r == Failure(MissingKey("version"))
    ensures r.Success? ==>
      && "version" in o && o["version"] == JInt(1) && r.value.version == 1
      && "instances" in o && o["instances"].JArray?
    ensures r.Success? ==>
      var items := o["instances"].items;
      |r.value.instances| == |items|
      && forall i :: 0 <= i < |items| ==> InstanceElement(items[i]) == Success(r.value.instances[i])
    ensures ("version" in o && o["version"] == JInt(1) && "instances" in o && o["instances"].JArray?
             && forall i :: 0 <= i < |o["instances"].items| ==> InstanceElement(o["instances"].items[i]).Success?) ==>
              r.Success?
  {
    var version :- GetInt(o, "version");
    if version != 1 then Failure(UnknownVersion(version))
    else
      var items :- GetArray(o, "instances");
      DecodeEachSuccess(items, InstanceElement);
      var instances :- DecodeEach(items, InstanceElement);
      Success(InstanceList(version, instances))
  }

  /** What `serializeInstanceList` returns. */
  function EncodeInstanceList(l: InstanceList): Object {
    map["version" := JInt(l.version),
        "instances" := JArray(EncodeEach(l.instances, InstanceJson))]
  }

  /** An instance list of version 1 round-trips; any other version is refused when read back. */
  lemma InstanceListRoundTrip(l: InstanceList)
    ensures l.version == 1 ==> DecodeInstanceList(EncodeInstanceList(l)) == Success(l)
    ensures l.version != 1 ==> DecodeInstanceList(EncodeInstanceList(l)) == Failure(UnknownVersion(l.version))
  {
    DecodeEachEncode(l.instances, l.instances, InstanceJson, InstanceElement);
  }

  // ---------------------------------------------------------------- DiscoveredAPI

  /**
   * `deserializeDiscoveredAPI`: version 1 only; `authorization_endpoint`,
   * `api.create_config` and `api.profile_list` are required;
   * `api.system_messages` and `api.user_messages` are optional.
   */
  function DeserializeDiscoveredApi(o: Object): (r: Parsed<DiscoveredApi>)
    ensures ("version" in o && o["version"].JInt? && o["version"].n != 1) ==>
              r == Failure(UnknownVersion(o["version"].n))
    ensures "version" !in o ==> r == Failure(MissingKey("version"))
    ensures r.Success? ==>
      && "version" in o && o["version"] == JInt(1) && r.value.version == 1
      && HasString(o, "authorization_endpoint")
      && o["authorization_endpoint"] == JString(r.value.authorizationEndpoint)
      && "api" in o && o["api"].JObject?
      && var api := o["api"].fields;
         && HasString(api, "create_config") && HasString(api, "profile_list")
         && api["create_config"] == JString(r.value.createConfigApi)
         && api["profile_list"] == JString(r.value.profileListApi)
         && (r.value.systemMessagesApi.None? <==> "system_messages" !in api)
         && (r.value.systemMessagesApi.Some? ==> api["system_messages"] == JString(r.value.systemMessagesApi.value))
         && (r.value.userMessagesApi.None? <==> "user_messages" !in api)
         && (r.value.userMessagesApi.Some? ==> api["user_messages"] == JString(r.value.userMessagesApi.value))
    ensures "authorization_endpoint" !in o || "api" !in o ==> r.Failure?
    ensures ("api" in o && o["api"].JObject?
             && ("create_config" !in o["api"].fields || "profile_list" !in o["api"].fields)) ==>
              r.Failure?
  {
    var version :- GetInt(o, "version");
    if version != 1 then Failure(UnknownVersion(version))
    else
      var authorizationEndpoint :- GetString(o, "authorization_endpoint");
      var api :- GetObject(o, "api");
      var createConfigApi :- GetString(api, "create_config");
      var profileListApi :- GetString(api, "profile_list");
      var systemMessagesApi :- GetOptionalString(api, "system_messages");
      var userMessagesApi :- GetOptionalString(api, "user_messages");
      Success(DiscoveredApi(version, authorizationEndpoint, createConfigApi, profileListApi,
                            systemMessagesApi, userMessagesApi))
  }

  /** `serializeDiscoveredAPI`: a version-1 API reads back as itself; any other version is refused. */
  function SerializeDiscoveredApi(a: DiscoveredApi): (o: Object)
    ensures a.version == 1 ==> DeserializeDiscoveredApi(o) == Success(a)
    ensures a.version != 1 ==> DeserializeDiscoveredApi(o) == Failure(UnknownVersion(a.version))
  {
    var api := map["create_config" := JString(a.createConfigApi),
                   "profile_list" := JString(a.profileListApi)];
    var api := PutOptionalString(api, "user_messages", a.userMessagesApi);
    var api := PutOptionalString(api, "system_messages", a.systemMessagesApi);
    map["version" := JInt(a.version),
        "authorization_endpoint" := JString(a.authorizationEndpoint),
        "api" := JObject(api)]
  }

  // ---------------------------------------------------------------- Messages

  /** A date field: `getString(key)` then `API_DATE_FORMAT.parse`. */
  function DateField(o: Object, key: string): Parsed<Date> {
    var text :- GetString(o, key);
    match ParseDate(text)
    case None => Failure(UnparsableDate(text))
    case Some(d) => Success(d)
  }

  /**
   * One element of `messages`: a maintenance or a notification, or `None`
   * for a type this version does not know (skipped with a warning).
   */
  function MessageElement(j: Json): (r: Parsed<Option<Message>>)
    ensures (j.JObject? && DateField(j.fields, "date").Success? && HasString(j.fields, "type")
             && j.fields["type"].s != "maintenance" && j.fields["type"].s != "notification") ==>
              r == Success(None)
    ensures (j.JObject? && "date" !in j.fields) ==> r == Failure(MissingKey("date"))
    ensures (j.JObject? && DateField(j.fields, "date").Success? && "type" !in j.fields) ==>
              r == Failure(MissingKey("type"))
    ensures (j.JObject? && DateField(j.fields, "date").Success?
             && "type" in j.fields && j.fields["type"] == JString("maintenance")
             && !("start" in j.fields && "end" in j.fields)) ==>
              r.Failure?
    ensures (j.JObject? && DateField(j.fields, "date").Success?
             && "type" in j.fields && j.fields["type"] == JString("notification")
             && "content" !in j.fields) ==>
              r == Failure(MissingKey("content"))
    ensures (j.JObject? && DateField(j.fields, "date").Failure?) ==>
              r == Failure(DateField(j.fields, "date").error)
    ensures (j.JObject? && DateField(j.fields, "date").Success?
             && "type" in j.fields && !j.fields["type"].JString?) ==>
              r == Failure(WrongType("type"))
    ensures (j.JObject? && DateField(j.fields, "date").Success?
             && "type" in j.fields && j.fields["type"] == JString("maintenance")
             && DateField(j.fields, "start").Failure?) ==>
              r == Failure(DateField(j.fields, "start").error)
    ensures (j.JObject? && DateField(j.fields, "date").Success?
             && "type" in j.fields && j.fields["type"] == JString("maintenance")
             && DateField(j.fields, "start").Success? && DateField(j.fields, "end").Failure?) ==>
              r == Failure(DateField(j.fields, "end").error)
    ensures (j.JObject? && DateField(j.fields, "date").Success?
             && "type" in j.fields && j.fields["type"] == JString("notification")
             && "content" in j.fields && !j.fields["content"].JString?) ==>
              r == Failure(WrongType("content"))
    ensures r.Success? && r.value.Some? && r.value.value.Maintenance? ==>
      && j.JObject? && "type" in j.fields && j.fields["type"] == JString("maintenance")
      && DateField(j.fields, "date") == Success(r.value.value.date)
      && DateField(j.fields, "start") == Success(r.value.value.start)
      && DateField(j.fields, "end") == Success(r.value.value.end)
    ensures r.Success? && r.value.Some? && r.value.value.Notification? ==>
      && j.JObject? && "type" in j.fields && j.fields["type"] == JString("notification")
      && DateField(j.fields, "date") == Success(r.value.value.date)
      && "content" in j.fields && j.fields["content"] == JString(r.value.value.content)
    ensures r.Success? && r.value.None? ==>
      && j.JObject? && DateField(j.fields, "date").Success? && HasString(j.fields, "type")
      && j.fields["type"].s != "maintenance" && j.fields["type"].s != "notification"
    ensures (j.JObject? && DateField(j.fields, "date").Success? && HasString(j.fields, "type")
             && (j.fields["type"].s == "maintenance" ==>
                   DateField(j.fields, "start").Success? && DateField(j.fields, "end").Success?)
             && (j.fields["type"].s == "notification" ==> HasString(j.fields, "content"))) ==>
              r.Success?
  {
    var o :- AsObject(j);
    var date :- DateField(o, "date");
    var messageType :- GetString(o, "type");
    if messageType == "maintenance" then
      var start :- DateField(o, "start");
      var end :- DateField(o, "end");
      Success(Some(Maintenance(date, start, end)))
    else if messageType == "notification" then
      var content :- GetString(o, "content");
      Success(Some(Notification(date, content)))
    else
      Success(None)
  }

  /** The messages that were recognised, in order. */
  function Present<T>(xs: seq<Option<T>>): (r: seq<T>)
    ensures |r| <= |xs|
  {
    if |xs| == 0 then []
    else Present(xs[..|xs| - 1]) + (if xs[|xs| - 1].Some? then [xs[|xs| - 1].value] else [])
  }

  lemma {:induction false} PresentAppend<T>(a: seq<Option<T>>, b: seq<Option<T>>)
    ensures Present(a + b) == Present(a) + Present(b)
    decreases |b|
  {
    if |b| == 0 {
      assert a + b == a;
    } else {
      var n := |b| - 1;
      PresentAppend(a, b[..n]);
      assert (a + b)[..|a + b| - 1] == a + b[..n];
    }
  }

  /** The body `{data: {messages: items}}` of a message list. */
  function MessagesBody(items: seq<Json>): Object {
    map["data" := JObject(map["messages" := JArray(items)])]
  }

  /** What `deserializeMessageList` returns for `{data: {messages: [...]}}`. */
  function DecodeMessageList(o: Object): (r: Parsed<seq<Message>>) {
    var data :- GetObject(o, "data");
    var items :- GetArray(data, "messages");
    var found :- DecodeEach(items, MessageElement);
    Success(Present(found))
  }

  /** The JSON of one message, tagged by its kind. */
  function MessageJson(m: Message): (j: Json)
    ensures MessageElement(j) == Success(Some(m))
  {
    match m
    case Maintenance(date, start, end) =>
      var o := map["date" := JString(FormatDate(date)),
                   "start" := JString(FormatDate(start)),
                   "end" := JString(FormatDate(end)),
                   "type" := JString("maintenance")];
      DateFieldFormatted(o, "date", date);
      DateFieldFormatted(o, "start", start);
      DateFieldFormatted(o, "end", end);
      assert GetString(o, "type") == Success("maintenance");
      JObject(o)
    case Notification(date, content) =>
      var o := map["date" := JString(FormatDate(date)),
                   "content" := JString(content),
                   "type" := JString("notification")];
      DateFieldFormatted(o, "date", date);
      assert GetString(o, "type") == Success("notification");
      assert GetString(o, "content") == Success(content);
      JObject(o)
  }

  /** A field holding a formatted date reads back as that date. */
  lemma DateFieldFormatted(o: Object, key: string, d: Date)
    requires key in o && o[key] == JString(FormatDate(d))
    ensures DateField(o, key) == Success(d)
  {
    FormatParse(d);
  }

  /** What `serializeMessageList` returns. */
  function EncodeMessageList(ms: seq<Message>): Object {
    MessagesBody(EncodeEach(ms, MessageJson))
  }

  /** Every message list reads back as itself. */
  lemma {:induction false} MessageListRoundTrip(ms: seq<Message>)
    ensures DecodeMessageList(EncodeMessageList(ms)) == Success(ms)
  {
    var somes := seq(|ms|, i requires 0 <= i < |ms| => Some(ms[i]));
    DecodeEachEncode(ms, somes, MessageJson, MessageElement);
    PresentSomes(ms, somes);
  }

  lemma {:induction false} PresentSomes<T>(xs: seq<T>, somes: seq<Option<T>>)
    requires |somes| == |xs| && forall i :: 0 <= i < |xs| ==> somes[i] == Some(xs[i])
    ensures Present(somes) == xs
  {
    if |xs| > 0 {
      var n := |xs| - 1;
      PresentSomes(xs[..n], somes[..n]);
      assert xs[..n] + [xs[n]] == xs;
    }
  }

  /**
   * An entry of unknown type is dropped: the batch reads exactly as if the
   * entry were not there, failures included.
   */
  lemma UnknownMessageDropped(before: seq<Json>, unknown: Json, after: seq<Json>)
    requires MessageElement(unknown) == Success(None)
    ensures DecodeMessageList(MessagesBody(before + [unknown] + after))
         == DecodeMessageList(MessagesBody(before + after))
  {
    DecodeDropsNone(before, unknown, after, MessageElement);
    DecodeMessageListBody(before + [unknown] + after);
    DecodeMessageListBody(before + after);
  }

  /** The recognised values of a decoded list, or its error. */
  function PresentOf<T>(r: Parsed<seq<Option<T>>>): Parsed<seq<T>> {
    match r
    case Failure(e) => Failure(e)
    case Success(found) => Success(Present(found))
  }

  /** A message body decodes to the recognised messages of its elements, or the first element's error. */
  lemma DecodeMessageListBody(items: seq<Json>)
    ensures DecodeMessageList(MessagesBody(items)) == PresentOf(DecodeEach(items, MessageElement))
  {
  }

  /** An element that decodes to nothing changes neither the recognised values nor the error. */
  lemma DecodeDropsNone<T>(before: seq<Json>, unknown: Json, after: seq<Json>, decode: Json -> Parsed<Option<T>>)
    requires decode(unknown) == Success(None)
    ensures PresentOf(DecodeEach(before + [unknown] + after, decode))
         == PresentOf(DecodeEach(before + after, decode))
  {
    var a := DecodeEach(before, decode);
    var b := DecodeEach(after, decode);
    var withUnknown := DecodeEach(before + [unknown] + after, decode);
    var without := DecodeEach(before + after, decode);
    var none: seq<Option<T>> := [None];
    assert DecodeEach([unknown], decode) == Success(none) by {
      var empty: seq<Json> := [];
      var noValues: seq<Option<T>> := [];
      assert [unknown][..0] == empty;
      assert DecodeEach(empty, decode) == Success(noValues);
      assert noValues + none == none;
    }
    DecodeEachAppend(before, [unknown], decode);
    DecodeEachAppend(before + [unknown], after, decode);
    DecodeEachAppend(before, after, decode);
    if a.Failure? {
      assert withUnknown == Failure(a.error);
      assert without == Failure(a.error);
    } else if b.Failure? {
      assert withUnknown == Failure(b.error);
      assert without == Failure(b.error);
    } else {
      var x := a.value;
      var y := b.value;
      assert withUnknown == Success(x + none + y);
      assert without == Success(x + y);
      PresentAppend(x + none, y);
      PresentAppend(x, none);
      assert Present(none) == [] by {
        assert none[..0] == [];
      }
      PresentAppend(x, y);
      assert Present(x + none) == Present(x);
    }
  }

  // ---------------------------------------------------------------- Saved tokens

  /** An element of a saved-token list: `instance` and `access_token` are required. */
  function TokenElement(j: Json): (r: Parsed<SavedToken>)
    ensures r.Success? ==>
      && j.JObject? && HasString(j.fields, "access_token")
      && "instance" in j.fields && j.fields["instance"].JObject?
      && DeserializeInstance(j.fields["instance"].fields) == Success(r.value.instance)
      && j.fields["access_token"] == JString(r.value.accessToken)
    ensures (j.JObject? && "instance" in j.fields && j.fields["instance"].JObject?
             && DeserializeInstance(j.fields["instance"].fields).Success?
             && HasString(j.fields, "access_token")) ==>
              r.Success?
  {
    var o :- AsObject(j);
    var instanceObject :- GetObject(o, "instance");
    var instance :- DeserializeInstance(instanceObject);
    var accessToken :- GetString(o, "access_token");
    Success(SavedToken(instance, accessToken))
  }

  function TokenJson(t: SavedToken): (j: Json)
    ensures TokenElement(j) == Success(t)
  {
    JObject(map["instance" := JObject(SerializeInstance(t.instance)),
                "access_token" := JString(t.accessToken)])
  }

  /** What `deserializeSavedTokenList` returns for `{data: [...]}`. */
  function DecodeSavedTokenList(o: Object): Parsed<seq<SavedToken>> {
    var items :- GetArray(o, "data");
    DecodeEach(items, TokenElement)
  }

  /** What `serializeSavedTokenList` returns. */
  function EncodeSavedTokenList(ts: seq<SavedToken>): Object {
    map["data" := JArray(EncodeEach(ts, TokenJson))]
  }

  lemma SavedTokenListRoundTrip(ts: seq<SavedToken>)
    ensures DecodeSavedTokenList(EncodeSavedTokenList(ts)) == Success(ts)
  {
    DecodeEachEncode(ts, ts, TokenJson, TokenElement);
  }

  // ---------------------------------------------------------------- Saved profiles

  /** An element of a saved-profile list: `provider`, `profile` and `profile_uuid` are required. */
  function SavedProfileElement(j: Json): (r: Parsed<SavedProfile>)
    ensures r.Success? ==>
      && j.JObject? && HasString(j.fields, "profile_uuid")
      && "provider" in j.fields && j.fields["provider"].JObject?
      && "profile" in j.fields && j.fields["profile"].JObject?
      && DeserializeInstance(j.fields["provider"].fields) == Success(r.value.instance)
      && DeserializeProfile(j.fields["profile"].fields) == Success(r.value.profile)
      && j.fields["profile_uuid"] == JString(r.value.profileUuid)
    ensures (j.JObject? && "provider" in j.fields && j.fields["provider"].JObject?
             && DeserializeInstance(j.fields["provider"].fields).Success?
             && "profile" in j.fields && j.fields["profile"].JObject?
             && DeserializeProfile(j.fields["profile"].fields).Success?
             && HasString(j.fields, "profile_uuid")) ==>
              r.Success?
  {
    var o :- AsObject(j);
    var providerObject :- GetObject(o, "provider");
    var instance :- DeserializeInstance(providerObject);
    var profileObject :- GetObject(o, "profile");
    var profile :- DeserializeProfile(profileObject);
    var profileUuid :- GetString(o, "profile_uuid");
    Success(SavedProfile(instance, profile, profileUuid))
  }

  function SavedProfileJson(p: SavedProfile): (j: Json)
    ensures SavedProfileElement(j) == Success(p)
  {
    JObject(map["provider" := JObject(SerializeInstance(p.instance)),
                "profile" := JObject(SerializeProfile(p.profile)),
                "profile_uuid" := JString(p.profileUuid)])
  }

  /** What `deserializeSavedProfileList` returns for `{data: [...]}`. */
  function DecodeSavedProfileList(o: Object): Parsed<seq<SavedProfile>> {
    var items :- GetArray(o, "data");
    DecodeEach(items, SavedProfileElement)
  }

  /** What `serializeSavedProfileList` returns. */
  function EncodeSavedProfileList(ps: seq<SavedProfile>): Object {
    map["data" := JArray(EncodeEach(ps, SavedProfileJson))]
  }

  lemma SavedProfileListRoundTrip(ps: seq<SavedProfile>)
    ensures DecodeSavedProfileList(EncodeSavedProfileList(ps)) == Success(ps)
  {
    DecodeEachEncode(ps, ps, SavedProfileJson, SavedProfileElement);
  }

  // ---------------------------------------------------------------- Settings

  /** `deserializeAppSettings`: both flags are required booleans. */
  function DeserializeAppSettings(o: Object): (r: Parsed<Settings>)
    ensures r.Success? <==> HasBool(o, "use_custom_tabs") && HasBool(o, "force_tcp")
    ensures r.Success? ==>
      o["use_custom_tabs"] == JBool(r.value.useCustomTabs) && o["force_tcp"] == JBool(r.value.forceTcp)
  {
    var useCustomTabs :- GetBool(o, "use_custom_tabs");
    var forceTcp :- GetBool(o, "force_tcp");
    Success(Settings(useCustomTabs, forceTcp))
  }

  /** `serializeAppSettings`: the settings read back as themselves. */
  function SerializeAppSettings(s: Settings): (o: Object)
    ensures DeserializeAppSettings(o) == Success(s)
  {
    map["use_custom_tabs" := JBool(s.useCustomTabs), "force_tcp" := JBool(s.forceTcp)]
  }

  // ---------------------------------------------------------------- TTL cache

  /** One `data` element of the cache: `entry_date` (epoch ms), `key` and `discovered_api`, read in that order. */
  function CacheEntryElement(j: Json): (r: Parsed<(string, CacheEntry)>)
    ensures r.Success? ==>
      && j.JObject? && "entry_date" in j.fields && "key" in j.fields
      && j.fields["entry_date"] == JInt(r.value.1.entryDate)
      && j.fields["key"] == JString(r.value.0)
      && "discovered_api" in j.fields && j.fields["discovered_api"].JObject?
      && DeserializeDiscoveredApi(j.fields["discovered_api"].fields) == Success(r.value.1.api)
    ensures (j.JObject? && "entry_date" in j.fields && j.fields["entry_date"].JInt? && HasString(j.fields, "key")
             && "discovered_api" in j.fields && j.fields["discovered_api"].JObject?
             && DeserializeDiscoveredApi(j.fields["discovered_api"].fields).Success?) ==>
              r.Success?
    ensures (j.JObject? && "entry_date" in j.fields && j.fields["entry_date"].JInt? && HasString(j.fields, "key")
             && "discovered_api" in j.fields && j.fields["discovered_api"].JObject?
             && DeserializeDiscoveredApi(j.fields["discovered_api"].fields).Failure?) ==>
              r == Failure(DeserializeDiscoveredApi(j.fields["discovered_api"].fields).error)
  {
    var o :- AsObject(j);
    var entryDate :- GetInt(o, "entry_date");
    var key :- GetString(o, "key");
    var apiObject :- GetObject(o, "discovered_api");
    var api :- DeserializeDiscoveredApi(apiObject);
    Success((key, CacheEntry(entryDate, api)))
  }

  /**
   * `HashMap.put` of each pair in order: a key maps to the entry of its last
   * occurrence.
   */
  function ToMap(pairs: seq<(string, CacheEntry)>): map<string, CacheEntry> {
    if |pairs| == 0 then map[]
    else
      var n := |pairs| - 1;
      ToMap(pairs[..n])[pairs[n].0 := pairs[n].1]
  }

  /** A key is in the map iff some pair carries it. */
  lemma {:induction false} ToMapKeys(pairs: seq<(string, CacheEntry)>, k: string)
    ensures k in ToMap(pairs) <==> exists i :: 0 <= i < |pairs| && pairs[i].0 == k
  {
    if |pairs| > 0 {
      var n := |pairs| - 1;
      var init := pairs[..n];
      ToMapKeys(init, k);
      if k in ToMap(pairs) {
        if k != pairs[n].0 {
          var i :| 0 <= i < |init| && init[i].0 == k;
          assert pairs[i] == init[i];
        }
      }
      if exists i :: 0 <= i < |pairs| && pairs[i].0 == k {
        var i :| 0 <= i < |pairs| && pairs[i].0 == k;
        if i < n {
          assert init[i] == pairs[i];
        }
      }
    }
  }

  /** A pair whose key does not occur later decides that key's entry. */
  lemma {:induction false} ToMapLast(pairs: seq<(string, CacheEntry)>, i: nat)
    requires i < |pairs|
    requires forall j :: i < j < |pairs| ==> pairs[j].0 != pairs[i].0
    ensures pairs[i].0 in ToMap(pairs) && ToMap(pairs)[pairs[i].0] == pairs[i].1
  {
    var n := |pairs| - 1;
    if i < n {
      var init := pairs[..n];
      assert init[i] == pairs[i];
      forall j | i < j < |init| ensures init[j].0 != init[i].0 {
        assert init[j] == pairs[j];
      }
      ToMapLast(init, i);
    }
  }

  /** What `deserializeDiscoveredAPITTLCache` returns: stored dates are kept, never reset. */
  function DecodeDiscoveredApiCache(o: Object): (r: Parsed<DiscoveredApiCache>)
    ensures r.Success? ==> "purge_after_seconds" in o && o["purge_after_seconds"] == JInt(r.value.purgeAfterSeconds)
  {
    var purgeAfterSeconds :- GetInt(o, "purge_after_seconds");
    var items :- GetArray(o, "data");
    var pairs :- DecodeEach(items, CacheEntryElement);
    Success(DiscoveredApiCache(ToMap(pairs), purgeAfterSeconds))
  }

  function CacheEntryJson(pair: (string, CacheEntry)): (j: Json)
    ensures pair.1.api.version == 1 ==> CacheEntryElement(j) == Success(pair)
  {
    JObject(map["entry_date" := JInt(pair.1.entryDate),
                "key" := JString(pair.0),
                "discovered_api" := JObject(SerializeDiscoveredApi(pair.1.api))])
  }

  /** `keys` lists the keys of `m`, each exactly once. */
  predicate KeyOrder<V>(keys: seq<string>, m: map<string, V>) {
    && (forall k :: k in keys ==> k in m)
    && (forall k :: k in m ==> k in keys)
    && (forall i, j :: 0 <= i < j < |keys| ==> keys[i] != keys[j])
  }

  /** The entries of `m` in the order `keys` lists them. */
  function Pairs(keys: seq<string>, m: map<string, CacheEntry>): seq<(string, CacheEntry)>
    requires forall k :: k in keys ==> k in m
  {
    seq(|keys|, i requires 0 <= i < |keys| => (keys[i], m[keys[i]]))
  }

  /** What `serializeDiscoveredAPITTLCache` returns when the map iterates its keys in the order `keys`. */
  function EncodeDiscoveredApiCache(c: DiscoveredApiCache, keys: seq<string>): Object
    requires KeyOrder(keys, c.entries)
  {
    map["purge_after_seconds" := JInt(c.purgeAfterSeconds),
        "data" := JArray(EncodeEach(Pairs(keys, c.entries), CacheEntryJson))]
  }

  /** Cached APIs are version 1, as every value the deserializer builds is. */
  predicate CachedApisCurrent(c: DiscoveredApiCache) {
    forall k :: k in c.entries ==> c.entries[k].api.version == 1
  }

  /**
   * Whatever order the map iterates in, a cache reads back with the same
   * purge duration and the same key -> (entry date, API) map.
   */
  lemma CacheRoundTrip(c: DiscoveredApiCache, keys: seq<string>)
    requires KeyOrder(keys, c.entries)
    requires CachedApisCurrent(c)
    ensures DecodeDiscoveredApiCache(EncodeDiscoveredApiCache(c, keys)) == Success(c)
  {
    var pairs := Pairs(keys, c.entries);
    CacheEntriesRoundTrip(c, keys);
    ToMapPairs(keys, c.entries);
  }

  /** The entries of a current cache each read back as written. */
  lemma CacheEntriesRoundTrip(c: DiscoveredApiCache, keys: seq<string>)
    requires KeyOrder(keys, c.entries)
    requires CachedApisCurrent(c)
    ensures DecodeEach(EncodeEach(Pairs(keys, c.entries), CacheEntryJson), CacheEntryElement)
         == Success(Pairs(keys, c.entries))
  {
    var pairs := Pairs(keys, c.entries);
    forall i | 0 <= i < |pairs| ensures CacheEntryElement(CacheEntryJson(pairs[i])) == Success(pairs[i]) {
      assert pairs[i].1 == c.entries[keys[i]];
    }
    DecodeEachEncode(pairs, pairs, CacheEntryJson, CacheEntryElement);
  }

  /** Putting the entries back in any key order rebuilds the map. */
  lemma ToMapPairs(keys: seq<string>, entries: map<string, CacheEntry>)
    requires KeyOrder(keys, entries)
    ensures ToMap(Pairs(keys, entries)) == entries
  {
    var pairs := Pairs(keys, entries);
    var m := ToMap(pairs);
    forall k | k in entries
      ensures k in m && m[k] == entries[k]
    {
      var i :| 0 <= i < |keys| && keys[i] == k;
      ToMapLast(pairs, i);
    }
    forall k | k in m
      ensures k in entries
    {
      ToMapKeys(pairs, k);
      var i :| 0 <= i < |pairs| && pairs[i].0 == k;
    }
  }
}
