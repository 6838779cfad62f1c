# eduVPN for Android: a verified model of its core

eduVPN for Android connects a device to the VPN servers of research and
education institutes. This project models four parts of the app:

- **The serializer.** It turns the app's entities into JSON and back. The
  entities are profiles, instances, instance lists, discovered APIs, messages,
  saved tokens, saved profiles, settings and the discovered-API cache. Every
  read either builds the whole value or fails with one format error.
- **The OpenVPN adapter.** It folds the engine's ten connection levels into
  five statuses. It also keeps the statistics of the current connection: the
  start time, byte counts, client addresses and error. It finds the client
  addresses from the `tun0` interface, or else from the engine's log line. It
  hands the statistics to one attached listener. It also adds the saved key
  pair to a configuration, and forces TCP on a profile's connections.
- **The connection-status screen.** It shows how long the client certificate
  is still valid, in the two largest units that fit. It shows the instance's
  support contacts as one line. It allows renewing the session 30 minutes
  after authenticating.
- **The organization-selection screen.** It builds its list from a search
  text. A text with two or more dots only offers to add a server. Any other
  text lists institute-access servers sorted by name, then secure-internet
  organizations paired with their home server. Each section has a header only
  when it has entries.

The modules follow the source files:

- `Serializer` and `SerializerMethods` model `SerializerService.java`. The
  single-entity and specifying functions are in `Serializer`. The list and
  cache loops are in `SerializerMethods`, where they are proved against those
  functions.
- `VpnAddresses` and `VpnService` model `EduOpenVPNService.java`. The adapter
  is the class `VpnService.EduOpenVpnService`.
- `ConnectionStatus` models `ConnectionStatusViewModel.kt`.
- `OrganizationSelection` models `OrganizationSelectionViewModel.kt`.

The helper modules are `Wrappers`, `Strings`, `Json`, `Entities`, `ApiDate`
and `Longs`.

Where the code and the design description differ, the model follows the code:

- `updateState` skips an update only when the raw engine level repeats. It
  does not compare the coarse status. A change between two "connecting"
  levels therefore posts the status again.

One place departs from the code on purpose: once connected, the adapter reads
the engine's log line with the corrected parser (see Findings, and
`VpnService.EduOpenVpnService.UpdateState` under "## Left out").

## Model

Source paths are relative to the repository root.

| member | source | states |
|---|---|---|
| Serializer.DeserializeProfile | app/src/main/java/net/tuxed/vpnconfigimporter/service/SerializerService.java:111-120 | succeeds iff `display_name` and `profile_id` are strings and `two_factor` is a boolean; the profile holds exactly those values |
| Serializer.SerializeProfile | app/src/main/java/net/tuxed/vpnconfigimporter/service/SerializerService.java:92-102 | every profile reads back as itself |
| Serializer.DecodeProfileList | app/src/main/java/net/tuxed/vpnconfigimporter/service/SerializerService.java:63-84 | a missing `data` or `profile_list` fails with that key; on success, one profile per array element, in order; when every element is a valid profile, it succeeds |
| SerializerMethods.DeserializeProfileList | app/src/main/java/net/tuxed/vpnconfigimporter/service/SerializerService.java:63-84 | the loop returns exactly what `DecodeProfileList` specifies, the first bad element's error included |
| SerializerMethods.DecodeArray | app/src/main/java/net/tuxed/vpnconfigimporter/service/SerializerService.java:72-75 | the element loop decodes in order and stops at the first failure, as `DecodeEach` specifies |
| SerializerMethods.EncodeArray | app/src/main/java/net/tuxed/vpnconfigimporter/service/SerializerService.java:200-205 | the element loop appends one encoded element per value, in order |
| Serializer.DeserializeInstance | app/src/main/java/net/tuxed/vpnconfigimporter/service/SerializerService.java:173-186 | succeeds iff `base_uri` and `display_name` are strings and any `logo_uri` is a string; an absent logo is an absent key |
| Serializer.SerializeInstance | app/src/main/java/net/tuxed/vpnconfigimporter/service/SerializerService.java:154-164 | `logo_uri` is written iff there is a logo; every instance reads back as itself |
| Serializer.DecodeInstanceList | app/src/main/java/net/tuxed/vpnconfigimporter/service/SerializerService.java:129-145 | a missing `version` fails with that key and a version other than 1 fails with that version; success implies the stored `version` is 1 and each instance is its element's decoding, in order; a version-1 array whose every element is a valid instance succeeds |
| SerializerMethods.DeserializeInstanceList | app/src/main/java/net/tuxed/vpnconfigimporter/service/SerializerService.java:129-145 | the loop returns exactly what `DecodeInstanceList` specifies |
| Serializer.InstanceListRoundTrip | app/src/main/java/net/tuxed/vpnconfigimporter/service/SerializerService.java:195-212 | a version-1 list reads back as itself; any other version is refused with that version |
| SerializerMethods.SerializeInstanceList | app/src/main/java/net/tuxed/vpnconfigimporter/service/SerializerService.java:195-212 | writes the version and the encoded instances; a version-1 list reads back as itself |
| Serializer.DeserializeDiscoveredApi | app/src/main/java/net/tuxed/vpnconfigimporter/service/SerializerService.java:221-253 | a missing `version` fails with that key, another version fails with it, and success implies the stored `version` is 1; the authorization endpoint, `create_config` and `profile_list` are required, and a missing one fails; the two message APIs are absent iff their keys are, and otherwise hold the stored strings |
| Serializer.SerializeDiscoveredApi | app/src/main/java/net/tuxed/vpnconfigimporter/service/SerializerService.java:262-277 | a version-1 API reads back as itself; any other version is refused |
| ApiDate.FormatParse | app/src/main/java/net/tuxed/vpnconfigimporter/service/SerializerService.java:49 | parsing a formatted date gives the date back |
| ApiDate.ParseFormat | app/src/main/java/net/tuxed/vpnconfigimporter/service/SerializerService.java:49 | the strict format: a text that parses is exactly the formatting of its date |
| Serializer.MessageElement | app/src/main/java/net/tuxed/vpnconfigimporter/service/SerializerService.java:292-307 | a message of unknown type is `None`, and `None` only comes from a dated message of another type; a missing `date`, `type` or `content` fails with that key, a non-string `type` or `content` with a wrong type, and an unreadable `date`, `start` or `end` with that field's error; a maintenance holds the parsed `date`, `start` and `end` and a notification the parsed `date` and the stored `content`; a dated, typed message whose type-specific fields are readable succeeds |
| Serializer.MessageJson | app/src/main/java/net/tuxed/vpnconfigimporter/service/SerializerService.java:322-348 | each message's JSON reads back as that message |
| Serializer.MessageListRoundTrip | app/src/main/java/net/tuxed/vpnconfigimporter/service/SerializerService.java:286-348 | every message list reads back as itself |
| Serializer.UnknownMessageDropped | app/src/main/java/net/tuxed/vpnconfigimporter/service/SerializerService.java:305-307 | an element of unknown type is skipped: the list reads exactly as without it, failures included |
| SerializerMethods.DeserializeMessageList | app/src/main/java/net/tuxed/vpnconfigimporter/service/SerializerService.java:286-313 | the loop returns the recognised messages in order, as `DecodeMessageList` specifies |
| SerializerMethods.SerializeMessageList | app/src/main/java/net/tuxed/vpnconfigimporter/service/SerializerService.java:322-348 | writes `{data: {messages: [...]}}`, which reads back as the list |
| Serializer.TokenElement | app/src/main/java/net/tuxed/vpnconfigimporter/service/SerializerService.java:386-389 | a token succeeds iff it has an `instance` object that is a valid instance and a string `access_token`; the token holds that instance and that access token |
| Serializer.TokenJson | app/src/main/java/net/tuxed/vpnconfigimporter/service/SerializerService.java:362-366 | each token's JSON reads back as that token |
| Serializer.SavedTokenListRoundTrip | app/src/main/java/net/tuxed/vpnconfigimporter/service/SerializerService.java:357-395 | every token list reads back as itself |
| SerializerMethods.SerializeSavedTokenList | app/src/main/java/net/tuxed/vpnconfigimporter/service/SerializerService.java:357-372 | writes `{data: [...]}`, which reads back as the list |
| SerializerMethods.DeserializeSavedTokenList | app/src/main/java/net/tuxed/vpnconfigimporter/service/SerializerService.java:381-395 | the loop returns exactly what `DecodeSavedTokenList` specifies |
| Serializer.SavedProfileElement | app/src/main/java/net/tuxed/vpnconfigimporter/service/SerializerService.java:434-438 | a saved profile succeeds iff `provider` is a valid instance, `profile` a valid profile and `profile_uuid` a string; it holds those three values |
| Serializer.SavedProfileJson | app/src/main/java/net/tuxed/vpnconfigimporter/service/SerializerService.java:409-413 | each saved profile's JSON reads back as that saved profile |
| Serializer.SavedProfileListRoundTrip | app/src/main/java/net/tuxed/vpnconfigimporter/service/SerializerService.java:404-444 | every saved-profile list reads back as itself |
| SerializerMethods.SerializeSavedProfileList | app/src/main/java/net/tuxed/vpnconfigimporter/service/SerializerService.java:404-420 | writes `{data: [...]}`, which reads back as the list |
| SerializerMethods.DeserializeSavedProfileList | app/src/main/java/net/tuxed/vpnconfigimporter/service/SerializerService.java:429-444 | the loop returns exactly what `DecodeSavedProfileList` specifies |
| Serializer.DeserializeAppSettings | app/src/main/java/net/tuxed/vpnconfigimporter/service/SerializerService.java:506-514 | succeeds iff both flags are booleans, and holds their values |
| Serializer.SerializeAppSettings | app/src/main/java/net/tuxed/vpnconfigimporter/service/SerializerService.java:523-532 | the settings read back as themselves |
| Serializer.CacheEntryElement | app/src/main/java/net/tuxed/vpnconfigimporter/service/SerializerService.java:487-491 | a cache element succeeds only with its `entry_date`, `key` and a `discovered_api` object; the entry holds the first two unchanged and the API decoded from the third; when all three are readable the element succeeds, and an API that fails to decode fails the element with the same error |
| Serializer.CacheEntryJson | app/src/main/java/net/tuxed/vpnconfigimporter/service/SerializerService.java:462-466 | an entry with a version-1 API reads back as itself |
| Serializer.ToMapKeys | app/src/main/java/net/tuxed/vpnconfigimporter/service/SerializerService.java:491 | after putting the pairs in order, a key is in the map iff some pair carries it |
| Serializer.ToMapLast | app/src/main/java/net/tuxed/vpnconfigimporter/service/SerializerService.java:491 | a later `put` of the same key overwrites: the last pair with a key decides its entry |
| Serializer.DecodeDiscoveredApiCache | app/src/main/java/net/tuxed/vpnconfigimporter/service/SerializerService.java:481-497 | on success the purge duration is the stored one |
| Serializer.ToMapPairs | app/src/main/java/net/tuxed/vpnconfigimporter/service/SerializerService.java:481-497 | putting a map's entries back in any key order rebuilds the map |
| Serializer.CacheRoundTrip | app/src/main/java/net/tuxed/vpnconfigimporter/service/SerializerService.java:453-497 | whatever order the map iterates in, a cache of version-1 APIs reads back with the same purge duration and the same entries |
| SerializerMethods.SerializeDiscoveredApiCache | app/src/main/java/net/tuxed/vpnconfigimporter/service/SerializerService.java:453-472 | writes one element per entry, in some order of the keys; a cache of version-1 APIs reads back as itself |
| SerializerMethods.DeserializeDiscoveredApiCache | app/src/main/java/net/tuxed/vpnconfigimporter/service/SerializerService.java:481-497 | the loop puts each element in order, as `DecodeDiscoveredApiCache` specifies |
| Longs.MillisToSeconds | app/src/main/java/nl/eduvpn/app/viewmodel/ConnectionStatusViewModel.kt:183 | `Long` division by 1000 truncates toward zero: bounds for either sign; the result is negative iff the span is -1000 ms or less |
| Strings.JavaSplit | app/src/main/java/nl/eduvpn/app/service/EduOpenVPNService.java:339 | a text without the separator splits into itself; otherwise the fields are a prefix of all the fields between separators, the last kept one is non-empty, and every dropped one is empty |
| Strings.DropTrailingEmpty | app/src/main/java/nl/eduvpn/app/service/EduOpenVPNService.java:339 | Java's `split` keeps a prefix of the fields that does not end in an empty field, and drops only empty fields |
| VpnAddresses.ParseLogMessageShape | app/src/main/java/nl/eduvpn/app/service/EduOpenVPNService.java:337-353 | a log line gives addresses iff it is non-empty and has exactly six commas |
| VpnAddresses.ParseLogMessageFields | app/src/main/java/nl/eduvpn/app/service/EduOpenVPNService.java:337-353 | a line of seven comma-free fields gives back field 1 as the IPv4 and field 6 as the IPv6, each absent when empty |
| VpnAddresses.AsWrittenDropsEmptyIpV6 | app/src/main/java/nl/eduvpn/app/service/EduOpenVPNService.java:339-348 | the code as written returns nothing for a line whose IPv6 field is empty; the corrected parser returns the IPv4 with no IPv6 |
| VpnAddresses.AsWrittenAgreesWithIpV6 | app/src/main/java/nl/eduvpn/app/service/EduOpenVPNService.java:337-353 | when the IPv6 field is filled in, the code as written and the corrected parser agree |
| VpnAddresses.AsWrittenAcceptsTrailingEmpty | app/src/main/java/nl/eduvpn/app/service/EduOpenVPNService.java:339-348 | a line with an empty field after the seventh is taken by the code as written and refused by the corrected parser |
| Strings.Lower | app/src/main/java/nl/eduvpn/app/service/EduOpenVPNService.java:314-315 | lower-casing keeps the length, leaves no upper-case ASCII letter, and keeps every other character |
| Strings.LowerIdempotent | app/src/main/java/nl/eduvpn/app/service/EduOpenVPNService.java:314-315 | lower-casing twice gives the same text as lower-casing once |
| VpnAddresses.NormalizeIpV6 | app/src/main/java/nl/eduvpn/app/service/EduOpenVPNService.java:314-315 | with a zone, the result is the lower-cased text before the first `%`; without one, the address lower-cased |
| VpnAddresses.LastOfFamilySpec | app/src/main/java/nl/eduvpn/app/service/EduOpenVPNService.java:308-317 | an address of a family is kept iff the interface has one, and then it is the last one, since later addresses overwrite |
| VpnAddresses.ClassifyAddresses | app/src/main/java/nl/eduvpn/app/service/EduOpenVPNService.java:305-317 | the address loop ends with the last IPv4 and the last normalized IPv6 |
| VpnAddresses.FirstNamedSpec | app/src/main/java/nl/eduvpn/app/service/EduOpenVPNService.java:303-304 | an interface is found iff one has the name, and then it is the first of them |
| VpnAddresses.LookupVpnIpAddresses | app/src/main/java/nl/eduvpn/app/service/EduOpenVPNService.java:300-329 | the lookup loop returns what `VpnIpAddresses` specifies; a result always has at least one address |
| VpnAddresses.VpnIpAddressesSpec | app/src/main/java/nl/eduvpn/app/service/EduOpenVPNService.java:300-329 | no `tun0` gives nothing; a result holds the addresses of the first `tun0` |
| VpnAddresses.VpnIpAddressesFirst | app/src/main/java/nl/eduvpn/app/service/EduOpenVPNService.java:303-322 | when interface i is the first `tun0`, the lookup gives exactly its last IPv4 and last IPv6, or nothing when it has neither |
| VpnService.StatusPreimages | app/src/main/java/nl/eduvpn/app/service/EduOpenVPNService.java:260-280 | exactly which engine levels map to each of the five statuses; every level has a status |
| VpnService.EduOpenVpnService.constructor | app/src/main/java/nl/eduvpn/app/service/EduOpenVPNService.java:74-85 | a new adapter is "not connected", has no statistics and no listener |
| VpnService.EduOpenVpnService.OnDisconnect | app/src/main/java/nl/eduvpn/app/service/EduOpenVPNService.java:243-251 | all six statistics are cleared, and the level and listener are kept |
| VpnService.EduOpenVpnService.Disconnect | app/src/main/java/nl/eduvpn/app/service/EduOpenVPNService.java:231-238 | the statistics are cleared whether the engine stopped or the remote call failed; with no engine bound nothing changes |
| VpnService.EduOpenVpnService.UpdateState | app/src/main/java/nl/eduvpn/app/service/EduOpenVPNService.java:363-399 | a repeated level changes nothing and posts nothing; connecting records the time and takes the addresses from the lookup, else from the log line, else keeps them, and offers them to a listener; failing records the error; disconnecting clears the statistics; any other status changes only the level |
| VpnService.EduOpenVpnService.Attach | app/src/main/java/nl/eduvpn/app/service/EduOpenVPNService.java:407-414 | the listener gets the addresses at once iff both are known; byte counting starts iff connected; the statistics are unchanged |
| VpnService.EduOpenVpnService.Tick | app/src/main/java/nl/eduvpn/app/service/EduOpenVPNService.java:415-427 | with a listener, it reports the whole seconds since connecting, truncated, and the byte counts; without one it reports nothing |
| VpnService.EduOpenVpnService.Detach | app/src/main/java/nl/eduvpn/app/service/EduOpenVPNService.java:450-454 | after detaching, no tick reports anything; the statistics are unchanged |
| VpnService.EduOpenVpnService.UpdateByteCount | app/src/main/java/nl/eduvpn/app/service/EduOpenVPNService.java:102-108 | the engine's running totals replace the byte counts; nothing else changes |
| VpnService.AugmentConfig | app/src/main/java/nl/eduvpn/app/service/EduOpenVPNService.java:155-160 | without a key pair the configuration is unchanged; with one it is extended by the certificate and the key in `<cert>` and `<key>` blocks: the original text, `\n<cert>\n`, the certificate, `\n</cert>\n\n<key>\n`, the key and `\n</key>\n` |
| VpnService.ApplyForceTcp | app/src/main/java/nl/eduvpn/app/service/EduOpenVPNService.java:210-219 | each UDP connection's enabled flag becomes "not force TCP", and TCP connections are untouched; with force TCP no UDP connection stays enabled |
| ConnectionStatus.BucketOf | app/src/main/java/nl/eduvpn/app/viewmodel/ConnectionStatusViewModel.kt:190-213 | the unit thresholds are at 60 s, 1 h, 1 day and 30 days; the shown duration never exceeds the time left, and falls short by less than its last unit; each part after the first is below its next unit |
| ConnectionStatus.ValidityAtSpec | app/src/main/java/nl/eduvpn/app/viewmodel/ConnectionStatusViewModel.kt:183-189 | a certificate counts as expired iff `now` is at least one whole second past its expiry; within that second it shows 0 seconds |
| ConnectionStatus.ConnectionStatusViewModel.constructor | app/src/main/java/nl/eduvpn/app/viewmodel/ConnectionStatusViewModel.kt:239-240 | the screen opens on the key pair's expiry and shows its validity at once |
| ConnectionStatus.ConnectionStatusViewModel.UpdateCertExpiry | app/src/main/java/nl/eduvpn/app/viewmodel/ConnectionStatusViewModel.kt:175-215 | no expiry clears the validity; an expired certificate raises "session expired"; updating continues iff the certificate is valid |
| ConnectionStatus.StripContactScheme | app/src/main/java/nl/eduvpn/app/viewmodel/ConnectionStatusViewModel.kt:95-98 | stripping `mailto:` or `tel:` undoes prefixing it to an address that does not repeat it |
| ConnectionStatus.StripAllSchemes | app/src/main/java/nl/eduvpn/app/viewmodel/ConnectionStatusViewModel.kt:94-101 | a `mailto:` or `tel:` contact whose rest does not repeat the scheme loses that prefix; any other contact is kept as is, in order |
| ConnectionStatus.TerminatedJoin | app/src/main/java/nl/eduvpn/app/viewmodel/ConnectionStatusViewModel.kt:102-105 | following every part with the separator, then deleting the last separator, is joining the parts |
| ConnectionStatus.FormatSupportContacts | app/src/main/java/nl/eduvpn/app/viewmodel/ConnectionStatusViewModel.kt:92-110 | nothing without an instance or without contacts; otherwise the stripped contacts joined by ", " |
| ConnectionStatus.CanRenewSchedule | app/src/main/java/nl/eduvpn/app/viewmodel/ConnectionStatusViewModel.kt:112-130 | a delayed schedule always has a positive delay |
| ConnectionStatus.CanRenewRule | app/src/main/java/nl/eduvpn/app/viewmodel/ConnectionStatusViewModel.kt:112-130 | renewal is allowed at any later time iff there is no authentication date or it is at least 30 minutes earlier |
| OrganizationSelection.MatchingServers | app/src/main/java/nl/eduvpn/app/viewmodel/OrganizationSelectionViewModel.kt:83-84 | exactly the local servers whose name holds the search text, ignoring case; a blank search keeps every local server |
| OrganizationSelection.MatchingServersSpec | app/src/main/java/nl/eduvpn/app/viewmodel/OrganizationSelectionViewModel.kt:83-84 | each matching server is kept as often as it is listed, others are dropped, and the server-list order is kept |
| OrganizationSelection.SortByNameSpec | app/src/main/java/nl/eduvpn/app/viewmodel/OrganizationSelectionViewModel.kt:85 | the sort by name orders the servers, nameless first, and is a permutation |
| OrganizationSelection.SortByNameStable | app/src/main/java/nl/eduvpn/app/viewmodel/OrganizationSelectionViewModel.kt:85 | the sort is stable: servers with the same name keep their order |
| OrganizationSelection.InstituteAccessSpec | app/src/main/java/nl/eduvpn/app/viewmodel/OrganizationSelectionViewModel.kt:83-86 | the institute-access servers are exactly the matching ones, each as often as listed, sorted and stable |
| OrganizationSelection.FirstDistributedSpec | app/src/main/java/nl/eduvpn/app/viewmodel/OrganizationSelectionViewModel.kt:94-98 | a home server is found iff a distributed server has that base URI, and then it is the first one |
| OrganizationSelection.SecureInternetItemsSpec | app/src/main/java/nl/eduvpn/app/viewmodel/OrganizationSelectionViewModel.kt:87-104 | one item per matching organization that has a home server, paired with that server; organizations without one are dropped |
| OrganizationSelection.SecureInternetItemsOrder | app/src/main/java/nl/eduvpn/app/viewmodel/OrganizationSelectionViewModel.kt:87-104 | the items follow the organization list: each listed organization as often as it occurs, in list order, with its first distributed home server |
| OrganizationSelection.InstituteAccessSectionSpec | app/src/main/java/nl/eduvpn/app/viewmodel/OrganizationSelectionViewModel.kt:105-108 | the section holds its header and the matching servers; the header is there iff some server matches |
| OrganizationSelection.SecureInternetSectionSpec | app/src/main/java/nl/eduvpn/app/viewmodel/OrganizationSelectionViewModel.kt:109-112 | the section holds its header and the secure-internet items; the header is there iff such an item exists |
| OrganizationSelection.OwnServerItems | app/src/main/java/nl/eduvpn/app/viewmodel/OrganizationSelectionViewModel.kt:77-82 | a search text with more than one dot gives only the "connect your own server" header and the "add server" item |
| OrganizationSelection.SectionsSpec | app/src/main/java/nl/eduvpn/app/viewmodel/OrganizationSelectionViewModel.kt:73-116 | otherwise the list has exactly the matching servers and the matching organizations with home servers, institute access before secure internet, each header iff its section is non-empty, and no "add server" item |
| OrganizationSelection.SectionsLayout | app/src/main/java/nl/eduvpn/app/viewmodel/OrganizationSelectionViewModel.kt:105-113 | the list length is fixed by the two sections; a non-empty institute-access section puts its header first, followed by one item per institute-access server in sorted order (see `InstituteAccessSpec`); a non-empty secure-internet section puts its header right after, and every later entry is exactly the secure-internet items in organization order |
| OrganizationSelection.NoItemsFoundSpec | app/src/main/java/nl/eduvpn/app/viewmodel/OrganizationSelectionViewModel.kt:118-122 | "no items found" iff the screen is ready, the text has at most one dot, no server matches, and no matching organization has a home server |

## Left out

- JSON is a tree of strings, booleans, integers, objects and arrays, and the accessors are strict. org.json's coercions are not modelled: a number read as a string, `"true"` read as a boolean, or JSON `null`.
- An instance's absent logo is an absent `logo_uri` key, as org.json's `put` of a null value leaves it.
- `UnknownFormatException` and the causes it wraps become one `FormatError` value per failure kind. Log output is left out.
- ApiDate.ParseDate: `SimpleDateFormat` is lenient, with overflowing fields and extra text after the date. The model parses exactly `yyyy-MM-ddTHH:mm:ssZ`. The format is set to UTC (SerializerService.java:51-53), so the model keeps the UTC calendar fields and no zone. Dates carry whole seconds only.
- The day of a date is not checked against the length of its month.
- Longs.MillisToSeconds: the 64-bit `Long` range and its wrap-around are not modelled. Times, byte counts and versions are unbounded integers.
- The TTL cache's own purging and lookups are not part of this model. Only its entries and purge duration are (de)serialized.
- SerializerMethods.SerializeDiscoveredApiCache: `HashMap` iteration order is unspecified, so the contract only says the output uses some order of the keys.
- Serializer.DecodeDiscoveredApiCache: its contract states the purge duration. The entries are stated through `ToMapKeys`, `ToMapLast` and `CacheRoundTrip`.
- `importConfig` beyond the string augmentation is not modelled: `ConfigParser`, the profile name and alias, and the `ProfileManager` storage are code this model cannot see.
- `findMatchingVpnProfile` and `getProfileWithUUID` search `ProfileManager`, which is not part of this model.
- `connect` beyond the force-TCP loop is not modelled: reading the setting and starting `LaunchVPN` are Android plumbing.
- `onCreate`, `onDestroy` and the `ServiceConnection` (binding to the engine) are not modelled. `Disconnect` takes the outcome of stopping the engine as a parameter.
- VpnService.EduOpenVpnService.UpdateState:
  - the clock and the interface lookup become parameters;
  - the `Handler` deferral is left out, and the posted status and metadata are what the update computed;
  - observers and the listener registry are left out;
  - the log line is read with the corrected parser, so when the interface lookup finds nothing the update differs from the code in two ways: on `x,10.8.0.2,x,x,x,x,` (empty IPv6 field) the code keeps the old addresses and the model stores IPv4 `10.8.0.2` with no IPv6; on `a,10.8.0.2,c,d,e,f,fe80::1,` (an empty eighth field) the code's `split` gives seven fields and stores both addresses, while the model counts eight and keeps the old ones (`VpnAddresses.AsWrittenAcceptsTrailingEmpty`).
- VpnService.EduOpenVpnService.Tick: the repeated posting every `CONNECTION_INFO_UPDATE_INTERVAL_MS` is one tick per call. The current time is a parameter.
- `getErrorString` looks up an Android string resource, so only the stored resource id is modelled.
- `getProtocolName` and `setConnectedVPN` return a constant or only log, so they are left out.
- Network-interface enumeration failures become an absent interface list.
- ConnectionStatus:
  - plurals, `HtmlCompat` and string resources are left out; the screen's values are the buckets they would show;
  - the 1-second timer is left out, and so is the alarm for the expiry notification (`planExpiryNotification` and `cancelAllExpiryNotifications`);
  - server name, profile name and country text are left out.
- ConnectionStatus.CanRenewSchedule: the `liveData` coroutine becomes a schedule (now, or after a delay). Coroutine timing is not modelled.
- `renewSession`, `reconnectToInstance`, `findCurrentConfig` and `findCurrentProfile` call services outside the four core files.
- OrganizationSelection:
  - the Rx fetch of organizations and servers, and the `FetchingOrganizations` state it sets, are left out; the list is a function of the fetched lists and the search text;
  - `selectOrganizationAndInstance` is left out;
  - case folding covers ASCII letters only; blank text uses Kotlin's `isWhitespace`, modelled on the characters below U+0080 (space, U+0009 to U+000D, U+001C to U+001F), and the Unicode space separators above are left out.
- OrganizationSelection.SortByNameSpec: strings are sequences of Unicode scalar values, and names compare character by character on those values. `String.compareTo` compares UTF-16 code units, so a name holding a character above U+FFFF may sort differently in the source. Locale-aware ordering is not involved.
- ConnectionStatus.StripAllSchemes: says nothing about a contact whose rest repeats its scheme. `replace` removes every occurrence in one left-to-right pass, and what remains then has no simple description. `StripContact` still models that pass.

## Findings

| source | as written | input that shows it | evidently intended | confidence | as-written member | corrected member |
|---|---|---|---|---|---|---|
| app/src/main/java/nl/eduvpn/app/service/EduOpenVPNService.java:339-348 | `logMessage.split(",")` drops trailing empty fields. A line with an empty IPv6 field therefore splits into six parts and is rejected. The `ipV6.length() == 0` branch can never run. The corrected parser counts every field, so it also refuses lines with empty fields after the seventh, which the code accepts (`VpnAddresses.AsWrittenAcceptsTrailingEmpty`). | `x,10.8.0.2,x,x,x,x,` | the IPv4 `10.8.0.2` with an absent IPv6 | high, not executed | VpnAddresses.AsWrittenDropsEmptyIpV6 | VpnAddresses.ParseLogMessageFields |
