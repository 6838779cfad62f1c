/** The immutable value objects the serializer reads and writes. */
module Entities {
  import opened Wrappers

  /** A connectable configuration offered by an instance. */
  datatype Profile = Profile(displayName: string, profileId: string, twoFactor: bool)

  /** A VPN provider endpoint; `baseUri` identifies it. */
  datatype Instance = Instance(baseUri: string, displayName: string, logoUri: Option<string>)

  /** The discovery list of instances, with its format version. */
  datatype InstanceList = InstanceList(version: int, instances: seq<Instance>)

  /** The API endpoints a provider announces. */
  datatype DiscoveredApi = DiscoveredApi(
    version: int,
    authorizationEndpoint: string,
    createConfigApi: string,
    profileListApi: string,
    systemMessagesApi: Option<string>,
    userMessagesApi: Option<string>)

  /** A UTC instant with one-second precision, as the API date format carries it. */
  datatype DateTime = DateTime(year: int, month: int, day: int, hour: int, minute: int, second: int)

  /** Calendar fields in the ranges the API date format can write and read back. */
  predicate ValidDate(d: DateTime) {
    && 0 <= d.year <= 9999
    && 1 <= d.month <= 12
    && 1 <= d.day <= 31
    && 0 <= d.hour <= 23
    && 0 <= d.minute <= 59
    && 0 <= d.second <= 59
  }

  /** A date as messages carry it; the day is not checked against the length of the month. */
  type Date = d: DateTime | ValidDate(d) witness DateTime(1970, 1, 1, 0, 0, 0)

  /** A system or user message: announced maintenance, or a free-text notification. */
  datatype Message =
    | Maintenance(date: Date, start: Date, end: Date)
    | Notification(date: Date, content: string)

  /** An access token scoped to one instance. */
  datatype SavedToken = SavedToken(instance: Instance, accessToken: string)

  /** The profile the user chose, bound to the VPN engine's profile identity. */
  datatype SavedProfile = SavedProfile(instance: Instance, profile: Profile, profileUuid: string)

  datatype Settings = Settings(useCustomTabs: bool, forceTcp: bool)

  /** One cache entry: when it was stored (epoch milliseconds) and the cached value. */
  datatype CacheEntry = CacheEntry(entryDate: int, api: DiscoveredApi)

  /** The persisted content of the time-to-live cache of discovered APIs. */
  datatype DiscoveredApiCache = DiscoveredApiCache(entries: map<string, CacheEntry>, purgeAfterSeconds: int)
}
