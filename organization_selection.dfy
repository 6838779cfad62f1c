/**
 * The organization-selection screen's list: for a search text, either an
 * "add your own server" entry, or a section of institute-access servers
 * sorted by name followed by a section of secure-internet organizations
 * paired with their home server, each section with a header only when it
 * has entries.
 */
module OrganizationSelection {
  import opened Wrappers
  import opened Strings

  datatype AuthorizationType = Local | Distributed

  /** A server of the server list. */
  datatype Server = Server(baseUri: string, displayName: Option<string>, authorizationType: AuthorizationType)

  /** An organization offering secure internet through its home server. */
  datatype Organization = Organization(displayName: string, keywordList: seq<string>, secureInternetHome: string)

  datatype HeaderKind = ConnectYourOwnServer | InstituteAccessHeader | SecureInternetHeader

  /** `OrganizationAdapterItem`. */
  datatype AdapterItem =
    | Header(kind: HeaderKind)
    | AddServer(url: string)
    | InstituteAccess(server: Server)
    | SecureInternet(server: Server, organization: Organization)

  /** The states of the screen this list depends on. */
  datatype ConnectionState = Ready | FetchingOrganizations

  // ---------------------------------------------------------------- Search

  /** The ASCII characters `isBlank` skips: space, tab to carriage return, and the four separators U+001C to U+001F. */
  predicate IsWhitespace(c: char) {
    c == ' ' || '\t' <= c <= '\r' || '\U{1C}' <= c <= '\U{1F}'
  }

  /** `isNullOrBlank` on a non-null text. */
  predicate IsBlank(text: string) {
    forall i :: 0 <= i < |text| ==> IsWhitespace(text[i])
  }

  /** A server listed under institute access: a local server whose name holds the search text, or any local server for a blank search. */
  predicate ServerMatches(s: Server, searchText: string) {
    s.authorizationType == Local
    && (IsBlank(searchText) || (s.displayName.Some? && ContainsIgnoreCase(s.displayName.value, searchText)))
  }

  /** An organization whose name or one of whose keywords holds the search text; a blank search matches all. */
  predicate OrganizationMatches(o: Organization, searchText: string) {
    || IsBlank(searchText)
    || ContainsIgnoreCase(o.displayName, searchText)
    || exists i :: 0 <= i < |o.keywordList| && ContainsIgnoreCase(o.keywordList[i], searchText)
  }

  /** The servers listed under institute access, in server-list order. */
  function MatchingServers(servers: seq<Server>, searchText: string): (r: seq<Server>)
    ensures forall s :: s in r <==> s in servers && ServerMatches(s, searchText)
  {
    if |servers| == 0 then []
    else
      var rest := MatchingServers(servers[1..], searchText);
      assert forall s :: s in servers <==> s == servers[0] || s in servers[1..];
      if ServerMatches(servers[0], searchText) then [servers[0]] + rest else rest
  }

  /** `xs` is `ys` with some elements left out, the rest kept in order. */
  predicate Subsequence<T(==)>(xs: seq<T>, ys: seq<T>)
    decreases |ys|
  {
    if |xs| == 0 then true
    else if |ys| == 0 then false
    else if xs[0] == ys[0] then Subsequence(xs[1..], ys[1..])
    else Subsequence(xs, ys[1..])
  }

  /**
   * `filter` keeps every matching server as often as the server list holds
   * it, drops every other one, and keeps the server-list order.
   */
  lemma {:induction false} MatchingServersSpec(servers: seq<Server>, searchText: string)
    ensures forall s :: multiset(MatchingServers(servers, searchText))[s] ==
                        if ServerMatches(s, searchText) then multiset(servers)[s] else 0
    ensures Subsequence(MatchingServers(servers, searchText), servers)
  {
    if |servers| > 0 {
      var rest := MatchingServers(servers[1..], searchText);
      MatchingServersSpec(servers[1..], searchText);
      assert servers == [servers[0]] + servers[1..];
      assert multiset(servers) == multiset{servers[0]} + multiset(servers[1..]);
      if ServerMatches(servers[0], searchText) {
        assert MatchingServers(servers, searchText) == [servers[0]] + rest;
        assert ([servers[0]] + rest)[1..] == rest;
      } else if |rest| > 0 {
        assert rest[0] in rest;
        assert rest[0] != servers[0];
      }
    }
  }

  // ---------------------------------------------------------------- Sorting by name

  /** Kotlin's `String.compareTo`: lexicographic by character. */
  predicate StrLe(a: string, b: string) {
    |a| == 0 || (|b| > 0 && (a[0] < b[0] || (a[0] == b[0] && StrLe(a[1..], b[1..]))))
  }

  /** `compareValues` on nullable names: an absent name sorts first. */
  predicate NameLe(a: Option<string>, b: Option<string>) {
    a.None? || (b.Some? && StrLe(a.value, b.value))
  }

  lemma {:induction false} StrLeTotal(a: string, b: string)
    ensures StrLe(a, b) || StrLe(b, a)
  {
    if |a| > 0 && |b| > 0 && a[0] == b[0] {
      StrLeTotal(a[1..], b[1..]);
    }
  }

  lemma {:induction false} StrLeReflexive(a: string)
    ensures StrLe(a, a)
  {
    if |a| > 0 {
      StrLeReflexive(a[1..]);
    }
  }

  /** Each server's name sorts no later than the next one's. */
  predicate SortedByName(xs: seq<Server>) {
    forall i :: 0 <= i < |xs| - 1 ==> NameLe(xs[i].displayName, xs[i + 1].displayName)
  }

  /** Inserts `x` before the first server whose name does not sort before it. */
  function Insert(x: Server, sorted: seq<Server>): seq<Server> {
    if |sorted| == 0 then [x]
    else if NameLe(x.displayName, sorted[0].displayName) then [x] + sorted
    else [sorted[0]] + Insert(x, sorted[1..])
  }

  /** `sortedBy { it.displayName }`, as a stable insertion sort. */
  function SortByName(xs: seq<Server>): seq<Server> {
    if |xs| == 0 then [] else Insert(xs[0], SortByName(xs[1..]))
  }

  lemma {:induction false} InsertPermutes(x: Server, sorted: seq<Server>)
    ensures multiset(Insert(x, sorted)) == multiset(sorted) + multiset{x}
  {
    if |sorted| > 0 && !NameLe(x.displayName, sorted[0].displayName) {
      InsertPermutes(x, sorted[1..]);
      assert sorted == [sorted[0]] + sorted[1..];
    }
  }

  lemma {:induction false} InsertSorted(x: Server, sorted: seq<Server>)
    requires SortedByName(sorted)
    ensures SortedByName(Insert(x, sorted))
    ensures multiset(Insert(x, sorted)) == multiset(sorted) + multiset{x}
    ensures Insert(x, sorted)[0] == x || (|sorted| > 0 && Insert(x, sorted)[0] == sorted[0])
  {
    InsertPermutes(x, sorted);
    if |sorted| > 0 && !NameLe(x.displayName, sorted[0].displayName) {
      var rest := sorted[1..];
      assert SortedByName(rest) by {
        forall i | 0 <= i < |rest| - 1 ensures NameLe(rest[i].displayName, rest[i + 1].displayName) {
          assert rest[i] == sorted[i + 1] && rest[i + 1] == sorted[i + 2];
        }
      }
      InsertSorted(x, rest);
      if x.displayName.Some? && sorted[0].displayName.Some? {
        StrLeTotal(x.displayName.value, sorted[0].displayName.value);
      }
      var inserted := Insert(x, rest);
      var r := Insert(x, sorted);
      assert r == [sorted[0]] + inserted;
      assert NameLe(sorted[0].displayName, inserted[0].displayName);
      forall i | 0 <= i < |r| - 1 ensures NameLe(r[i].displayName, r[i + 1].displayName) {
        assert r[i + 1] == inserted[i];
        if i > 0 {
          assert r[i] == inserted[i - 1];
        }
      }
    } else if |sorted| > 0 {
      var r := Insert(x, sorted);
      assert r == [x] + sorted;
      forall i | 0 <= i < |r| - 1 ensures NameLe(r[i].displayName, r[i + 1].displayName) {
        assert r[i + 1] == sorted[i];
        if i > 0 {
          assert r[i] == sorted[i - 1];
        }
      }
    }
  }

  /** Sorting by name orders the servers and keeps every one of them, as often as it occurs. */
  lemma {:induction false} SortByNameSpec(xs: seq<Server>)
    ensures SortedByName(SortByName(xs))
    ensures multiset(SortByName(xs)) == multiset(xs)
  {
    if |xs| > 0 {
      var sortedRest := SortByName(xs[1..]);
      SortByNameSpec(xs[1..]);
      InsertSorted(xs[0], sortedRest);
      assert SortByName(xs) == Insert(xs[0], sortedRest);
      assert xs == [xs[0]] + xs[1..];
      assert multiset(xs) == multiset(xs[1..]) + multiset{xs[0]};
    }
  }

  /** The servers that carry a given name, in order. */
  function WithName(xs: seq<Server>, name: Option<string>): seq<Server> {
    if |xs| == 0 then []
    else (if xs[0].displayName == name then [xs[0]] else []) + WithName(xs[1..], name)
  }

  lemma {:induction false} InsertWithName(x: Server, sorted: seq<Server>, name: Option<string>)
    ensures WithName(Insert(x, sorted), name) ==
      (if x.displayName == name then [x] else []) + WithName(sorted, name)
  {
    if |sorted| > 0 && !NameLe(x.displayName, sorted[0].displayName) {
      var rest := sorted[1..];
      InsertWithName(x, rest, name);
      if x.displayName.Some? {
        StrLeReflexive(x.displayName.value);
      }
      assert sorted[0].displayName != x.displayName;
      var inserted := Insert(x, rest);
      assert Insert(x, sorted) == [sorted[0]] + inserted;
      assert ([sorted[0]] + inserted)[1..] == inserted;
      assert sorted == [sorted[0]] + rest;
    } else if |sorted| > 0 {
      assert Insert(x, sorted) == [x] + sorted;
      assert ([x] + sorted)[1..] == sorted;
    }
  }

  /** The sort is stable: servers with the same name keep their relative order. */
  lemma {:induction false} SortByNameStable(xs: seq<Server>, name: Option<string>)
    ensures WithName(SortByName(xs), name) == WithName(xs, name)
  {
    if |xs| > 0 {
      SortByNameStable(xs[1..], name);
      InsertWithName(xs[0], SortByName(xs[1..]), name);
    }
  }

  /** The institute-access section: matching servers sorted by name. */
  function InstituteAccessServers(servers: seq<Server>, searchText: string): seq<Server> {
    SortByName(MatchingServers(servers, searchText))
  }

  /**
   * The institute-access section lists exactly the matching servers, each as
   * often as in the server list, sorted by name, with servers of equal name
   * in server-list order.
   */
  lemma InstituteAccessSpec(servers: seq<Server>, searchText: string)
    ensures forall s :: s in InstituteAccessServers(servers, searchText) <==> s in servers && ServerMatches(s, searchText)
    ensures multiset(InstituteAccessServers(servers, searchText)) == multiset(MatchingServers(servers, searchText))
    ensures SortedByName(InstituteAccessServers(servers, searchText))
    ensures forall name :: WithName(InstituteAccessServers(servers, searchText), name)
                        == WithName(MatchingServers(servers, searchText), name)
  {
    var matching := MatchingServers(servers, searchText);
    SortByNameSpec(matching);
    InstituteAccessMembers(servers, searchText);
    forall name ensures WithName(SortByName(matching), name) == WithName(matching, name) {
      SortByNameStable(matching, name);
    }
  }

  lemma InstituteAccessMembers(servers: seq<Server>, searchText: string)
    ensures forall s :: s in InstituteAccessServers(servers, searchText) <==> s in servers && ServerMatches(s, searchText)
  {
    var matching := MatchingServers(servers, searchText);
    SortByNameSpec(matching);
    forall s ensures s in SortByName(matching) <==> s in matching {
      assert s in SortByName(matching) <==> s in multiset(SortByName(matching));
      assert s in matching <==> s in multiset(matching);
    }
  }

  // ---------------------------------------------------------------- Secure internet

  /** `firstOrNull` of the distributed servers whose base URI is the given home. */
  function FirstDistributed(servers: seq<Server>, home: string): Option<Server> {
    if |servers| == 0 then None
    else if servers[0].authorizationType == Distributed && servers[0].baseUri == home then Some(servers[0])
    else FirstDistributed(servers[1..], home)
  }

  /** A home server is found iff one exists, and then it is the first of them. */
  lemma {:induction false} FirstDistributedSpec(servers: seq<Server>, home: string)
    ensures FirstDistributed(servers, home).None? <==>
      forall i :: 0 <= i < |servers| ==> !(servers[i].authorizationType == Distributed && servers[i].baseUri == home)
    ensures FirstDistributed(servers, home).Some? ==>
      exists i :: 0 <= i < |servers| && servers[i] == FirstDistributed(servers, home).value
        && servers[i].authorizationType == Distributed && servers[i].baseUri == home
        && forall j :: 0 <= j < i ==> !(servers[j].authorizationType == Distributed && servers[j].baseUri == home)
  {
    if |servers| > 0 && !(servers[0].authorizationType == Distributed && servers[0].baseUri == home) {
      var rest := servers[1..];
      FirstDistributedSpec(rest, home);
      assert forall i :: 1 <= i < |servers| ==> servers[i] == rest[i - 1];
      if FirstDistributed(rest, home).Some? {
        var i :| 0 <= i < |rest| && rest[i] == FirstDistributed(rest, home).value
          && rest[i].authorizationType == Distributed && rest[i].baseUri == home
          && forall j :: 0 <= j < i ==> !(rest[j].authorizationType == Distributed && rest[j].baseUri == home);
        assert servers[i + 1] == rest[i];
        assert forall j :: 0 <= j < i + 1 ==> !(servers[j].authorizationType == Distributed && servers[j].baseUri == home);
      }
    }
  }

  /** The secure-internet section: matching organizations in order, each with its home server, those without one dropped. */
  function SecureInternetItems(organizations: seq<Organization>, servers: seq<Server>, searchText: string): seq<AdapterItem> {
    if |organizations| == 0 then []
    else
      var o := organizations[0];
      var home := FirstDistributed(servers, o.secureInternetHome);
      var rest := SecureInternetItems(organizations[1..], servers, searchText);
      if OrganizationMatches(o, searchText) && home.Some? then [SecureInternet(home.value, o)] + rest else rest
  }

  /** The section holds only secure-internet items, one per matching organization that has a home server. */
  lemma {:induction false} SecureInternetItemsSpec(organizations: seq<Organization>, servers: seq<Server>, searchText: string)
    ensures forall item :: item in SecureInternetItems(organizations, servers, searchText) ==> item.SecureInternet?
    ensures forall s, o :: SecureInternet(s, o) in SecureInternetItems(organizations, servers, searchText) <==>
      o in organizations && OrganizationMatches(o, searchText) && FirstDistributed(servers, o.secureInternetHome) == Some(s)
  {
    if |organizations| > 0 {
      SecureInternetItemsSpec(organizations[1..], servers, searchText);
      assert forall o :: o in organizations <==> o == organizations[0] || o in organizations[1..];
    }
  }

  /** The organizations of a list of secure-internet items, in order. */
  function OrganizationsOf(items: seq<AdapterItem>): seq<Organization>
    requires forall item :: item in items ==> item.SecureInternet?
  {
    if |items| == 0 then [] else [items[0].organization] + OrganizationsOf(items[1..])
  }

  /** An organization that gets a secure-internet item: it matches the search and has a home server. */
  predicate Listed(o: Organization, servers: seq<Server>, searchText: string) {
    OrganizationMatches(o, searchText) && FirstDistributed(servers, o.secureInternetHome).Some?
  }

  /**
   * The secure-internet items follow the organization list: one item per
   * listed organization, as often as the list holds it, in list order, each
   * paired with that organization's home server.
   */
  lemma {:induction false} SecureInternetItemsOrder(organizations: seq<Organization>, servers: seq<Server>, searchText: string)
    ensures forall k :: 0 <= k < |SecureInternetItems(organizations, servers, searchText)| ==>
      var item := SecureInternetItems(organizations, servers, searchText)[k];
      item.SecureInternet? && FirstDistributed(servers, item.organization.secureInternetHome) == Some(item.server)
    ensures forall item :: item in SecureInternetItems(organizations, servers, searchText) ==> item.SecureInternet?
    ensures var items := SecureInternetItems(organizations, servers, searchText);
      && Subsequence(OrganizationsOf(items), organizations)
      && (forall o :: multiset(OrganizationsOf(items))[o] ==
            if Listed(o, servers, searchText) then multiset(organizations)[o] else 0)
  {
    SecureInternetItemsHomes(organizations, servers, searchText);
    SecureInternetOrganizations(organizations, servers, searchText);
  }

  lemma {:induction false} SecureInternetItemsHomes(organizations: seq<Organization>, servers: seq<Server>, searchText: string)
    ensures forall k :: 0 <= k < |SecureInternetItems(organizations, servers, searchText)| ==>
      var item := SecureInternetItems(organizations, servers, searchText)[k];
      item.SecureInternet? && FirstDistributed(servers, item.organization.secureInternetHome) == Some(item.server)
  {
    if |organizations| > 0 {
      var items := SecureInternetItems(organizations, servers, searchText);
      var o := organizations[0];
      var rest := SecureInternetItems(organizations[1..], servers, searchText);
      SecureInternetItemsHomes(organizations[1..], servers, searchText);
      if Listed(o, servers, searchText) {
        var home := FirstDistributed(servers, o.secureInternetHome);
        assert items == [SecureInternet(home.value, o)] + rest;
        forall k | 1 <= k < |items| ensures items[k] == rest[k - 1] { }
      }
    }
  }

  lemma {:induction false} SecureInternetItemsKind(organizations: seq<Organization>, servers: seq<Server>, searchText: string)
    ensures forall item :: item in SecureInternetItems(organizations, servers, searchText) ==> item.SecureInternet?
  {
    if |organizations| > 0 {
      SecureInternetItemsKind(organizations[1..], servers, searchText);
    }
  }

  /** One step of the secure-internet items: the first organization's item, if it gets one, before the rest. */
  lemma OrganizationsOfStep(organizations: seq<Organization>, servers: seq<Server>, searchText: string)
    requires |organizations| > 0
    ensures forall item :: item in SecureInternetItems(organizations, servers, searchText) ==> item.SecureInternet?
    ensures forall item :: item in SecureInternetItems(organizations[1..], servers, searchText) ==> item.SecureInternet?
    ensures OrganizationsOf(SecureInternetItems(organizations, servers, searchText)) ==
      (if Listed(organizations[0], servers, searchText) then [organizations[0]] else [])
      + OrganizationsOf(SecureInternetItems(organizations[1..], servers, searchText))
  {
    SecureInternetItemsKind(organizations, servers, searchText);
    SecureInternetItemsKind(organizations[1..], servers, searchText);
    var items := SecureInternetItems(organizations, servers, searchText);
    var o := organizations[0];
    var rest := SecureInternetItems(organizations[1..], servers, searchText);
    if Listed(o, servers, searchText) {
      assert items == [SecureInternet(FirstDistributed(servers, o.secureInternetHome).value, o)] + rest;
      assert items[1..] == rest;
    }
  }

  /** The organizations that get an item keep the organization-list order. */
  lemma {:induction false} SecureInternetSubsequence(organizations: seq<Organization>, servers: seq<Server>, searchText: string)
    ensures forall item :: item in SecureInternetItems(organizations, servers, searchText) ==> item.SecureInternet?
    ensures Subsequence(OrganizationsOf(SecureInternetItems(organizations, servers, searchText)), organizations)
  {
    SecureInternetItemsKind(organizations, servers, searchText);
    if |organizations| > 0 {
      var o := organizations[0];
      var tail := organizations[1..];
      OrganizationsOfStep(organizations, servers, searchText);
      SecureInternetSubsequence(tail, servers, searchText);
      var orgs := OrganizationsOf(SecureInternetItems(organizations, servers, searchText));
      var restOrgs := OrganizationsOf(SecureInternetItems(tail, servers, searchText));
      if Listed(o, servers, searchText) {
        assert orgs[1..] == restOrgs;
      } else if |restOrgs| > 0 {
        SecureInternetCounts(tail, servers, searchText);
        assert multiset(restOrgs)[restOrgs[0]] > 0;
      }
    }
  }

  /** Each organization that gets an item gets one for every time the list holds it. */
  lemma {:induction false} SecureInternetCounts(organizations: seq<Organization>, servers: seq<Server>, searchText: string)
    ensures forall item :: item in SecureInternetItems(organizations, servers, searchText) ==> item.SecureInternet?
    ensures forall o :: multiset(OrganizationsOf(SecureInternetItems(organizations, servers, searchText)))[o] ==
                        if Listed(o, servers, searchText) then multiset(organizations)[o] else 0
  {
    SecureInternetItemsKind(organizations, servers, searchText);
    if |organizations| > 0 {
      var first := organizations[0];
      var tail := organizations[1..];
      OrganizationsOfStep(organizations, servers, searchText);
      SecureInternetCounts(tail, servers, searchText);
      var orgs := OrganizationsOf(SecureInternetItems(organizations, servers, searchText));
      var restOrgs := OrganizationsOf(SecureInternetItems(tail, servers, searchText));
      var head: seq<Organization> := if Listed(first, servers, searchText) then [first] else [];
      assert organizations == [first] + tail;
      assert multiset(organizations) == multiset{first} + multiset(tail);
      assert multiset(orgs) == multiset(head) + multiset(restOrgs);
      forall o ensures multiset(orgs)[o] == if Listed(o, servers, searchText) then multiset(organizations)[o] else 0 {
        assert multiset(organizations)[o] == multiset{first}[o] + multiset(tail)[o];
        assert multiset(orgs)[o] == multiset(head)[o] + multiset(restOrgs)[o];
      }
    }
  }

  lemma SecureInternetOrganizations(organizations: seq<Organization>, servers: seq<Server>, searchText: string)
    ensures forall item :: item in SecureInternetItems(organizations, servers, searchText) ==> item.SecureInternet?
    ensures var items := SecureInternetItems(organizations, servers, searchText);
      && Subsequence(OrganizationsOf(items), organizations)
      && (forall o :: multiset(OrganizationsOf(items))[o] ==
            if Listed(o, servers, searchText) then multiset(organizations)[o] else 0)
  {
    SecureInternetSubsequence(organizations, servers, searchText);
    SecureInternetCounts(organizations, servers, searchText);
  }

  // ---------------------------------------------------------------- The list

  /** The institute-access header followed by one item per listed server, or nothing. */
  function InstituteAccessSection(servers: seq<Server>, searchText: string): seq<AdapterItem> {
    var listed := InstituteAccessServers(servers, searchText);
    if |listed| == 0 then [] else [Header(InstituteAccessHeader)] + InstituteAccessItems(listed)
  }

  /** One institute-access item per server, in order. */
  function InstituteAccessItems(listed: seq<Server>): seq<AdapterItem> {
    seq(|listed|, i requires 0 <= i < |listed| => InstituteAccess(listed[i]))
  }

  /** The secure-internet header followed by the secure-internet items, or nothing. */
  function SecureInternetSection(organizations: seq<Organization>, servers: seq<Server>, searchText: string): seq<AdapterItem> {
    var items := SecureInternetItems(organizations, servers, searchText);
    if |items| == 0 then [] else [Header(SecureInternetHeader)] + items
  }

  /** `adapterItems` for the given organizations, servers and search text. */
  function AdapterItems(organizations: seq<Organization>, servers: seq<Server>, searchText: string): seq<AdapterItem> {
    if Count(searchText, '.') > 1 then
      [Header(ConnectYourOwnServer), AddServer(searchText)]
    else
      InstituteAccessSection(servers, searchText) + SecureInternetSection(organizations, servers, searchText)
  }

  /** The institute-access section: its header and exactly the matching servers; the header iff some server matches. */
  lemma InstituteAccessSectionSpec(servers: seq<Server>, searchText: string)
    ensures forall item :: item in InstituteAccessSection(servers, searchText) ==>
      item == Header(InstituteAccessHeader) || item.InstituteAccess?
    ensures forall s :: InstituteAccess(s) in InstituteAccessSection(servers, searchText) <==>
      s in servers && ServerMatches(s, searchText)
    ensures Header(InstituteAccessHeader) in InstituteAccessSection(servers, searchText) <==>
      exists s :: s in servers && ServerMatches(s, searchText)
  {
    var listed := InstituteAccessServers(servers, searchText);
    var section := InstituteAccessSection(servers, searchText);
    InstituteAccessMembers(servers, searchText);
    InstituteAccessItemsMembers(listed);
    if |listed| > 0 {
      assert section == [Header(InstituteAccessHeader)] + InstituteAccessItems(listed);
      assert listed[0] in listed;
    }
  }

  /** The institute-access items are exactly the listed servers' items. */
  lemma InstituteAccessItemsMembers(listed: seq<Server>)
    ensures forall item :: item in InstituteAccessItems(listed) ==> item.InstituteAccess?
    ensures forall s :: InstituteAccess(s) in InstituteAccessItems(listed) <==> s in listed
  {
    var r := InstituteAccessItems(listed);
    forall item | item in r ensures item.InstituteAccess? {
      var k :| 0 <= k < |r| && r[k] == item;
    }
    forall s ensures InstituteAccess(s) in r <==> s in listed {
      if s in listed {
        var k :| 0 <= k < |listed| && listed[k] == s;
        assert r[k] == InstituteAccess(s);
      }
      if InstituteAccess(s) in r {
        var k :| 0 <= k < |r| && r[k] == InstituteAccess(s);
      }
    }
  }

  /** The secure-internet section: its header and exactly the matching organizations with a home server; the header iff there is one. */
  lemma SecureInternetSectionSpec(organizations: seq<Organization>, servers: seq<Server>, searchText: string)
    ensures forall item :: item in SecureInternetSection(organizations, servers, searchText) ==>
      item == Header(SecureInternetHeader) || item.SecureInternet?
    ensures forall s, o :: SecureInternet(s, o) in SecureInternetSection(organizations, servers, searchText) <==>
      o in organizations && OrganizationMatches(o, searchText) && FirstDistributed(servers, o.secureInternetHome) == Some(s)
    ensures Header(SecureInternetHeader) in SecureInternetSection(organizations, servers, searchText) <==>
      exists o :: o in organizations && OrganizationMatches(o, searchText)
        && FirstDistributed(servers, o.secureInternetHome).Some?
  {
    var items := SecureInternetItems(organizations, servers, searchText);
    var section := SecureInternetSection(organizations, servers, searchText);
    SecureInternetItemsSpec(organizations, servers, searchText);
    if exists o :: o in organizations && OrganizationMatches(o, searchText)
        && FirstDistributed(servers, o.secureInternetHome).Some? {
      var o :| o in organizations && OrganizationMatches(o, searchText)
        && FirstDistributed(servers, o.secureInternetHome).Some?;
      assert SecureInternet(FirstDistributed(servers, o.secureInternetHome).value, o) in items;
      assert section[0] == Header(SecureInternetHeader);
    }
    if Header(SecureInternetHeader) in section {
      assert items[0] in items;
    }
  }

  /** A search text with more than one dot only offers to add it as a server. */
  lemma OwnServerItems(organizations: seq<Organization>, servers: seq<Server>, searchText: string)
    requires Count(searchText, '.') > 1
    ensures AdapterItems(organizations, servers, searchText) == [Header(ConnectYourOwnServer), AddServer(searchText)]
  {
  }

  /**
   * Otherwise: institute-access items are exactly the matching servers,
   * secure-internet items exactly the matching organizations with their home
   * server, every institute-access item comes before every secure-internet
   * item, and each section header is present iff its section is non-empty.
   */
  lemma SectionsSpec(organizations: seq<Organization>, servers: seq<Server>, searchText: string)
    requires Count(searchText, '.') <= 1
    ensures var items := AdapterItems(organizations, servers, searchText);
      && (forall s :: InstituteAccess(s) in items <==> s in servers && ServerMatches(s, searchText))
      && (forall s, o :: SecureInternet(s, o) in items <==>
            o in organizations && OrganizationMatches(o, searchText)
            && FirstDistributed(servers, o.secureInternetHome) == Some(s))
      && (forall i, j :: 0 <= i < |items| && 0 <= j < |items| && items[i].InstituteAccess? && items[j].SecureInternet? ==> i < j)
      && (Header(InstituteAccessHeader) in items <==> exists s :: s in servers && ServerMatches(s, searchText))
      && (Header(SecureInternetHeader) in items <==>
            exists o :: o in organizations && OrganizationMatches(o, searchText)
              && FirstDistributed(servers, o.secureInternetHome).Some?)
      && (forall item :: item in items ==> !item.AddServer?)
  {
    var first := InstituteAccessSection(servers, searchText);
    var second := SecureInternetSection(organizations, servers, searchText);
    InstituteAccessSectionSpec(servers, searchText);
    SecureInternetSectionSpec(organizations, servers, searchText);
    var items := AdapterItems(organizations, servers, searchText);
    assert items == first + second;
    forall k | |first| <= k < |items|
      ensures !items[k].InstituteAccess?
    {
      assert items[k] == second[k - |first|];
      assert second[k - |first|] in second;
    }
    forall k | 0 <= k < |first|
      ensures !items[k].SecureInternet?
    {
      assert items[k] == first[k];
      assert first[k] in first;
    }
  }

  /**
   * Where everything sits: the institute-access header first, then its
   * servers in the order of `InstituteAccessServers` (sorted by name, see
   * `InstituteAccessSpec`), then the secure-internet header, then the
   * secure-internet items in organization order; an empty section leaves no
   * trace.
   */
  lemma SectionsLayout(organizations: seq<Organization>, servers: seq<Server>, searchText: string)
    requires Count(searchText, '.') <= 1
    ensures var items := AdapterItems(organizations, servers, searchText);
      var listed := InstituteAccessServers(servers, searchText);
      var secure := SecureInternetItems(organizations, servers, searchText);
      var offset := if |listed| > 0 then |listed| + 1 else 0;
      && |items| == offset + (if |secure| > 0 then |secure| + 1 else 0)
      && (|listed| > 0 ==> items[0] == Header(InstituteAccessHeader) && items[1..offset] == InstituteAccessItems(listed))
      && (|secure| > 0 ==> items[offset] == Header(SecureInternetHeader) && items[offset + 1..] == secure)
  {
    var first := InstituteAccessSection(servers, searchText);
    var second := SecureInternetSection(organizations, servers, searchText);
    var items := AdapterItems(organizations, servers, searchText);
    AdapterItemsSections(organizations, servers, searchText);
    assert items[..|first|] == first;
    assert items[|first|..] == second;
  }

  lemma AdapterItemsSections(organizations: seq<Organization>, servers: seq<Server>, searchText: string)
    requires Count(searchText, '.') <= 1
    ensures AdapterItems(organizations, servers, searchText) ==
      InstituteAccessSection(servers, searchText) + SecureInternetSection(organizations, servers, searchText)
  {
  }

  /** `noItemsFound`: the list is empty and the screen is ready. */
  function NoItemsFound(state: ConnectionState, items: seq<AdapterItem>): bool {
    |items| == 0 && state == Ready
  }

  /**
   * Nothing is found exactly when the screen is ready, the search text has at
   * most one dot, no server matches, and no matching organization has a
   * home server.
   */
  lemma NoItemsFoundSpec(state: ConnectionState, organizations: seq<Organization>, servers: seq<Server>, searchText: string)
    ensures NoItemsFound(state, AdapterItems(organizations, servers, searchText)) <==>
      && state == Ready
      && Count(searchText, '.') <= 1
      && (forall s :: s in servers ==> !ServerMatches(s, searchText))
      && (forall o :: o in organizations && OrganizationMatches(o, searchText) ==>
            FirstDistributed(servers, o.secureInternetHome).None?)
  {
    if Count(searchText, '.') <= 1 {
      SectionsSpec(organizations, servers, searchText);
      var items := AdapterItems(organizations, servers, searchText);
      if |items| > 0 {
        assert items[0] == Header(InstituteAccessHeader) || items[0] == Header(SecureInternetHeader);
        assert items[0] in items;
      }
    }
  }
}
