/**
 * How the connection-status adapter learns the client's VPN addresses: from
 * the addresses of the `tun0` network interface, or failing that from the
 * comma-separated state line the VPN engine logs on connecting.
 */
module VpnAddresses {
  import opened Wrappers
  import opened Strings

  /** The client's IPv4 and IPv6 address, each possibly unknown. */
  datatype IpPair = IpPair(ipV4: Option<string>, ipV6: Option<string>)

  /** An empty field stands for an absent address. */
  function NonEmpty(field: string): Option<string> {
    if field == "" then None else Some(field)
  }

  // ---------------------------------------------------------------- Log line

  /**
   * `_parseVpnIpAddressesFromLogMessage` as written: split on `,` with Java's
   * `split`, which drops trailing empty fields; seven fields are required,
   * the IPv4 is field 1 and the IPv6 field 6.
   */
  function ParseLogMessageAsWritten(logMessage: Option<string>): Option<IpPair> {
    if logMessage.None? || |logMessage.value| == 0 then None
    else
      var splits := JavaSplit(logMessage.value, ',');
      if |splits| == 7 then Some(IpPair(NonEmpty(splits[1]), NonEmpty(splits[6]))) else None
  }

  /**
   * The log-line parser with every field kept, so that an empty IPv6 field
   * gives an absent IPv6 instead of no result at all.
   */
  function ParseLogMessage(logMessage: Option<string>): Option<IpPair> {
    if logMessage.None? || |logMessage.value| == 0 then None
    else
      var splits := SplitAll(logMessage.value, ',');
      if |splits| == 7 then Some(IpPair(NonEmpty(splits[1]), NonEmpty(splits[6]))) else None
  }

  /** A line yields addresses iff it is non-empty and holds exactly six commas. */
  lemma ParseLogMessageShape(logMessage: Option<string>)
    ensures ParseLogMessage(logMessage).Some? <==>
      logMessage.Some? && |logMessage.value| > 0 && Count(logMessage.value, ',') == 6
  {
    if logMessage.Some? {
      SplitAllShape(logMessage.value, ',');
    }
  }

  /** The line the engine writes from seven comma-free fields gives back fields 1 and 6. */
  lemma ParseLogMessageFields(fields: seq<string>)
    requires |fields| == 7
    requires forall f :: f in fields ==> ',' !in f
    ensures ParseLogMessage(Some(Join(fields, ","))) == Some(IpPair(NonEmpty(fields[1]), NonEmpty(fields[6])))
  {
    SplitJoin(fields, ',');
    JoinHoldsSeparator(fields, ',');
  }

  /** Joining two or more fields puts a separator right after the first one. */
  lemma JoinHoldsSeparator(fields: seq<string>, sep: char)
    requires |fields| >= 2
    ensures sep in Join(fields, [sep])
  {
    var joined := Join(fields, [sep]);
    assert joined == fields[0] + [sep] + Join(fields[1..], [sep]);
    assert joined[|fields[0]|] == sep;
  }

  /**
   * The parser as written loses a line whose IPv6 field is empty: Java's
   * `split` drops that trailing field, six parts remain and the line is
   * rejected, while the corrected parser reports the IPv4 with an absent IPv6.
   */
  lemma AsWrittenDropsEmptyIpV6(fields: seq<string>)
    requires |fields| == 7
    requires forall f :: f in fields ==> ',' !in f
    requires fields[6] == ""
    ensures ParseLogMessageAsWritten(Some(Join(fields, ","))) == None
    ensures ParseLogMessage(Some(Join(fields, ","))) == Some(IpPair(NonEmpty(fields[1]), None))
  {
    ParseLogMessageFields(fields);
    JoinHoldsSeparator(fields, ',');
    var kept := DropTrailingEmpty(fields);
    assert |kept| < 7;
  }

  /** When the IPv6 field is filled in, both parsers agree. */
  lemma AsWrittenAgreesWithIpV6(fields: seq<string>)
    requires |fields| == 7
    requires forall f :: f in fields ==> ',' !in f
    requires fields[6] != ""
    ensures ParseLogMessageAsWritten(Some(Join(fields, ","))) == ParseLogMessage(Some(Join(fields, ",")))
  {
    ParseLogMessageFields(fields);
    JoinHoldsSeparator(fields, ',');
    assert DropTrailingEmpty(fields) == fields;
  }

  /**
   * The other side of the same split: a line with empty fields after the
   * seventh is taken by the code as written, and refused by the corrected
   * parser, which counts those fields.
   */
  lemma AsWrittenAcceptsTrailingEmpty(fields: seq<string>)
    requires |fields| == 7
    requires forall f :: f in fields ==> ',' !in f
    requires fields[6] != ""
    ensures ParseLogMessageAsWritten(Some(Join(fields + [""], ","))) == Some(IpPair(NonEmpty(fields[1]), Some(fields[6])))
    ensures ParseLogMessage(Some(Join(fields + [""], ","))) == None
  {
    var extended := fields + [""];
    assert forall f :: f in extended ==> ',' !in f;
    SplitJoin(extended, ',');
    JoinHoldsSeparator(extended, ',');
    assert extended[..|extended| - 1] == fields;
    assert DropTrailingEmpty(extended) == fields;
  }

  // ---------------------------------------------------------------- Interface lookup

  /** `ip.indexOf(':') < 0`: an address without a colon is IPv4. */
  predicate IsIpV4(ip: string) {
    IndexOf(ip, ':') < 0
  }

  /** An IPv6 address without its `%zone` suffix, lower-cased. */
  function NormalizeIpV6(ip: string): (r: string)
    ensures '%' !in r
    ensures forall i :: 0 <= i < |r| ==> !('A' <= r[i] <= 'Z')
    ensures '%' !in ip ==> r == Lower(ip)
    ensures '%' in ip ==> |r| < |ip|
    ensures '%' in ip ==>
      exists k :: 0 <= k < |ip| && ip[k] == '%' && '%' !in ip[..k] && r == Lower(ip[..k])
  {
    var delimiter := IndexOf(ip, '%');
    var r := if delimiter < 0 then Lower(ip) else Lower(ip[..delimiter]);
    assert forall i :: 0 <= i < |r| ==> r[i] != '%';
    assert delimiter >= 0 ==> ip[delimiter] == '%' && '%' !in ip[..delimiter];
    r
  }

  /** The last address of the given family in the list, if any: later addresses overwrite earlier ones. */
  function LastOfFamily(addresses: seq<string>, ipV4: bool): Option<string> {
    if |addresses| == 0 then None
    else if IsIpV4(addresses[|addresses| - 1]) == ipV4 then Some(addresses[|addresses| - 1])
    else LastOfFamily(addresses[..|addresses| - 1], ipV4)
  }

  /** The last IPv4 address, as the lookup stores it. */
  function LastIpV4(addresses: seq<string>): Option<string> {
    LastOfFamily(addresses, true)
  }

  /** The last IPv6 address, normalized as the lookup stores it. */
  function LastIpV6(addresses: seq<string>): Option<string> {
    match LastOfFamily(addresses, false)
    case None => None
    case Some(ip) => Some(NormalizeIpV6(ip))
  }

  /** An address of the family is found iff the list holds one, and then it is the last of them. */
  lemma LastOfFamilySpec(addresses: seq<string>, ipV4: bool)
    ensures LastOfFamily(addresses, ipV4).None? <==>
      forall i :: 0 <= i < |addresses| ==> IsIpV4(addresses[i]) != ipV4
    ensures LastOfFamily(addresses, ipV4).Some? ==>
      exists i :: 0 <= i < |addresses| && addresses[i] == LastOfFamily(addresses, ipV4).value
        && IsIpV4(addresses[i]) == ipV4
        && forall j :: i < j < |addresses| ==> IsIpV4(addresses[j]) != ipV4
  {
    LastOfFamilyNone(addresses, ipV4);
    if LastOfFamily(addresses, ipV4).Some? {
      var i := LastOfFamilyIndex(addresses, ipV4);
    }
  }

  lemma {:induction false} LastOfFamilyNone(addresses: seq<string>, ipV4: bool)
    ensures LastOfFamily(addresses, ipV4).None? <==>
      forall i :: 0 <= i < |addresses| ==> IsIpV4(addresses[i]) != ipV4
  {
    if |addresses| > 0 {
      var n := |addresses| - 1;
      var init := addresses[..n];
      LastOfFamilyNone(init, ipV4);
      assert forall i :: 0 <= i < n ==> init[i] == addresses[i];
    }
  }

  /** The position of the address `LastOfFamily` finds. */
  lemma {:induction false} LastOfFamilyIndex(addresses: seq<string>, ipV4: bool) returns (i: nat)
    requires LastOfFamily(addresses, ipV4).Some?
    ensures i < |addresses| && addresses[i] == LastOfFamily(addresses, ipV4).value
    ensures IsIpV4(addresses[i]) == ipV4
    ensures forall j :: i < j < |addresses| ==> IsIpV4(addresses[j]) != ipV4
  {
    var n := |addresses| - 1;
    if IsIpV4(addresses[n]) == ipV4 {
      i := n;
    } else {
      var init := addresses[..n];
      assert LastOfFamily(addresses, ipV4) == LastOfFamily(init, ipV4);
      i := LastOfFamilyIndex(init, ipV4);
      assert addresses[i] == init[i];
      forall j | i < j < |addresses| ensures IsIpV4(addresses[j]) != ipV4 {
        if j < n {
          assert addresses[j] == init[j];
        }
      }
    }
  }

  /** The address loop of `_lookupVpnIpAddresses`: each address overwrites the slot of its family. */
  method ClassifyAddresses(addresses: seq<string>) returns (ipV4: Option<string>, ipV6: Option<string>)
    ensures ipV4 == LastIpV4(addresses)
    ensures ipV6 == LastIpV6(addresses)
  {
    ipV4, ipV6 := None, None;
    var i := 0;
    while i < |addresses|
      invariant 0 <= i <= |addresses|
      invariant ipV4 == LastIpV4(addresses[..i])
      invariant ipV6 == LastIpV6(addresses[..i])
    {
      var ip := addresses[i];
      assert addresses[..i + 1][..i] == addresses[..i];
      if IndexOf(ip, ':') < 0 {
        ipV4 := Some(ip);
      } else {
        var delimiter := IndexOf(ip, '%');
        ipV6 := if delimiter < 0 then Some(Lower(ip)) else Some(Lower(ip[..delimiter]));
      }
      i := i + 1;
    }
    assert addresses[..i] == addresses;
  }

  /** A network interface: its name and the host form of each of its addresses. */
  datatype NetInterface = NetInterface(name: string, addresses: seq<string>)

  /** `VPN_INTERFACE_NAME`. */
  const VpnInterfaceName: string := "tun0"

  /** The first interface with the given name, if any. */
  function FirstNamed(interfaces: seq<NetInterface>, name: string): Option<NetInterface> {
    if |interfaces| == 0 then None
    else if interfaces[0].name == name then Some(interfaces[0])
    else FirstNamed(interfaces[1..], name)
  }

  /** `FirstNamed` finds an interface iff one has the name, and then the first of them. */
  lemma {:induction false} FirstNamedSpec(interfaces: seq<NetInterface>, name: string)
    ensures FirstNamed(interfaces, name).None? <==> forall i :: 0 <= i < |interfaces| ==> interfaces[i].name != name
    ensures FirstNamed(interfaces, name).Some? ==>
      exists i :: 0 <= i < |interfaces| && interfaces[i] == FirstNamed(interfaces, name).value
        && interfaces[i].name == name && forall j :: 0 <= j < i ==> interfaces[j].name != name
  {
    if |interfaces| > 0 && interfaces[0].name != name {
      var rest := interfaces[1..];
      FirstNamedSpec(rest, name);
      assert forall i :: 1 <= i < |interfaces| ==> interfaces[i] == rest[i - 1];
      var r := FirstNamed(rest, name);
      if r.Some? {
        var i :| 0 <= i < |rest| && rest[i] == r.value && rest[i].name == name
          && forall j :: 0 <= j < i ==> rest[j].name != name;
        assert interfaces[i + 1] == r.value;
        assert forall j :: 0 <= j < i + 1 ==> interfaces[j].name != name;
      }
    }
  }

  /**
   * What `_lookupVpnIpAddresses` returns, given the interface enumeration
   * (`None` when it failed): the addresses of the first `tun0` interface,
   * or nothing when that interface has neither kind of address.
   */
  function VpnIpAddresses(interfaces: Option<seq<NetInterface>>): Option<IpPair> {
    if interfaces.None? then None
    else
      match FirstNamed(interfaces.value, VpnInterfaceName)
      case None => None
      case Some(tun) =>
        var ipV4 := LastIpV4(tun.addresses);
        var ipV6 := LastIpV6(tun.addresses);
        if ipV4.Some? || ipV6.Some? then Some(IpPair(ipV4, ipV6)) else None
  }

  /** `_lookupVpnIpAddresses`: the interfaces are searched in order and the first `tun0` decides. */
  method LookupVpnIpAddresses(interfaces: Option<seq<NetInterface>>) returns (r: Option<IpPair>)
    ensures r == VpnIpAddresses(interfaces)
    ensures r.Some? ==> r.value.ipV4.Some? || r.value.ipV6.Some?
  {
    if interfaces.None? {
      return None;
    }
    var all := interfaces.value;
    FirstNamedSpec(all, VpnInterfaceName);
    var k := 0;
    while k < |all|
      invariant 0 <= k <= |all|
      invariant forall j :: 0 <= j < k ==> all[j].name != VpnInterfaceName
    {
      if all[k].name == VpnInterfaceName {
        var ipV4, ipV6 := ClassifyAddresses(all[k].addresses);
        if ipV4.Some? || ipV6.Some? {
          return Some(IpPair(ipV4, ipV6));
        } else {
          return None;
        }
      }
      k := k + 1;
    }
    return None;
  }

  /** The lookup reports the last IPv4 and the last normalized IPv6 address of the first `tun0`, and nothing without one. */
  lemma VpnIpAddressesSpec(interfaces: seq<NetInterface>)
    ensures (forall i :: 0 <= i < |interfaces| ==> interfaces[i].name != VpnInterfaceName) ==>
      VpnIpAddresses(Some(interfaces)).None?
    ensures VpnIpAddresses(Some(interfaces)).Some? ==>
      exists i :: 0 <= i < |interfaces| && interfaces[i].name == VpnInterfaceName
        && (forall j :: 0 <= j < i ==> interfaces[j].name != VpnInterfaceName)
        && VpnIpAddresses(Some(interfaces)).value == IpPair(LastIpV4(interfaces[i].addresses), LastIpV6(interfaces[i].addresses))
  {
    FirstNamedSpec(interfaces, VpnInterfaceName);
  }

  /** The first `tun0` decides: its addresses are reported exactly when it has one of either kind. */
  lemma VpnIpAddressesFirst(interfaces: seq<NetInterface>, i: nat)
    requires i < |interfaces| && interfaces[i].name == VpnInterfaceName
    requires forall j :: 0 <= j < i ==> interfaces[j].name != VpnInterfaceName
    ensures var ipV4 := LastIpV4(interfaces[i].addresses);
      var ipV6 := LastIpV6(interfaces[i].addresses);
      VpnIpAddresses(Some(interfaces)) == (if ipV4.Some? || ipV6.Some? then Some(IpPair(ipV4, ipV6)) else None)
  {
    FirstNamedSpec(interfaces, VpnInterfaceName);
    var k :| 0 <= k < |interfaces| && interfaces[k] == FirstNamed(interfaces, VpnInterfaceName).value
      && interfaces[k].name == VpnInterfaceName
      && forall j :: 0 <= j < k ==> interfaces[j].name != VpnInterfaceName;
    assert !(k < i) && !(i < k);
  }
}
