/**
 * The connection-status adapter over the OpenVPN engine: it folds the
 * engine's fine-grained connection levels into the app's five-value status,
 * keeps the statistics of the current connection, and hands them to the one
 * attached connection-info listener.
 */
module VpnService {
  import opened Wrappers
  import opened Longs
  import opened VpnAddresses

  /** The engine's connection levels (`ConnectionStatus`). */
  datatype Level =
    | LevelStart
    | LevelConnectingNoServerReplyYet
    | LevelConnectingServerReplied
    | LevelConnected
    | LevelVpnPaused
    | LevelAuthFailed
    | LevelNoNetwork
    | LevelNotConnected
    | LevelWaitingForUserInput
    | UnknownLevel

  /** The app's coarse status (`VPNService.VPNStatus`). */
  datatype VpnStatus = Disconnected | Connecting | Connected | Paused | Failed

  /** `getStatus`: every level has a status, so the switch's default branch cannot be reached. */
  function StatusOf(level: Level): VpnStatus {
    match level
    case LevelConnectingNoServerReplyYet | LevelConnectingServerReplied | LevelStart => Connecting
    case LevelConnected => Connected
    case LevelVpnPaused => Paused
    case LevelAuthFailed => Failed
    case LevelNoNetwork | LevelNotConnected | LevelWaitingForUserInput | UnknownLevel => Disconnected
  }

  /** Which levels map to each status. */
  lemma StatusPreimages(level: Level)
    ensures StatusOf(level) == Connecting <==>
      level == LevelStart || level == LevelConnectingNoServerReplyYet || level == LevelConnectingServerReplied
    ensures StatusOf(level) == Connected <==> level == LevelConnected
    ensures StatusOf(level) == Paused <==> level == LevelVpnPaused
    ensures StatusOf(level) == Failed <==> level == LevelAuthFailed
    ensures StatusOf(level) == Disconnected <==>
      level == LevelNoNetwork || level == LevelNotConnected || level == LevelWaitingForUserInput || level == UnknownLevel
  {
  }

  /** What the periodic update hands the listener: seconds connected, bytes in, bytes out. */
  datatype ConnectionInfo = ConnectionInfo(secondsElapsed: Option<int>, bytesIn: Option<int>, bytesOut: Option<int>)

  /** How asking the engine to stop went: it stopped, the remote call failed, or no engine is bound. */
  datatype EngineStop = Stopped | RemoteFailure | NotBound

  /** The key pair saved for an instance, as `importConfig` inlines it. */
  datatype KeyPair = KeyPair(certificate: string, privateKey: string)

  /** A connection entry of an engine profile. */
  datatype Connection = Connection(useUdp: bool, enabled: bool)

  /** `EduOpenVPNService`: the statistics fields and the attached listener. */
  class EduOpenVpnService {
    var connectionStatus: Level
    var connectionTime: Option<int>
    var bytesIn: Option<int>
    var bytesOut: Option<int>
    var serverIpV4: Option<string>
    var serverIpV6: Option<string>
    var errorResource: Option<int>
    /** Whether `_connectionInfoCallback` is set. */
    var callbackAttached: bool

    /** A new adapter is not connected, has no statistics and no listener. */
    constructor()
      ensures connectionStatus == LevelNotConnected
      ensures StatisticsCleared()
      ensures !callbackAttached
    {
      connectionStatus := LevelNotConnected;
      connectionTime, bytesIn, bytesOut := None, None, None;
      serverIpV4, serverIpV6, errorResource := None, None, None;
      callbackAttached := false;
    }

    /** `getStatus`. */
    function Status(): VpnStatus
      reads this
    {
      StatusOf(connectionStatus)
    }

    /** All six statistics are null. */
    predicate StatisticsCleared()
      reads this
    {
      && connectionTime.None? && bytesIn.None? && bytesOut.None?
      && serverIpV4.None? && serverIpV6.None? && errorResource.None?
    }

    /** `_onDisconnect`: resets all statistics and nothing else. */
    method OnDisconnect()
      modifies this
      ensures StatisticsCleared()
      ensures connectionStatus == old(connectionStatus) && callbackAttached == old(callbackAttached)
    {
      connectionTime, bytesIn, bytesOut := None, None, None;
      serverIpV4, serverIpV6, errorResource := None, None, None;
    }

    /**
     * `disconnect`: the statistics are reset whether the engine stopped or the
     * remote call failed; with no engine bound the call throws before the reset.
     */
    method Disconnect(stop: EngineStop) returns (completed: bool)
      modifies this
      ensures completed <==> stop != NotBound
      ensures completed ==> StatisticsCleared()
      ensures !completed ==> unchanged(this)
      ensures connectionStatus == old(connectionStatus) && callbackAttached == old(callbackAttached)
    {
      if stop == NotBound {
        return false;
      }
      OnDisconnect();
      return true;
    }

    /**
     * `updateState`, given the time and the result of the interface lookup.
     * A level equal to the stored one changes nothing and notifies nobody.
     * Otherwise the new level is stored and its status posted; connecting
     * stamps the time and takes the addresses from the lookup, else from the
     * log line, else keeps them (and offers them to the listener, if any);
     * failing records the error; disconnecting resets the statistics.
     */
    method UpdateState(logMessage: Option<string>, localizedResId: int, level: Level, now: int, lookup: Option<IpPair>)
      returns (posted: Option<VpnStatus>, metadata: Option<IpPair>)
      modifies this
      ensures level == old(connectionStatus) ==> unchanged(this) && posted.None? && metadata.None?
      ensures level != old(connectionStatus) ==>
        && connectionStatus == level
        && posted == Some(StatusOf(level))
        && callbackAttached == old(callbackAttached)
      ensures level != old(connectionStatus) && StatusOf(level) == Connected ==>
        && connectionTime == Some(now)
        && (lookup.Some? ==> serverIpV4 == lookup.value.ipV4 && serverIpV6 == lookup.value.ipV6)
        && (lookup.None? && ParseLogMessage(logMessage).Some? ==>
              serverIpV4 == ParseLogMessage(logMessage).value.ipV4
              && serverIpV6 == ParseLogMessage(logMessage).value.ipV6)
        && (lookup.None? && ParseLogMessage(logMessage).None? ==>
              serverIpV4 == old(serverIpV4) && serverIpV6 == old(serverIpV6))
        && bytesIn == old(bytesIn) && bytesOut == old(bytesOut) && errorResource == old(errorResource)
        && metadata == (if callbackAttached then Some(IpPair(serverIpV4, serverIpV6)) else None)
      ensures level != old(connectionStatus) && StatusOf(level) == Failed ==>
        && errorResource == Some(localizedResId)
        && connectionTime == old(connectionTime) && bytesIn == old(bytesIn) && bytesOut == old(bytesOut)
        && serverIpV4 == old(serverIpV4) && serverIpV6 == old(serverIpV6)
        && metadata.None?
      ensures level != old(connectionStatus) && StatusOf(level) == Disconnected ==>
        StatisticsCleared() && metadata.None?
      ensures level != old(connectionStatus) && (StatusOf(level) == Connecting || StatusOf(level) == Paused) ==>
        && connectionTime == old(connectionTime) && bytesIn == old(bytesIn) && bytesOut == old(bytesOut)
        && serverIpV4 == old(serverIpV4) && serverIpV6 == old(serverIpV6)
        && errorResource == old(errorResource)
        && metadata.None?
    {
      var oldStatus := connectionStatus;
      connectionStatus := level;
      if connectionStatus == oldStatus {
        return None, None;
      }
      metadata := None;
      if Status() == Connected {
        connectionTime := Some(now);
        var ips := lookup;
        if ips.Some? {
          serverIpV4, serverIpV6 := ips.value.ipV4, ips.value.ipV6;
        } else {
          ips := ParseLogMessage(logMessage);
          if ips.Some? {
            serverIpV4, serverIpV6 := ips.value.ipV4, ips.value.ipV6;
          }
        }
        if callbackAttached {
          metadata := Some(IpPair(serverIpV4, serverIpV6));
        }
      } else if Status() == Failed {
        errorResource := Some(localizedResId);
      } else if Status() == Disconnected {
        OnDisconnect();
      }
      posted := Some(Status());
    }

    /**
     * `attachConnectionInfoListener`: the listener is stored and gets the
     * addresses at once only when both are known; it returns whether the
     * byte-count listener is registered (only while connected).
     */
    method Attach() returns (metadata: Option<IpPair>, countsBytes: bool)
      modifies this
      ensures callbackAttached
      ensures metadata.Some? <==> serverIpV4.Some? && serverIpV6.Some?
      ensures metadata.Some? ==> metadata.value == IpPair(serverIpV4, serverIpV6)
      ensures countsBytes <==> Status() == Connected
      ensures connectionStatus == old(connectionStatus) && connectionTime == old(connectionTime)
      ensures bytesIn == old(bytesIn) && bytesOut == old(bytesOut) && errorResource == old(errorResource)
      ensures serverIpV4 == old(serverIpV4) && serverIpV6 == old(serverIpV6)
    {
      callbackAttached := true;
      metadata := None;
      if serverIpV4.Some? && serverIpV6.Some? {
        metadata := Some(IpPair(serverIpV4, serverIpV6));
      }
      countsBytes := Status() == Connected;
    }

    /**
     * One run of the periodic update posted by `attachConnectionInfoListener`:
     * with a listener attached it reports the whole seconds since the
     * connection time (Long division, truncated toward zero) and the byte
     * counts; without one it reports nothing and stops.
     */
    function Tick(now: int): (info: Option<ConnectionInfo>)
      reads this
      ensures info.None? <==> !callbackAttached
      ensures info.Some? ==> info.value.bytesIn == bytesIn && info.value.bytesOut == bytesOut
      ensures info.Some? ==> (info.value.secondsElapsed.None? <==> connectionTime.None?)
      ensures info.Some? && connectionTime.Some? && connectionTime.value <= now ==>
        var s := info.value.secondsElapsed.value;
        s >= 0 && s * 1000 <= now - connectionTime.value < s * 1000 + 1000
    {
      if !callbackAttached then None
      else
        var secondsElapsed := if connectionTime.Some? then Some(MillisToSeconds(now - connectionTime.value)) else None;
        Some(ConnectionInfo(secondsElapsed, bytesIn, bytesOut))
    }

    /** `detachConnectionInfoListener`: from now on every tick reports nothing. */
    method Detach()
      modifies this
      ensures !callbackAttached
      ensures forall now :: Tick(now).None?
      ensures connectionStatus == old(connectionStatus) && connectionTime == old(connectionTime)
      ensures bytesIn == old(bytesIn) && bytesOut == old(bytesOut) && errorResource == old(errorResource)
      ensures serverIpV4 == old(serverIpV4) && serverIpV6 == old(serverIpV6)
    {
      callbackAttached := false;
    }

    /** The byte-count listener: the engine's running totals replace the stored ones. */
    method UpdateByteCount(totalIn: int, totalOut: int)
      modifies this
      ensures bytesIn == Some(totalIn) && bytesOut == Some(totalOut)
      ensures connectionStatus == old(connectionStatus) && connectionTime == old(connectionTime)
      ensures serverIpV4 == old(serverIpV4) && serverIpV6 == old(serverIpV6)
      ensures errorResource == old(errorResource) && callbackAttached == old(callbackAttached)
    {
      bytesIn, bytesOut := Some(totalIn), Some(totalOut);
    }
  }

  /**
   * The start of `importConfig`: with a saved key pair, the certificate and
   * the private key are appended to the configuration in `<cert>` and `<key>`
   * blocks; without one the configuration is used as given.
   */
  function AugmentConfig(config: string, keyPair: Option<KeyPair>): (r: string)
    ensures keyPair.None? ==> r == config
    ensures config <= r
    ensures keyPair.Some? ==>
      var cert := keyPair.value.certificate;
      var key := keyPair.value.privateKey;
      && |r| == |config| + |cert| + |key| + 32
      && r[|config|..|config| + 8] == "\n<cert>\n"
      && r[|config| + 8..|config| + 8 + |cert|] == cert
      && r[|config| + 8 + |cert|..|r| - 8 - |key|] == "\n</cert>\n\n<key>\n"
      && r[|r| - 8 - |key|..|r| - 8] == key
      && r[|r| - 8..] == "\n</key>\n"
  {
    if keyPair.None? then config
    else
      config + "\n<cert>\n" + keyPair.value.certificate + "\n</cert>\n"
        + "\n<key>\n" + keyPair.value.privateKey + "\n</key>\n"
  }

  /**
   * The connection loop of `connect`: with "force TCP" every UDP connection
   * is disabled, without it every UDP connection is enabled; TCP connections
   * are left alone.
   */
  method ApplyForceTcp(connections: array<Connection>, forceTcp: bool)
    modifies connections
    ensures forall i :: 0 <= i < connections.Length ==>
      connections[i] == (if old(connections[i]).useUdp then Connection(true, !forceTcp) else old(connections[i]))
    ensures forceTcp ==> forall i :: 0 <= i < connections.Length ==> !(connections[i].useUdp && connections[i].enabled)
  {
    var i := 0;
    while i < connections.Length
      invariant 0 <= i <= connections.Length
      invariant forall j :: 0 <= j < i ==>
        connections[j] == (if old(connections[j]).useUdp then Connection(true, !forceTcp) else old(connections[j]))
      invariant forall j :: i <= j < connections.Length ==> connections[j] == old(connections[j])
    {
      if connections[i].useUdp {
        connections[i] := connections[i].(enabled := !forceTcp);
      }
      i := i + 1;
    }
  }
}
