/**
 What the registry holds, stated independently of the order of the `map.put` calls:
 a reference table by protocol family and option, and the facts that follow from it.
 */
module RegistryProperties {
  import opened Wrappers
  import opened PlatformConstants
  import opened RegistryKeys
  import opened SocketOptionRegistry

  /** The options registered at the socket level under `Net.UNSPEC`. */
  predicate IsSocketLevel(name: SocketOption)
  {
    name in {SoBroadcast, SoKeepAlive, SoLinger, SoSndBuf, SoRcvBuf, SoReuseAddr, SoReusePort, SoOobInline}
  }

  /** The four IP-layer options, registered per address family. */
  predicate IsIpLevel(name: SocketOption)
  {
    name in {IpTos, IpMulticastIf, IpMulticastTtl, IpMulticastLoop}
  }

  /** The platform's code for a socket-level option. */
  function SocketLevelCode(p: Platform, name: SocketOption): int
    requires IsSocketLevel(name)
  {
    match name
    case SoBroadcast => p.soBroadcast
    case SoKeepAlive => p.soKeepAlive
    case SoLinger => p.soLinger
    case SoSndBuf => p.soSndBuf
    case SoRcvBuf => p.soRcvBuf
    case SoReuseAddr => p.soReuseAddr
    case SoReusePort => ResolveReusePort(p)
    case SoOobInline => p.soOobInline
  }

  /** The platform's IPv4 code for an IP-layer option. */
  function InetCode(p: Platform, name: SocketOption): int
    requires IsIpLevel(name)
  {
    match name
    case IpTos => p.ipTos
    case IpMulticastIf => p.ipMulticastIf
    case IpMulticastTtl => p.ipMulticastTtl
    case IpMulticastLoop => p.ipMulticastLoop
  }

  /** The platform's IPv6 code for an IP-layer option: traffic class, interface, hop limit, loopback. */
  function Inet6Code(p: Platform, name: SocketOption): int
    requires IsIpLevel(name)
  {
    match name
    case IpTos => p.ipv6TClass
    case IpMulticastIf => p.ipv6MulticastIf
    case IpMulticastTtl => p.ipv6MulticastHops
    case IpMulticastLoop => p.ipv6MulticastLoop
  }

  /** The reference table: what `findOption(name, family)` should answer on the target. */
  function Expected(p: Platform, name: SocketOption, family: ProtocolFamily): Option<OptionKey>
  {
    match family
    case Unspec =>
      if IsSocketLevel(name) then Some(OptionKey(p.solSocket, SocketLevelCode(p, name)))
      else if name == TcpNoDelay then Some(OptionKey(IPPROTO_TCP, p.tcpNoDelay))
      else None
    case Inet =>
      if IsIpLevel(name) then Some(OptionKey(IPPROTO_IP, InetCode(p, name))) else None
    case Inet6 =>
      if IsIpLevel(name) && p.hasIPv6 then Some(OptionKey(IPPROTO_IPV6, Inet6Code(p, name))) else None
  }

  /** Every put agrees with the reference table. */
  lemma PutsAgreeWithTable(p: Platform)
    ensures forall i | 0 <= i < |Puts(p)| ::
      Expected(p, Puts(p)[i].key.name, Puts(p)[i].key.family) == Some(Puts(p)[i].value)
  {
  }

  /** Every (option, family) pair the reference table answers is put by the generator. */
  lemma TableKeysArePut(p: Platform, name: SocketOption, family: ProtocolFamily)
    requires Expected(p, name, family).Some?
    ensures RegistryKey(name, family) in KeysOf(Puts(p))
  {
    var puts := Puts(p);
    // the position of the put for each registered pair; OOBINLINE comes last
    var last := |puts| - 1;
    var i: int :=
      match family
      case Unspec =>
        (match name
         case SoBroadcast => 0
         case SoKeepAlive => 1
         case SoLinger => 2
         case SoSndBuf => 3
         case SoRcvBuf => 4
         case SoReuseAddr => 5
         case SoReusePort => 6
         case TcpNoDelay => 7
         case _ => last)
      case Inet =>
        (match name
         case IpTos => 8
         case IpMulticastIf => 9
         case IpMulticastTtl => 10
         case _ => 11)
      case Inet6 =>
        (match name
         case IpTos => 12
         case IpMulticastIf => 13
         case IpMulticastTtl => 14
         case _ => 15);
    assert puts[i].key == RegistryKey(name, family);
  }

  /** `findOption` on the built registry answers exactly the reference table: the inserted
      value for every registered pair, and not-found for every other. */
  lemma FindOptionMatchesTable(p: Platform, name: SocketOption, family: ProtocolFamily)
    ensures FindOption(BuildRegistry(p), name, family) == Expected(p, name, family)
  {
    var puts := Puts(p);
    var key := RegistryKey(name, family);
    PutsHaveDistinctKeys(p);
    PutsAgreeWithTable(p);
    PutAllEffect(map[], puts);
    if Expected(p, name, family).Some? {
      TableKeysArePut(p, name, family);
    }
    if key in KeysOf(puts) {
      var i :| 0 <= i < |puts| && puts[i].key == key;
    }
  }

  /** When the generated code performs a put, its key is not in the map yet: no
      `HashMap.put` replaces an earlier value. */
  lemma NoPutOverwrites(p: Platform, i: int)
    requires 0 <= i < |Puts(p)|
    ensures Puts(p)[i].key !in PutAll(map[], Puts(p)[..i])
  {
    var puts := Puts(p);
    PutsHaveDistinctKeys(p);
    DistinctKeysIffPairwise(puts);
    PutAllEffect(map[], puts[..i]);
    forall k | k in KeysOf(puts[..i]) ensures k != puts[i].key {
      var j :| 0 <= j < i && puts[..i][j].key == k;
      assert puts[..i][j] == puts[j];
    }
  }

  /** Every socket-level option is registered under `Net.UNSPEC` at level `SOL_SOCKET`
      with exactly the platform's code for it, and under no address family. */
  lemma SocketLevelEntries(p: Platform, name: SocketOption)
    requires IsSocketLevel(name)
    ensures FindOption(BuildRegistry(p), name, Unspec) == Some(OptionKey(p.solSocket, SocketLevelCode(p, name)))
    ensures FindOption(BuildRegistry(p), name, Inet) == None
    ensures FindOption(BuildRegistry(p), name, Inet6) == None
  {
    FindOptionMatchesTable(p, name, Unspec);
    FindOptionMatchesTable(p, name, Inet);
    FindOptionMatchesTable(p, name, Inet6);
  }

  /** `TCP_NODELAY` is registered only under `Net.UNSPEC`, at level 6 with the platform code. */
  lemma TcpNoDelayEntry(p: Platform)
    ensures FindOption(BuildRegistry(p), TcpNoDelay, Unspec) == Some(OptionKey(6, p.tcpNoDelay))
    ensures FindOption(BuildRegistry(p), TcpNoDelay, Inet) == None
    ensures FindOption(BuildRegistry(p), TcpNoDelay, Inet6) == None
  {
    FindOptionMatchesTable(p, TcpNoDelay, Unspec);
    FindOptionMatchesTable(p, TcpNoDelay, Inet);
    FindOptionMatchesTable(p, TcpNoDelay, Inet6);
  }

  /** The IP-layer options are registered under `INET` at level 0 with the IPv4 codes, and
      not under `Net.UNSPEC`. */
  lemma InetEntries(p: Platform, name: SocketOption)
    requires IsIpLevel(name)
    ensures FindOption(BuildRegistry(p), name, Inet) == Some(OptionKey(0, InetCode(p, name)))
    ensures FindOption(BuildRegistry(p), name, Unspec) == None
  {
    FindOptionMatchesTable(p, name, Inet);
    FindOptionMatchesTable(p, name, Unspec);
  }

  /** With IPv6 the IP-layer options are also registered under `INET6` at level 41 with the
      IPv6 codes; without it they are not found under `INET6`. */
  lemma Inet6Entries(p: Platform, name: SocketOption)
    requires IsIpLevel(name)
    ensures p.hasIPv6 ==> FindOption(BuildRegistry(p), name, Inet6) == Some(OptionKey(41, Inet6Code(p, name)))
    ensures !p.hasIPv6 ==> FindOption(BuildRegistry(p), name, Inet6) == None
  {
    FindOptionMatchesTable(p, name, Inet6);
  }

  /** The registry holds an `INET6` key if and only if the target has IPv6. */
  lemma Inet6PresentIffIPv6(p: Platform)
    ensures (exists k | k in BuildRegistry(p) :: k.family == Inet6) <==> p.hasIPv6
  {
    var r := BuildRegistry(p);
    if p.hasIPv6 {
      FindOptionMatchesTable(p, IpTos, Inet6);
      assert RegistryKey(IpTos, Inet6) in r;
    } else {
      forall k | k in r ensures k.family != Inet6 {
        FindOptionMatchesTable(p, k.name, k.family);
      }
    }
  }

  /** Lookup is family-sensitive: `SO_BROADCAST` is not found under `INET`, nor
      `TCP_NODELAY` under `INET6`; `IP_TOS` under `INET6` is found exactly with IPv6. */
  lemma WrongFamilyNotFound(p: Platform)
    ensures FindOption(BuildRegistry(p), SoBroadcast, Inet) == None
    ensures FindOption(BuildRegistry(p), TcpNoDelay, Inet6) == None
    ensures FindOption(BuildRegistry(p), IpTos, Inet6).Some? <==> p.hasIPv6
  {
    FindOptionMatchesTable(p, SoBroadcast, Inet);
    FindOptionMatchesTable(p, TcpNoDelay, Inet6);
    FindOptionMatchesTable(p, IpTos, Inet6);
  }

  /** Where the headers lack `SO_REUSEPORT` on a target outside Linux, AIX and macOS, the
      registry answers `SO_REUSEPORT` with the socket level and code 0. */
  lemma ReusePortUndefinedScenario(p: Platform)
    requires p.reusePortHeader.None? && (p.os == Windows || p.os == OtherOs)
    ensures FindOption(BuildRegistry(p), SoReusePort, Unspec) == Some(OptionKey(p.solSocket, 0))
  {
    FindOptionMatchesTable(p, SoReusePort, Unspec);
  }

}
