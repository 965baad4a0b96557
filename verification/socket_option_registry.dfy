/**
 The registry the generator emits: the `map.put` calls of `main`, in source order,
 applied to an empty map, and the `findOption` lookup over the result.
 */
module SocketOptionRegistry {
  import opened Wrappers
  import opened PlatformConstants
  import opened RegistryKeys

  /** `IPPROTO_TCP`, `IPPROTO_IP` and `IPPROTO_IPV6`, which the generator writes as literals. */
  const IPPROTO_TCP: int := 6
  const IPPROTO_IP: int := 0
  const IPPROTO_IPV6: int := 41

  /** `OptionKey(level, name)`: the protocol level and the native option code. */
  datatype OptionKey = OptionKey(level: int, code: int)

  type Registry = map<RegistryKey, OptionKey>

  /** One `map.put(key, value)` call. */
  datatype Put = Put(key: RegistryKey, value: OptionKey)

  ghost function KeysOf(puts: seq<Put>): set<RegistryKey>
  {
    set i | 0 <= i < |puts| :: puts[i].key
  }

  /** No key is put twice: the first put's key is not put again, and so on down the sequence. */
  ghost predicate DistinctKeys(puts: seq<Put>)
    decreases |puts|
  {
    |puts| == 0 || (puts[0].key !in KeysOf(puts[1..]) && DistinctKeys(puts[1..]))
  }

  lemma KeysOfCons(puts: seq<Put>)
    requires |puts| > 0
    ensures KeysOf(puts) == {puts[0].key} + KeysOf(puts[1..])
  {
    forall k | k in KeysOf(puts) ensures k in {puts[0].key} + KeysOf(puts[1..]) {
      var i :| 0 <= i < |puts| && puts[i].key == k;
      if i > 0 { assert puts[1..][i - 1].key == k; }
    }
  }

  /** The socket-level puts, all under `Net.UNSPEC` at level `SOL_SOCKET`. */
  function SocketLevelPuts(p: Platform): seq<Put>
  {
    [ Put(RegistryKey(SoBroadcast, Unspec), OptionKey(p.solSocket, p.soBroadcast)),
      Put(RegistryKey(SoKeepAlive, Unspec), OptionKey(p.solSocket, p.soKeepAlive)),
      Put(RegistryKey(SoLinger, Unspec), OptionKey(p.solSocket, p.soLinger)),
      Put(RegistryKey(SoSndBuf, Unspec), OptionKey(p.solSocket, p.soSndBuf)),
      Put(RegistryKey(SoRcvBuf, Unspec), OptionKey(p.solSocket, p.soRcvBuf)),
      Put(RegistryKey(SoReuseAddr, Unspec), OptionKey(p.solSocket, p.soReuseAddr)),
      Put(RegistryKey(SoReusePort, Unspec), OptionKey(p.solSocket, ResolveReusePort(p))) ]
  }

  function TcpPut(p: Platform): Put
  {
    Put(RegistryKey(TcpNoDelay, Unspec), OptionKey(IPPROTO_TCP, p.tcpNoDelay))
  }

  function InetPuts(p: Platform): seq<Put>
  {
    [ Put(RegistryKey(IpTos, Inet), OptionKey(IPPROTO_IP, p.ipTos)),
      Put(RegistryKey(IpMulticastIf, Inet), OptionKey(IPPROTO_IP, p.ipMulticastIf)),
      Put(RegistryKey(IpMulticastTtl, Inet), OptionKey(IPPROTO_IP, p.ipMulticastTtl)),
      Put(RegistryKey(IpMulticastLoop, Inet), OptionKey(IPPROTO_IP, p.ipMulticastLoop)) ]
  }

  /** The `#ifdef AF_INET6` block: empty when the target has no IPv6. */
  function Inet6Puts(p: Platform): seq<Put>
  {
    if !p.hasIPv6 then []
    else
      [ Put(RegistryKey(IpTos, Inet6), OptionKey(IPPROTO_IPV6, p.ipv6TClass)),
        Put(RegistryKey(IpMulticastIf, Inet6), OptionKey(IPPROTO_IPV6, p.ipv6MulticastIf)),
        Put(RegistryKey(IpMulticastTtl, Inet6), OptionKey(IPPROTO_IPV6, p.ipv6MulticastHops)),
        Put(RegistryKey(IpMulticastLoop, Inet6), OptionKey(IPPROTO_IPV6, p.ipv6MulticastLoop)) ]
  }

  function OobInlinePut(p: Platform): Put
  {
    Put(RegistryKey(SoOobInline, Unspec), OptionKey(p.solSocket, p.soOobInline))
  }

  /** Every `map.put` of `main`, in the order the generated code performs them. */
  function Puts(p: Platform): (puts: seq<Put>)
    ensures |puts| == if p.hasIPv6 then 17 else 13
  {
    SocketLevelPuts(p) + [TcpPut(p)] + InetPuts(p) + Inet6Puts(p) + [OobInlinePut(p)]
  }

  /** Performs the puts one after the other on `m`, as `HashMap.put` does. */
  function PutAll(m: Registry, puts: seq<Put>): Registry
    decreases |puts|
  {
    if |puts| == 0 then m
    else PutAll(m[puts[0].key := puts[0].value], puts[1..])
  }

  /** The effect of a run of `HashMap.put` calls: the map gains exactly the put keys, keeps
      the entries no put touches, and keeps every put's value when no key is put twice. */
  lemma {:induction false} PutAllEffect(m: Registry, puts: seq<Put>)
    ensures PutAll(m, puts).Keys == m.Keys + KeysOf(puts)
    ensures forall k | k in m && k !in KeysOf(puts) :: PutAll(m, puts)[k] == m[k]
    ensures DistinctKeys(puts) ==> forall i | 0 <= i < |puts| :: PutAll(m, puts)[puts[i].key] == puts[i].value
    decreases |puts|
  {
    if |puts| > 0 {
      var m' := m[puts[0].key := puts[0].value];
      PutAllEffect(m', puts[1..]);
      KeysOfCons(puts);
      if DistinctKeys(puts) {
        forall i | 0 <= i < |puts| ensures PutAll(m, puts)[puts[i].key] == puts[i].value {
          if i > 0 { assert puts[i] == puts[1..][i - 1]; }
        }
      }
    }
  }

  /** No two positions of the sequence put the same key. */
  ghost predicate PairwiseDistinct(puts: seq<Put>)
  {
    forall i, j | 0 <= i < j < |puts| :: puts[i].key != puts[j].key
  }

  /** Keys are distinct down the sequence exactly when no two positions share one. */
  lemma {:induction false} DistinctKeysIffPairwise(puts: seq<Put>)
    ensures DistinctKeys(puts) <==> PairwiseDistinct(puts)
    decreases |puts|
  {
    if |puts| > 0 {
      var rest := puts[1..];
      DistinctKeysIffPairwise(rest);
      if PairwiseDistinct(puts) {
        forall i, j | 0 <= i < j < |rest| ensures rest[i].key != rest[j].key {
          assert rest[i] == puts[i + 1] && rest[j] == puts[j + 1];
        }
        forall k | k in KeysOf(rest) ensures k != puts[0].key {
          var i :| 0 <= i < |rest| && rest[i].key == k;
          assert rest[i] == puts[i + 1];
        }
      }
      if DistinctKeys(puts) {
        forall i, j | 0 <= i < j < |puts| ensures puts[i].key != puts[j].key {
          assert puts[j] == rest[j - 1];
          if i > 0 { assert puts[i] == rest[i - 1]; }
        }
      }
    }
  }

  /** Two runs of puts with distinct keys, none shared, concatenate to one with distinct keys. */
  lemma DistinctKeysAppend(a: seq<Put>, b: seq<Put>)
    requires PairwiseDistinct(a) && PairwiseDistinct(b) && KeysOf(a) !! KeysOf(b)
    ensures PairwiseDistinct(a + b) && KeysOf(a + b) == KeysOf(a) + KeysOf(b)
  {
    var ab := a + b;
    forall i, j | 0 <= i < j < |ab| ensures ab[i].key != ab[j].key {
      if j < |a| {
        assert ab[i] == a[i] && ab[j] == a[j];
      } else if i >= |a| {
        assert ab[i] == b[i - |a|] && ab[j] == b[j - |a|];
      } else {
        assert ab[i].key in KeysOf(a) by { assert ab[i] == a[i]; }
        assert ab[j].key in KeysOf(b) by { assert ab[j] == b[j - |a|]; }
      }
    }
    forall k | k in KeysOf(ab) ensures k in KeysOf(a) + KeysOf(b) {
      var i :| 0 <= i < |ab| && ab[i].key == k;
      if i < |a| { assert a[i] == ab[i]; } else { assert b[i - |a|] == ab[i]; }
    }
    forall k | k in KeysOf(a) + KeysOf(b) ensures k in KeysOf(ab) {
      if k in KeysOf(a) {
        var i :| 0 <= i < |a| && a[i].key == k;
        assert ab[i] == a[i];
      } else {
        var i :| 0 <= i < |b| && b[i].key == k;
        assert ab[|a| + i] == b[i];
      }
    }
  }

  /** The `UNSPEC` run before the IP options: eight distinct options, none of them OOBINLINE. */
  lemma UnspecRunDistinct(p: Platform)
    ensures PairwiseDistinct(SocketLevelPuts(p) + [TcpPut(p)])
    ensures forall k | k in KeysOf(SocketLevelPuts(p) + [TcpPut(p)]) :: k.family == Unspec && k.name != SoOobInline
  {
    var run := SocketLevelPuts(p) + [TcpPut(p)];
    forall k | k in KeysOf(run) ensures k.family == Unspec && k.name != SoOobInline {
      var i :| 0 <= i < |run| && run[i].key == k;
    }
  }

  /** The `INET` and `INET6` runs: four distinct options each, all under their own family. */
  lemma IpRunsDistinct(p: Platform)
    ensures PairwiseDistinct(InetPuts(p)) && PairwiseDistinct(Inet6Puts(p))
    ensures forall k | k in KeysOf(InetPuts(p)) :: k.family == Inet
    ensures forall k | k in KeysOf(Inet6Puts(p)) :: k.family == Inet6
  {
  }

  /** Every key the generator puts is put once: the `UNSPEC` puts name distinct options,
      and the `INET` and `INET6` runs are told apart by their family. */
  lemma PutsHaveDistinctKeys(p: Platform)
    ensures DistinctKeys(Puts(p))
  {
    var unspec := SocketLevelPuts(p) + [TcpPut(p)];
    var inet := InetPuts(p);
    var inet6 := Inet6Puts(p);
    var oob := [OobInlinePut(p)];
    UnspecRunDistinct(p);
    IpRunsDistinct(p);
    assert forall k | k in KeysOf(oob) :: k == RegistryKey(SoOobInline, Unspec);
    DistinctKeysAppend(unspec, inet);
    DistinctKeysAppend(unspec + inet, inet6);
    DistinctKeysAppend(unspec + inet + inet6, oob);
    assert Puts(p) == unspec + inet + inet6 + oob;
    DistinctKeysIffPairwise(Puts(p));
  }

  /** Puts with distinct keys put as many keys as there are puts. */
  lemma {:induction false} DistinctKeysCount(puts: seq<Put>)
    requires DistinctKeys(puts)
    ensures |KeysOf(puts)| == |puts|
    decreases |puts|
  {
    if |puts| > 0 {
      DistinctKeysCount(puts[1..]);
      KeysOfCons(puts);
    }
  }

  /** The registry `LazyInitialization.options()` builds for the target. No key is put twice,
      so every put's value survives and there is one entry per put. */
  function BuildRegistry(p: Platform): (r: Registry)
    ensures |r| == if p.hasIPv6 then 17 else 13
    ensures forall i | 0 <= i < |Puts(p)| :: Puts(p)[i].key in r && r[Puts(p)[i].key] == Puts(p)[i].value
  {
    PutsHaveDistinctKeys(p);
    DistinctKeysCount(Puts(p));
    PutAllEffect(map[], Puts(p));
    PutAll(map[], Puts(p))
  }

  /** `findOption`: `HashMap.get` with a fresh key, which finds the stored key that
      `RegistryKey.equals` the query, or returns null. */
  function FindOption(r: Registry, name: SocketOption, family: ProtocolFamily): (res: Option<OptionKey>)
    ensures res.Some? ==> exists k | k in r :: Equals(RegistryKey(name, family), KeyObject(k)) && r[k] == res.value
    ensures res.None? ==> forall k | k in r :: !Equals(RegistryKey(name, family), KeyObject(k))
  {
    var key := RegistryKey(name, family);
    if key in r then Some(r[key]) else None
  }

}
