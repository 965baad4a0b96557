/**
 The lookup identity of the registry: a `RegistryKey` pairs a socket option with a
 protocol family. Its Java `equals` compares both fields by identity and its `hashCode`
 adds the two fields' hash codes in 32-bit arithmetic.
 */
module RegistryKeys {

  /** The socket options the registry knows; the set is closed. */
  datatype SocketOption =
    | SoBroadcast | SoKeepAlive | SoLinger | SoSndBuf | SoRcvBuf | SoReuseAddr | SoReusePort
    | TcpNoDelay
    | IpTos | IpMulticastIf | IpMulticastTtl | IpMulticastLoop
    | SoOobInline

  /** `Net.UNSPEC`, `StandardProtocolFamily.INET` and `StandardProtocolFamily.INET6`. */
  datatype ProtocolFamily = Unspec | Inet | Inet6

  datatype RegistryKey = RegistryKey(name: SocketOption, family: ProtocolFamily)

  /** The argument of `equals(Object)`: null, another registry key, or an object of any other class. */
  datatype JavaObject = Null | KeyObject(key: RegistryKey) | OtherObject

  /** `RegistryKey.equals`. Socket options and families are singletons, so the identity
      tests `!=` on them are equality tests on their values. */
  function Equals(self: RegistryKey, ob: JavaObject): (r: bool)
    ensures r <==> ob == KeyObject(self)
  {
    if ob.Null? then false
    else if !ob.KeyObject? then false
    else
      var other := ob.key;
      if self.name != other.name then false
      else if self.family != other.family then false
      else true
  }

  /** Java's `int`. */
  type Int32 = x: int | -0x8000_0000 <= x < 0x8000_0000

  /** Java `int` arithmetic: the unique 32-bit value congruent to `x` modulo 2^32. */
  function WrapInt32(x: int): (r: Int32)
    ensures (r - x) % 0x1_0000_0000 == 0
    ensures -0x8000_0000 <= x < 0x8000_0000 ==> r == x
  {
    (x + 0x8000_0000) % 0x1_0000_0000 - 0x8000_0000
  }

  /** The `hashCode` of the option and family objects: identity hashes the JVM chooses,
      so they are parameters of the model. */
  datatype IdentityHashes = IdentityHashes(ofOption: SocketOption -> Int32, ofFamily: ProtocolFamily -> Int32)

  /** `RegistryKey.hashCode`: the sum of the two fields' hash codes, wrapping like Java `int`. */
  function HashCode(h: IdentityHashes, k: RegistryKey): (r: Int32)
    ensures (r - h.ofOption(k.name) - h.ofFamily(k.family)) % 0x1_0000_0000 == 0
  {
    WrapInt32(h.ofOption(k.name) + h.ofFamily(k.family))
  }

  /** `equals` is reflexive, symmetric and transitive on registry keys, and false for null. */
  lemma EqualsIsEquivalence(a: RegistryKey, b: RegistryKey, c: RegistryKey)
    ensures Equals(a, KeyObject(a))
    ensures Equals(a, KeyObject(b)) <==> Equals(b, KeyObject(a))
    ensures Equals(a, KeyObject(b)) && Equals(b, KeyObject(c)) ==> Equals(a, KeyObject(c))
    ensures !Equals(a, Null) && !Equals(a, OtherObject)
  {
  }

  /** The `hashCode` contract: keys that are `equals` have the same hash code, whatever
      identity hashes the JVM assigns. */
  lemma HashCodeConsistentWithEquals(h: IdentityHashes, a: RegistryKey, ob: JavaObject)
    requires Equals(a, ob)
    ensures ob.KeyObject? && HashCode(h, a) == HashCode(h, ob.key)
  {
  }

}
