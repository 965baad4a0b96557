# Socket option registry: a Dafny model

The model covers the JDK's socket option registry generator, `SocketOptionRegistry.template.c`.
At build time, this C program is compiled against the target's system headers. It prints a Java
class `sun.nio.ch.SocketOptionRegistry` that holds a `HashMap` from a `RegistryKey`
(socket option, protocol family) to an `OptionKey` (protocol level, native option code).
The class also has a `findOption` lookup.

Here the target's headers are an explicit `Platform` value. It holds the OS family,
whether `AF_INET6` is defined, the header's `SO_REUSEPORT` if there is one, and uninterpreted
integers for every other header constant. Generation becomes a pure function from a
`Platform` to a Dafny `map`.

Modules:

- `Wrappers` (`wrappers.dfy`): `Option`, which stands for a Java reference that may be null.
- `PlatformConstants` (`platform_constants.dfy`): the `Platform` record and the
  `SO_REUSEPORT` fallback. The `#if` chain is evaluated over the macros each OS family
  defines (`_WIN32`, `__linux__`, `AIX`, `MACOSX`). Its result is stated per OS family.
- `RegistryKeys` (`registry_keys.dfy`): the closed `SocketOption` and `ProtocolFamily`
  enumerations, `RegistryKey`, its `equals` over a Java argument that may be null or of
  another class, and its `hashCode` with Java `int` wrap-around.
- `SocketOptionRegistry` (`socket_option_registry.dfy`): the `map.put` calls of `main` in
  source order (`Puts`), `HashMap.put` as a map update (`PutAll`), the proof that no key is
  put twice, the built registry and `findOption`. `PutAllEffect` states what a run of puts does to the map.
- `RegistryProperties` (`registry_properties.dfy`): a reference table `Expected` indexed by
  family and option, independent of insertion order. It holds the lemmas that tie the built
  registry to that table, the absence of overwrites and the IPv6 condition.

When the headers lack `SO_REUSEPORT`, the fallback is 15 on Linux, 0x0200 on AIX or macOS,
and 0 on Windows and any other OS. A code of 0 therefore does not by itself mean that the
option is unsupported.

## Model

| member | source | states |
|---|---|---|
| PlatformConstants.ReusePortDirective | src/java.base/share/classes/sun/nio/ch/SocketOptionRegistry.template.c:41-51 | A header-defined `SO_REUSEPORT` is used verbatim. Otherwise the first matching branch decides, in source order. `_WIN32` gives 0, even if other macros are defined. Otherwise `__linux__` gives 15. Otherwise `AIX` or `MACOSX` gives 0x0200. With none of these defined the result is 0. |
| PlatformConstants.ResolveReusePort | src/java.base/share/classes/sun/nio/ch/SocketOptionRegistry.template.c:41-51 | The resolved `SO_REUSEPORT` is the header value when there is one. Otherwise it is 0 on Windows, 15 on Linux, 0x0200 on AIX or macOS, and 0 on any other OS. |
| RegistryKeys.Equals | src/java.base/share/classes/sun/nio/ch/SocketOptionRegistry.template.c:82-89 | `equals` is true exactly when the argument is a registry key with the same option and the same family. It is false for null and for objects of other classes. |
| RegistryKeys.EqualsIsEquivalence | src/java.base/share/classes/sun/nio/ch/SocketOptionRegistry.template.c:82-89 | `equals` is reflexive, symmetric and transitive on registry keys, and false for null. |
| RegistryKeys.WrapInt32 | src/java.base/share/classes/sun/nio/ch/SocketOptionRegistry.template.c:80 | The sum in `hashCode` is a Java `int`: it is congruent to the mathematical sum modulo 2^32, and it equals that sum when the sum fits. |
| RegistryKeys.HashCode | src/java.base/share/classes/sun/nio/ch/SocketOptionRegistry.template.c:79-81 | `hashCode` is the Java `int` sum of the option's and the family's hash codes: it is congruent to their mathematical sum modulo 2^32. |
| RegistryKeys.HashCodeConsistentWithEquals | src/java.base/share/classes/sun/nio/ch/SocketOptionRegistry.template.c:79-89 | Keys that are `equals` have the same `hashCode`, for any identity hash codes of the option and family objects. |
| SocketOptionRegistry.Puts | src/java.base/share/classes/sun/nio/ch/SocketOptionRegistry.template.c:115-140 | The generated `options()` performs 13 puts, or 17 when `AF_INET6` is defined. |
| SocketOptionRegistry.PutAllEffect | src/java.base/share/classes/sun/nio/ch/SocketOptionRegistry.template.c:115-140 | A sequence of `HashMap.put` calls yields the old keys plus every put key, keeps untouched entries, and keeps every put's value when no key repeats. |
| SocketOptionRegistry.FindOption | src/java.base/share/classes/sun/nio/ch/SocketOptionRegistry.template.c:106-109 | `findOption` returns a value only if some stored key `equals` the query key and maps to that value. It returns null only if no stored key `equals` the query. |
| SocketOptionRegistry.PutsHaveDistinctKeys | src/java.base/share/classes/sun/nio/ch/SocketOptionRegistry.template.c:115-140 | No (option, family) key is put twice, on any platform. |
| RegistryProperties.PutsAgreeWithTable | src/java.base/share/classes/sun/nio/ch/SocketOptionRegistry.template.c:115-140 | Every put's key and value is an entry of the reference table. |
| RegistryProperties.TableKeysArePut | src/java.base/share/classes/sun/nio/ch/SocketOptionRegistry.template.c:115-140 | Every pair the reference table answers is put by the generated code. |
| RegistryProperties.FindOptionMatchesTable | src/java.base/share/classes/sun/nio/ch/SocketOptionRegistry.template.c:106-140 | For every option and family, `findOption` on the built registry equals the reference table. It returns the inserted value for a registered pair and not-found for every other pair. |
| SocketOptionRegistry.BuildRegistry | src/java.base/share/classes/sun/nio/ch/SocketOptionRegistry.template.c:96-140 | The map `options()` returns has exactly 13 entries without IPv6 and 17 with it. Every put's key is in it and maps to that put's value. |
| RegistryProperties.NoPutOverwrites | src/java.base/share/classes/sun/nio/ch/SocketOptionRegistry.template.c:115-140 | Each put's key is absent from the map built by the puts before it, so no put replaces a value. |
| RegistryProperties.SocketLevelEntries | src/java.base/share/classes/sun/nio/ch/SocketOptionRegistry.template.c:115-140 | Each of BROADCAST, KEEPALIVE, LINGER, SNDBUF, RCVBUF, REUSEADDR, REUSEPORT and OOBINLINE is found under `UNSPEC` with level `SOL_SOCKET` and exactly the platform's code. None of them is found under `INET` or `INET6`. |
| RegistryProperties.TcpNoDelayEntry | src/java.base/share/classes/sun/nio/ch/SocketOptionRegistry.template.c:123-124 | `TCP_NODELAY` is found under `UNSPEC` with level 6 and the platform code, and not under `INET` or `INET6`. |
| RegistryProperties.InetEntries | src/java.base/share/classes/sun/nio/ch/SocketOptionRegistry.template.c:126-130 | `IP_TOS`, `IP_MULTICAST_IF`, `IP_MULTICAST_TTL` and `IP_MULTICAST_LOOP` are found under `INET` with level 0 and the IPv4 codes, and not under `UNSPEC`. |
| RegistryProperties.Inet6Entries | src/java.base/share/classes/sun/nio/ch/SocketOptionRegistry.template.c:132-138 | With IPv6 the same four options are found under `INET6` with level 41 and `IPV6_TCLASS`, `IPV6_MULTICAST_IF`, `IPV6_MULTICAST_HOPS` and `IPV6_MULTICAST_LOOP` respectively. Without IPv6 they are not found there. |
| RegistryProperties.Inet6PresentIffIPv6 | src/java.base/share/classes/sun/nio/ch/SocketOptionRegistry.template.c:132-138 | The registry holds an `INET6` key if and only if `AF_INET6` is defined. |
| RegistryProperties.WrongFamilyNotFound | src/java.base/share/classes/sun/nio/ch/SocketOptionRegistry.template.c:106-109 | Lookup is family-sensitive. BROADCAST under `INET` and `TCP_NODELAY` under `INET6` are not found, and `IP_TOS` under `INET6` is found exactly when IPv6 is available. |
| RegistryProperties.ReusePortUndefinedScenario | src/java.base/share/classes/sun/nio/ch/SocketOptionRegistry.template.c:41-51 | On Windows or another OS whose headers lack `SO_REUSEPORT`, `findOption(SO_REUSEPORT, UNSPEC)` answers level `SOL_SOCKET` with code 0. |

## Left out

- Text emission: the `printf` calls, the Java source strings `pre` and `post`, and the
  comments printed into the generated class. They are glue around the registry contents.
- The numeric values of header constants (`SOL_SOCKET`, `SO_BROADCAST`, `IP_TOS`,
  `IPV6_TCLASS`, ...) and the header includes. They are platform-defined, so they are
  uninterpreted `Platform` fields and no value is assumed. For this reason the model does
  not claim that `TCP_NODELAY` is non-zero.
- `SOL_SOCKET`, the level of the socket-level entries: the generator writes it as text inside
  the format string, so the C preprocessor does not expand it and no header value is printed
  for it. The generated `OptionKey(SOL_SOCKET, n)` takes its meaning from wherever that class
  is compiled. The model treats it as one more uninterpreted `Platform` field, `solSocket`,
  and does not say which value it has.
- `findOption` queries outside the closed enumerations. Java's `findOption` accepts any
  `SocketOption` and any `ProtocolFamily`. Options outside the 13, or a family such as
  `StandardProtocolFamily.UNIX`, get null. A null name or family throws
  `NullPointerException` from `hashCode` inside `HashMap.get`. The model's query domain is
  the 13 options and 3 families, so neither case is modelled.
- The header constants are C `int`s printed with `%d`. The model keeps them as unbounded
  integers and does not model a 32-bit range for them.
- The `PREFIX_` renaming of identifiers, which the makefile filters out of the generated text.
- `LazyInitialization`: class-loading order and the JVM's one-time, thread-safe initialisation
  of the static field. The registry is a value that is built once.
- `HashMap` internals such as buckets and resizing. The registry is a Dafny `map` keyed by
  `RegistryKey`, and `put` is a map update. `RegistryKeys.Equals` shows that `equals` is
  structural equality, which is what a Dafny map uses.
- The JVM's identity hash codes of the option and family objects. They are parameters of
  `RegistryKeys.HashCode`.
- `SO_OOBINLINE` comes from `ExtendedSocketOption` rather than `StandardSocketOptions`. The
  model treats it as one more value of the closed `SocketOption` enumeration.
- Two builds on the same platform give the same registry because the builder is a function.
  No separate lemma states this.
