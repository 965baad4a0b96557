/**
 The build-target facts the registry generator is compiled against.

 The generator resolves every socket-option symbol with the C preprocessor of the
 target platform. Here the target is an explicit `Platform` value: its operating-system
 family, whether the headers define `AF_INET6`, whether they define `SO_REUSEPORT`,
 the (uninterpreted) numeric value of every header constant the generator prints, and
 the value the level identifier `SOL_SOCKET` stands for in the generated class.
 */
module PlatformConstants {
  import opened Wrappers

  /** The operating-system family of the build target. */
  datatype OsFamily = Windows | Linux | Aix | MacOSX | OtherOs

  /** The preprocessor macros the `SO_REUSEPORT` fallback tests: `_WIN32`, `__linux__`, `AIX`, `MACOSX`. */
  datatype OsMacro = Win32Macro | LinuxMacro | AixMacro | MacOSXMacro

  /** The header constants of one build target. `solSocket` is the value the identifier
      `SOL_SOCKET` denotes where the generated class is compiled: the generator writes that
      identifier as text and never prints a number for it. Every other field after
      `reusePortHeader` is the value the system headers give the C symbol of the same name,
      which the generator prints with `%d`. */
  datatype Platform = Platform(
    os: OsFamily,
    hasIPv6: bool,                // AF_INET6 is defined
    reusePortHeader: Option<int>, // SO_REUSEPORT, when the headers define it
    solSocket: int,               // what the emitted identifier SOL_SOCKET denotes
    soBroadcast: int,
    soKeepAlive: int,
    soLinger: int,
    soSndBuf: int,
    soRcvBuf: int,
    soReuseAddr: int,
    soOobInline: int,
    tcpNoDelay: int,
    ipTos: int,
    ipMulticastIf: int,
    ipMulticastTtl: int,
    ipMulticastLoop: int,
    ipv6TClass: int,
    ipv6MulticastIf: int,
    ipv6MulticastHops: int,
    ipv6MulticastLoop: int)

  /** The macros the compiler or the build defines for a target of the given family. */
  function Predefined(os: OsFamily): (ms: set<OsMacro>)
    ensures |ms| <= 1
    ensures Win32Macro in ms <==> os == Windows
    ensures LinuxMacro in ms <==> os == Linux
    ensures (AixMacro in ms || MacOSXMacro in ms) <==> (os == Aix || os == MacOSX)
  {
    match os
    case Windows => {Win32Macro}
    case Linux => {LinuxMacro}
    case Aix => {AixMacro}
    case MacOSX => {MacOSXMacro}
    case OtherOs => {}
  }

  /** The `#if !defined(SO_REUSEPORT)` block as the preprocessor evaluates it: the header
      value wins; otherwise the first `#ifdef`/`#elif` whose macro is defined picks the value. */
  function ReusePortDirective(header: Option<int>, defined: set<OsMacro>): (r: int)
    ensures header.Some? ==> r == header.value
    ensures header.None? ==> r in {0, 15, 0x0200}
    ensures header.None? && Win32Macro in defined ==> r == 0
    ensures header.None? && Win32Macro !in defined && LinuxMacro in defined ==> r == 15
    ensures header.None? && defined !! {Win32Macro, LinuxMacro} && (AixMacro in defined || MacOSXMacro in defined) ==> r == 0x0200
    ensures header.None? && defined == {} ==> r == 0
  {
    if header.Some? then header.value
    else if Win32Macro in defined then 0
    else if LinuxMacro in defined then 15
    else if AixMacro in defined || MacOSXMacro in defined then 0x0200
    else 0
  }

  /** The value the generator prints for `SO_REUSEPORT` on the given target. */
  function ResolveReusePort(p: Platform): (r: int)
    ensures p.reusePortHeader.Some? ==> r == p.reusePortHeader.value
    ensures p.reusePortHeader.None? && p.os == Windows ==> r == 0
    ensures p.reusePortHeader.None? && p.os == Linux ==> r == 15
    ensures p.reusePortHeader.None? && (p.os == Aix || p.os == MacOSX) ==> r == 0x0200
    ensures p.reusePortHeader.None? && p.os == OtherOs ==> r == 0
  {
    ReusePortDirective(p.reusePortHeader, Predefined(p.os))
  }

}
