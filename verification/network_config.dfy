/**
 * The POSIX network bootstrap: the four steps that fill the interface
 * configuration of the TCP/IP Interface object and the physical address of
 * the Ethernet Link object. The operating system's answers (ioctl queries,
 * gethostname, the contents of /proc/net/route and /etc/resolv.conf and
 * the outcome of opening, allocating and reading) are parameters.
 */
module NetworkConfig {
  import opened Wrappers
  import opened CString
  import opened Inet
  import opened RouteTable
  import opened ResolvConf

  /** kEipStatusOk, kEipStatusError, and exit(code), which ends the process. */
  datatype Status = Ok | Error | Fatal(code: int)

  const EXIT_FAILURE: int := 1
  /** sizeof(ifr.ifr_name) on Linux. */
  const IFNAMSIZ: nat := 16
  /** sizeof(g_ethernet_link.physical_address). */
  const MAC_LENGTH: nat := 6
  /** sizeof(ifr.ifr_hwaddr.sa_data). */
  const SA_DATA_LENGTH: nat := 14
  /** HOST_NAME_MAX of <limits.h> on Linux. */
  const HOST_NAME_MAX: nat := 64

  /** The fields of the TCP/IP Interface object (g_tcpip) this code writes. */
  class TcpIpInterface {
    var ipAddress: uint32
    var networkMask: uint32
    var gateway: uint32
    var nameServer: uint32
    var nameServer2: uint32
    var domainName: seq<char>
    var hostname: seq<char>

    constructor ()
      ensures ipAddress == 0 && networkMask == 0 && gateway == 0
      ensures nameServer == 0 && nameServer2 == 0 && domainName == [] && hostname == []
    {
      ipAddress, networkMask, gateway := 0, 0, 0;
      nameServer, nameServer2 := 0, 0;
      domainName, hostname := [], [];
    }

    /** The fields the resolv.conf parser writes, with `p_dns` on name_server. */
    function DnsView(): DnsState
      reads this
    {
      DnsState(domainName, nameServer, nameServer2, 0)
    }
  }

  /** The Ethernet Link object (g_ethernet_link): its physical address is a fixed array of six octets. */
  class EthernetLink {
    const physicalAddress: array<byte>

    ghost predicate Valid()
      reads this
    {
      physicalAddress.Length == MAC_LENGTH
    }

    constructor ()
      ensures Valid() && fresh(physicalAddress)
    {
      physicalAddress := new byte[MAC_LENGTH];
    }
  }

  /**
   * ConfigureMacAddressByInterface: a name that does not fit ifr_name is an
   * error; otherwise the first six octets of the SIOCGIFHWADDR answer become
   * the physical address, and Ok is returned, exactly when that query
   * succeeds (`hwAddr` is its answer, None when ioctl fails).
   */
  method ConfigureMacAddressByInterface(link: EthernetLink, iface: seq<char>, hwAddr: Option<seq<byte>>)
    returns (status: Status)
    requires link.Valid() && NUL !in iface
    requires hwAddr.Some? ==> |hwAddr.value| == SA_DATA_LENGTH
    modifies link.physicalAddress
    ensures |iface| >= IFNAMSIZ ==> status == Error
    ensures status == Ok <==> |iface| < IFNAMSIZ && hwAddr.Some?
    ensures status == Ok || status == Error
    ensures status == Ok ==> link.physicalAddress[..] == hwAddr.value[..MAC_LENGTH]
    ensures status != Ok ==> link.physicalAddress[..] == old(link.physicalAddress[..])
  {
    status := Error;
    if |iface| < IFNAMSIZ {
      if hwAddr.Some? {
        var saData := hwAddr.value;
        forall i | 0 <= i < MAC_LENGTH {
          link.physicalAddress[i] := saData[i];
        }
        status := Ok;
      }
    } else {
      // the name is too long: only a trace message
    }
  }

  /**
   * fgets(file_buffer, sizeof(file_buffer), f) with `rest` the unread input:
   * stores the next characters through the first newline (at most 99) and
   * a NUL after them; `n` is how many were read, 0 at the end of the input
   * (where fgets returns NULL and the buffer keeps its contents).
   */
  method Fgets(fileBuffer: array<char>, rest: seq<char>) returns (n: nat)
    requires fileBuffer.Length == FILE_BUFFER_SIZE
    modifies fileBuffer
    ensures n == FgetsLength(rest)
    ensures n > 0 ==> fileBuffer[..n] == rest[..n] && fileBuffer[n] == NUL
    ensures n > 0 ==> fileBuffer[n + 1..] == old(fileBuffer[n + 1..])
    ensures n > 0 ==> CStr(fileBuffer[..]) == CStr(rest[..n])
    ensures n == 0 ==> fileBuffer[..] == old(fileBuffer[..])
  {
    n := FgetsLength(rest);
    if n > 0 {
      forall i | 0 <= i < n {
        fileBuffer[i] := rest[i];
      }
      fileBuffer[n] := NUL;
      assert fileBuffer[..][..n] == rest[..n];
      CStrOfTerminated(fileBuffer[..], n);
    }
  }

  /**
   * The `while` loop over /proc/net/route: it looks for the interface name
   * in the C string the buffer holds and, while there is none, loads the
   * next line with fgets; it stops at the first buffer load containing the
   * name or at the end of the file. The buffer starts zeroed, so the first
   * search (of the empty string) finds nothing. The result is the text
   * `needle_start` points to, None for a null pointer.
   */
  method ScanRouteTable(route: seq<char>, iface: seq<char>) returns (needle: Option<seq<char>>)
    requires |iface| > 0
    ensures needle == RouteMatch(route, iface)
  {
    var fileBuffer := new char[FILE_BUFFER_SIZE](_ => NUL);
    needle := None;
    var rest := route;
    while needle.None? && |rest| > 0
      invariant fileBuffer.Length == FILE_BUFFER_SIZE
      invariant needle.None? ==> RouteMatch(route, iface) == ScanChunks(Chunks(rest), iface)
      invariant needle.Some? ==> RouteMatch(route, iface) == needle
      decreases |rest|
    {
      var n := Fgets(fileBuffer, rest);
      var held := CStr(fileBuffer[..]);
      ScanStep(rest, iface);
      var found := StrStr(held, iface);
      if found.Some? {
        needle := Some(held[found.value..]);
      }
      rest := rest[n..];
    }
  }

  /**
   * ConfigureNetworkInterface. The address and the netmask (the SIOCGIFADDR
   * and SIOCGIFNETMASK answers, None when ioctl fails) are written together
   * only when both queries succeed; otherwise Error and nothing is written.
   * Then the route table is scanned: no line for the interface is exit(1),
   * leaving the gateway untouched; otherwise the gateway string is parsed
   * and the gateway always written -- the parsed value, or 0 when the text
   * does not parse or equals the constant INADDR_LOOPBACK.
   */
  method ConfigureNetworkInterface(cfg: TcpIpInterface, iface: seq<char>,
                                   ipAddr: Option<uint32>, netmask: Option<uint32>, route: seq<char>)
    returns (status: Status)
    requires NUL !in iface && |iface| > 0
    requires RouteMatch(route, iface).Some? ==>
      exists j :: 0 <= j < |RouteMatch(route, iface).value| && RouteMatch(route, iface).value[j] != '\t'
    modifies cfg`ipAddress, cfg`networkMask, cfg`gateway
    ensures ipAddr.None? || netmask.None? ==>
      status == Error && cfg.ipAddress == old(cfg.ipAddress) && cfg.networkMask == old(cfg.networkMask)
      && cfg.gateway == old(cfg.gateway)
    ensures ipAddr.Some? && netmask.Some? ==>
      cfg.ipAddress == ipAddr.value && cfg.networkMask == netmask.value
    ensures ipAddr.Some? && netmask.Some? && RouteMatch(route, iface).None? ==>
      status == Fatal(1) && cfg.gateway == old(cfg.gateway)
    ensures ipAddr.Some? && netmask.Some? && RouteMatch(route, iface).Some? ==>
      var gatewayString := GatewayString(RouteMatch(route, iface).value);
      status == Ok && gatewayString.Some? && cfg.gateway == GatewayValue(gatewayString.value)
  {
    if ipAddr.None? {
      status := Error;
      return;
    }
    if netmask.None? {
      status := Error;
      return;
    }
    cfg.ipAddress := ipAddr.value;
    cfg.networkMask := netmask.value;

    var needle := ScanRouteTable(route, iface);
    if needle.None? {
      status := Fatal(1);
      return;
    }
    var m := needle.value;
    GatewayStringDefined(m);
    var gatewayString := GatewayString(m).value;
    var parsed := ParseIPv4(gatewayString);
    if parsed.Some? {
      var gateway := HostWord(parsed.value);
      if INADDR_LOOPBACK != gateway {
        cfg.gateway := gateway;
      } else {
        cfg.gateway := 0;
      }
    } else {
      cfg.gateway := 0;
    }
    status := Ok;
  }

  /**
   * The body of the line loop of ConfigureDomainName: the switch on the
   * line's first character. `slot` is where `p_dns` points (0 name_server,
   * 1 name_server_2, 2 the scratch variable dmy_dns); the new slot is returned.
   */
  method ProcessResolvLine(cfg: TcpIpInterface, line: seq<char>, slot: nat) returns (next: nat)
    modifies cfg`domainName, cfg`nameServer, cfg`nameServer2
    ensures DnsState(cfg.domainName, cfg.nameServer, cfg.nameServer2, next)
         == ApplyLine(DnsState(old(cfg.domainName), old(cfg.nameServer), old(cfg.nameServer2), slot), line)
  {
    next := slot;
    var dmyDns: uint32;
    var c := First(line);
    if c == '#' || c == ';' {
      // comment
    } else if c == 'd' || c == 's' {
      var key := LineKey(line);
      if key == "search" || key == "domain" {
        var value := LineValue(line);
        if value.Some? {
          cfg.domainName := value.value;
        }
      }
    } else if c == 'n' {
      var key := LineKey(line);
      if key == "nameserver" {
        var value := LineValue(line);
        if value.Some? {
          var parsed := ParseIPv4(value.value);
          if parsed.Some? {
            if slot == 0 {
              cfg.nameServer := HostWord(parsed.value);
            } else if slot == 1 {
              cfg.nameServer2 := HostWord(parsed.value);
            } else {
              dmyDns := HostWord(parsed.value);
            }
          }
          if slot != DUMMY_SLOT {
            next := if slot == 0 then 1 else DUMMY_SLOT;
          }
        }
      }
    }
  }

  /**
   * ConfigureDomainName. `resolvConf` is the file's contents (None when it
   * cannot be opened), `bufferAllocated` whether malloc succeeded and `readSize`
   * what fread returned. Each failure is exit(EXIT_FAILURE) before any field
   * changes; otherwise the lines are processed in order and the fields end
   * as the reference fold Resolve says.
   */
  method ConfigureDomainName(cfg: TcpIpInterface, resolvConf: Option<seq<char>>, bufferAllocated: bool, readSize: nat)
    returns (status: Status)
    modifies cfg`domainName, cfg`nameServer, cfg`nameServer2
    ensures resolvConf.None? || !bufferAllocated || readSize != |resolvConf.value| ==>
      status == Fatal(EXIT_FAILURE) && cfg.DnsView() == old(cfg.DnsView())
    ensures resolvConf.Some? && bufferAllocated && readSize == |resolvConf.value| ==>
      var r := Resolve(old(cfg.DnsView()), Lines(resolvConf.value));
      status == Ok && cfg.domainName == r.domain && cfg.nameServer == r.ns1 && cfg.nameServer2 == r.ns2
  {
    if resolvConf.None? || !bufferAllocated || readSize != |resolvConf.value| {
      status := Fatal(EXIT_FAILURE);
      return;
    }
    var content := resolvConf.value;
    var fileBuffer := content + [NUL];
    assert fileBuffer[..|content|] == content;
    CStrOfTerminated(fileBuffer, |content|);
    SplitLines(cfg, CStr(fileBuffer));
    status := Ok;
  }

  /**
   * The `for` loop of ConfigureDomainName over the zero-terminated buffer
   * holding the C string `text`: strtok_r hands out the lines one by one and
   * each goes through the switch, with `p_dns` starting on name_server.
   */
  method SplitLines(cfg: TcpIpInterface, text: seq<char>)
    modifies cfg`domainName, cfg`nameServer, cfg`nameServer2
    ensures var r := Resolve(old(cfg.DnsView()), Tokens(text, 0, NEWLINE));
      cfg.domainName == r.domain && cfg.nameServer == r.ns1 && cfg.nameServer2 == r.ns2
  {
    ghost var start := cfg.DnsView();
    ghost var done: seq<seq<char>> := [];
    var slot: nat := 0;
    var pos := 0;
    var token := NextToken(text, pos, NEWLINE);
    while token.Some?
      invariant pos <= |text| && token == NextToken(text, pos, NEWLINE)
      invariant Tokens(text, 0, NEWLINE) == done + Tokens(text, pos, NEWLINE)
      invariant DnsState(cfg.domainName, cfg.nameServer, cfg.nameServer2, slot) == Resolve(start, done)
      decreases |text| - pos
    {
      var (b, e) := token.value;
      var line := text[b..e];
      TokensStep(text, pos, NEWLINE, done);
      slot := ProcessResolvLine(cfg, line, slot);
      ResolveSnoc(start, done, line);
      done := done + [line];
      pos := Resume(text, e);
      token := NextToken(text, pos, NEWLINE);
    }
    assert Tokens(text, pos, NEWLINE) == [];
    assert done + [] == done;
  }

  /**
   * ConfigureHostName: `rc` is what gethostname returned and `reply` what it
   * left in the HOST_NAME_MAX-character buffer. The last character is forced
   * to NUL, so the stored name has at most HOST_NAME_MAX - 1 characters; it
   * is stored only when gethostname returned 0.
   */
  method ConfigureHostName(cfg: TcpIpInterface, rc: int, reply: seq<char>)
    requires |reply| == HOST_NAME_MAX
    modifies cfg`hostname
    ensures rc == 0 ==> cfg.hostname == CStr(reply[..HOST_NAME_MAX - 1]) && |cfg.hostname| <= HOST_NAME_MAX - 1
    ensures rc != 0 ==> cfg.hostname == old(cfg.hostname)
  {
    var nameBuf := new char[HOST_NAME_MAX](i requires 0 <= i < HOST_NAME_MAX => reply[i]);
    nameBuf[HOST_NAME_MAX - 1] := NUL;
    if rc == 0 {
      assert nameBuf[..][..HOST_NAME_MAX - 1] == reply[..HOST_NAME_MAX - 1];
      CStrOfTerminated(nameBuf[..], HOST_NAME_MAX - 1);
      cfg.hostname := CStr(nameBuf[..]);
    }
  }
}
