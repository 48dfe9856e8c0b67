# OpENer POSIX network bootstrap, modelled in Dafny

OpENer is an EtherNet/IP stack. On POSIX hosts it fills the interface
configuration of its TCP/IP Interface object (`g_tcpip`: IP address,
network mask, gateway, two name servers, domain name, host name) and the
physical address of its Ethernet Link object (`g_ethernet_link`) from the
operating system, in `source/src/ports/POSIX/networkconfig.c`:

- `ConfigureMacAddressByInterface` asks the kernel for the hardware address
  of the named interface (SIOCGIFHWADDR) and copies its first six octets.
- `ConfigureNetworkInterface` asks for the interface's address and netmask,
  then reads `/proc/net/route` with `fgets` into a 100-byte buffer until a
  buffer load contains the interface name, cuts the text at the match with
  `strtok_r`, parses the result with `inet_pton` and stores it as the
  gateway unless it is rejected or equals `INADDR_LOOPBACK`.
- `ConfigureDomainName` reads `/etc/resolv.conf` into one zero-terminated
  buffer, splits it into lines with `strtok_r` and dispatches on each line's
  first character: `search`/`domain` lines set the domain name, the first
  two `nameserver` lines fill `name_server` and `name_server_2` through the
  pointer `p_dns`, which then parks on a scratch variable.
- `ConfigureHostName` stores what `gethostname` returned, forcibly
  terminated.

The project is organised as follows:

- `wrappers.dfy`: `Option`.
- `cstring.dfy` (module `CString`): the C library string routines the code
  depends on, over `seq<char>` — the C string held by a buffer, `strstr`,
  and `strtok_r` (token positions, where the save pointer resumes, and the
  NUL it writes after a token).
- `inet.dfy` (module `Inet`): `inet_pton(AF_INET, …)` as a grammar
  (exactly four dot-separated decimal fields, no leading zeros, each at most
  255, nothing after them), its inverse (the canonical dotted-quad text), and
  the 32-bit word a host reads from the four stored octets.
- `route_table.dfy` (module `RouteTable`): the route scan as pure functions —
  the buffer loads `fgets` produces, the text `needle_start` points to when
  the scan stops, the string the three `strtok_r` calls leave in
  `gateway_string`, and the value stored for it.
- `resolv_conf.dfy` (module `ResolvConf`): the resolv.conf parser as a fold
  of the loop body over the lines, and an independent description (the
  last domain directive wins; the first two nameserver directives fill the
  two slots) proved equal to it.
- `network_config.dfy` (module `NetworkConfig`): the objects as classes
  (`TcpIpInterface`, `EthernetLink` with its six-octet array) and the four
  entry points as methods. The scan of `/proc/net/route` and the line loop
  of `ConfigureDomainName` are `while` loops proved against the functions
  above.

Operating-system answers are parameters: each ioctl query is an `Option`
(None when it fails), the files are their contents as `seq<char>`, and the
outcomes of opening, allocating and reading `/etc/resolv.conf` are explicit
arguments. `exit(code)` is the outcome `Fatal(code)`.

Two behaviours of the code as written are worth knowing; the model follows
the code in both:

- The three `strtok_r` calls at `networkconfig.c:106-108` all pass
  `needle_start`, so each restarts at the match. `gateway_string` is
  therefore the token that starts at the interface name, never the
  Gateway column. For any interface name without spaces or tabs that
  contains a character other than a digit or a dot (such as `eth0`) that
  token never parses, and the gateway stored is always 0
  (`RouteTable.GatewayOfNamedInterface`).
- `inet_pton` stores the octets in network order, and the code compares the
  resulting value with the host-order constant `INADDR_LOOPBACK`
  (0x7F000001). The model fixes a little-endian host, so `"127.0.0.1"` is
  stored as 0x0100007F and is not replaced by 0, while `"1.0.0.127"` is
  (`RouteTable.LoopbackTextKept`, `RouteTable.ReversedLoopbackDropped`).

## Model

| member | source | states |
|---|---|---|
| NetworkConfig.ConfigureMacAddressByInterface | source/src/ports/POSIX/networkconfig.c:29-52 | A name of 16 or more characters gives Error; Ok exactly when the name fits and the hardware-address query succeeds, and then the physical address holds the first six octets of the answer; on every other outcome the physical address is unchanged. |
| NetworkConfig.ConfigureNetworkInterface | source/src/ports/POSIX/networkconfig.c:54-136 | If either the address or the netmask query fails: Error, and address, mask and gateway unchanged. Otherwise address and mask are both written; no route line for the interface gives Fatal(1) with the gateway unchanged; a match gives Ok, a non-null gateway string, and the gateway always written with `GatewayValue` of that string. |
| NetworkConfig.Fgets | source/src/ports/POSIX/networkconfig.c:101 | Reads `FgetsLength(rest)` characters; when it reads any, the buffer holds the characters read followed by a NUL and the rest of the buffer is unchanged, so its C string is the C string of those characters; at the end of the input the buffer is unchanged. |
| NetworkConfig.ScanRouteTable | source/src/ports/POSIX/networkconfig.c:95-102 | The `while` loop ends with `needle_start` pointing at exactly the text the scan reference `RouteMatch` gives (first buffer load containing the name, from its first occurrence), or null when it gives none. |
| NetworkConfig.ConfigureDomainName | source/src/ports/POSIX/networkconfig.c:138-222 | Failing to open, to allocate, or a short read each give Fatal(EXIT_FAILURE) with domain name and both name servers unchanged; otherwise Ok and the three fields end as the fold `Resolve` over the file's lines, starting with `p_dns` on `name_server`. |
| NetworkConfig.SplitLines | source/src/ports/POSIX/networkconfig.c:170-220 | The `for` loop over the lines `strtok_r` yields leaves domain name and name servers exactly as `Resolve` over `Tokens(text, 0, "\n")`. |
| NetworkConfig.ProcessResolvLine | source/src/ports/POSIX/networkconfig.c:182-219 | One pass of the switch changes the fields and the `p_dns` slot exactly as `ApplyLine` does. |
| NetworkConfig.ConfigureHostName | source/src/ports/POSIX/networkconfig.c:224-233 | When `gethostname` returns 0 the host name becomes the C string in the first 63 characters of the reply, so at most HOST_NAME_MAX - 1 characters; otherwise it is unchanged. |
| CString.CStr | source/src/ports/POSIX/networkconfig.c:157 | The C string of a buffer is a NUL-free prefix of it, followed by a NUL when shorter than the buffer. |
| CString.CStrOfTerminated | source/src/ports/POSIX/networkconfig.c:229 | A NUL written at position n bounds the C string to the first n characters, whatever follows. |
| CString.StrStr | source/src/ports/POSIX/networkconfig.c:99-100 | The result is an occurrence of the needle with no earlier occurrence; None exactly when there is no occurrence at all. |
| CString.NextToken | source/src/ports/POSIX/networkconfig.c:178 | The token found from `from` is preceded only by delimiters, contains none, and ends at a delimiter or the end; None exactly when only delimiters remain. |
| CString.Strtok | source/src/ports/POSIX/networkconfig.c:106-108 | The returned token contains no delimiter and ends the string left at the same address, which is a prefix of the original; null exactly when the string is all delimiters, and then the string is unchanged; otherwise the token runs from the first non-delimiter to the next delimiter and the string is cut at the token's end. |
| CString.Tokens | source/src/ports/POSIX/networkconfig.c:177-179 | The tokens a strtok_r loop hands out are non-empty and delimiter-free, so runs of newlines yield no empty line (which lines, in order: `CString.LinesOfText`). |
| CString.TokensAt | source/src/ports/POSIX/networkconfig.c:177-179 | Where a token is found, the loop hands it out and then the tokens from where the save pointer resumes. |
| CString.TokensAtNewline | source/src/ports/POSIX/networkconfig.c:177-179 | A newline where the scan resumes is skipped: the same lines follow from the next position. |
| CString.TokensAtLine | source/src/ports/POSIX/networkconfig.c:177-179 | Newline-free text ended by a newline or the end of the buffer is handed out as the next line. |
| CString.JoinLinesAt | source/src/ports/POSIX/networkconfig.c:177-179 | A text made of raw lines joined by newlines holds each raw line in place, each followed by a newline except the last. |
| CString.TokensOfLines | source/src/ports/POSIX/networkconfig.c:177-179 | Over raw lines in place, the strtok_r loop hands out exactly the non-empty ones, in order. |
| CString.LinesOfText | source/src/ports/POSIX/networkconfig.c:176-179 | Splitting a text with the strtok_r loop on newlines yields every non-empty line in order and nothing else; empty lines (runs of newlines, a leading or trailing newline) vanish. |
| CString.TokensStep | source/src/ports/POSIX/networkconfig.c:177-179 | One more strtok_r call appends exactly the next token to the tokens handed out so far. |
| CString.StrtokFromToken | source/src/ports/POSIX/networkconfig.c:106 | On a string starting with a non-delimiter, strtok_r returns the text up to the first delimiter and cuts the string there. |
| CString.StrtokWhole | source/src/ports/POSIX/networkconfig.c:107-108 | On a string without delimiters, strtok_r returns the whole string and leaves it unchanged. |
| Inet.ParseIPv4 | source/src/ports/POSIX/networkconfig.c:117 | A successful `inet_pton` yields exactly four octets. |
| Inet.ParseFormatRoundTrip | source/src/ports/POSIX/networkconfig.c:117 | Every four-octet address is accepted from its dotted-quad text and parses back to itself. |
| Inet.ParsedIsCanonical | source/src/ports/POSIX/networkconfig.c:205 | Every accepted text is the canonical dotted-quad text of its result, so parsing and formatting are inverse on accepted texts. |
| Inet.ParsedTextChars | source/src/ports/POSIX/networkconfig.c:117 | An accepted text holds only digits and dots. |
| Inet.OtherCharRejected | source/src/ports/POSIX/networkconfig.c:117 | A text with any other character is rejected. |
| Inet.HostWord | source/src/ports/POSIX/networkconfig.c:117-118 | The word a little-endian host reads from the four stored octets gives back each octet as one byte of it, the first octet the least significant (its use for the name servers is at `networkconfig.c:205`). |
| Inet.OctetText | source/src/ports/POSIX/networkconfig.c:205 | The canonical text of an octet is a valid field (1-3 digits, no leading zero) whose value is the octet. |
| RouteTable.FgetsLength | source/src/ports/POSIX/networkconfig.c:101 | `fgets` with the 100-byte buffer reads at most 99 characters, at least one unless the input is exhausted, and no newline before its last character; it stops only at the end of the input, after 99 characters, or just after a newline. |
| RouteTable.Chunks | source/src/ports/POSIX/networkconfig.c:97-102 | Every buffer load is non-empty and shorter than the buffer. |
| RouteTable.ChunksCover | source/src/ports/POSIX/networkconfig.c:97-102 | The buffer loads concatenate to the whole route file: nothing is skipped or read twice. |
| RouteTable.RouteMatch | source/src/ports/POSIX/networkconfig.c:95-102 | The text `needle_start` points to after the whole scan starts with the interface name and holds no NUL; `RouteTable.ScanChunksNone` and `RouteTable.ScanChunksFirst` say when there is one and which it is. |
| RouteTable.ScanChunks | source/src/ports/POSIX/networkconfig.c:97-102 | A match starts with the interface name and contains no NUL. |
| RouteTable.ScanStep | source/src/ports/POSIX/networkconfig.c:97-102 | One more `fgets`: the scan stops in the next load if it contains the name, and otherwise continues on the remaining input. |
| RouteTable.ScanChunksNone | source/src/ports/POSIX/networkconfig.c:104-114 | The scan finds nothing (the exit(1) path) if and only if no buffer load contains the name. |
| RouteTable.ScanChunksFirst | source/src/ports/POSIX/networkconfig.c:97-102 | The scan stops at the first load containing the name, at the first occurrence in it. |
| RouteTable.GatewayString | source/src/ports/POSIX/networkconfig.c:105-108 | A non-null `gateway_string` is a non-empty token without tabs; `RouteTable.GatewayStringDefined` says when it is non-null and `RouteTable.GatewayStringAtMatch` what it is. |
| RouteTable.GatewayStringDefined | source/src/ports/POSIX/networkconfig.c:105-108 | `gateway_string` is non-null exactly when the match holds a character other than a tab. |
| RouteTable.GatewayStringAtMatch | source/src/ports/POSIX/networkconfig.c:105-108 | When the match starts with a non-blank, `gateway_string` is the text from the match up to the first space or tab. |
| RouteTable.GatewayStringStartsWithName | source/src/ports/POSIX/networkconfig.c:105-108 | For a blank-free interface name, `gateway_string` begins with the interface name. |
| RouteTable.GatewayValue | source/src/ports/POSIX/networkconfig.c:117-127 | The stored gateway is never INADDR_LOOPBACK; it is 0 or the host word of the parse; it is that word whenever the text parses to something other than INADDR_LOOPBACK. |
| RouteTable.GatewayOfNamedInterface | source/src/ports/POSIX/networkconfig.c:104-127 | For a blank-free interface name holding a character other than a digit or a dot, a found route line always yields gateway 0. |
| RouteTable.LoopbackTextKept | source/src/ports/POSIX/networkconfig.c:117-120 | "127.0.0.1" is stored as 0x0100007F on a little-endian host. |
| RouteTable.ReversedLoopbackDropped | source/src/ports/POSIX/networkconfig.c:117-123 | "1.0.0.127" equals INADDR_LOOPBACK on a little-endian host and is stored as 0. |
| ResolvConf.LineKey | source/src/ports/POSIX/networkconfig.c:192-193 | The text compared with the keywords is the line cut where its first blank-separated token ends; for a line starting with a non-blank, the text up to the first space or tab. |
| ResolvConf.LineValue | source/src/ports/POSIX/networkconfig.c:194 | The value is the line's second blank-separated token, None when it has fewer than two; a value is non-empty and has no spaces or tabs. |
| ResolvConf.ApplyLine | source/src/ports/POSIX/networkconfig.c:182-219 | The switch on the first character: an `n` line never touches the domain name, a `d` or `s` line never touches the name servers or the slot, and any other line changes nothing; `ResolvConf.ApplyLineDomain`, `ResolvConf.ApplyLineNameserver` and `ResolvConf.OtherLinesIgnored` give its exact effect. |
| ResolvConf.Resolve | source/src/ports/POSIX/networkconfig.c:176-220 | A file with no line starting with `d`, `s` or `n` leaves the record as it was; `ResolvConf.DomainLastWins` and `ResolvConf.NameserverSlots` give the result for every file. |
| ResolvConf.StoreNameserver | source/src/ports/POSIX/networkconfig.c:205-215 | Storing a nameserver never touches the domain name. |
| ResolvConf.ApplyNameserverLine | source/src/ports/POSIX/networkconfig.c:201-218 | The `n` case never touches the domain name. |
| ResolvConf.ApplyDomainLine | source/src/ports/POSIX/networkconfig.c:189-199 | The `d`/`s` case never touches the name servers or the slot. |
| ResolvConf.NameserverDirective | source/src/ports/POSIX/networkconfig.c:202-205 | A parsed nameserver value has four octets. |
| ResolvConf.ResolveSnoc | source/src/ports/POSIX/networkconfig.c:177-180 | The fold over one more line is the loop body applied after the earlier lines. |
| ResolvConf.DomainValues | source/src/ports/POSIX/networkconfig.c:189-199 | Every domain value collected is a non-empty word without spaces or tabs. |
| ResolvConf.NameserverValues | source/src/ports/POSIX/networkconfig.c:201-205 | Every nameserver value that parsed has four octets. |
| ResolvConf.KeywordFixesFirst | source/src/ports/POSIX/networkconfig.c:182 | A line whose key is a keyword starts with the keyword's first letter, so the switch sends it to that keyword's case. |
| ResolvConf.ApplyLineDomain | source/src/ports/POSIX/networkconfig.c:182-199 | After any line, the domain name is the value of the line's `search`/`domain` directive if it has one, and unchanged otherwise. |
| ResolvConf.ApplyLineNameserver | source/src/ports/POSIX/networkconfig.c:182-218 | Apart from the domain name, any line acts exactly as its `nameserver` directive (if any) says. |
| ResolvConf.NameserverCase | source/src/ports/POSIX/networkconfig.c:201-218 | The same, for lines starting with `n`. |
| ResolvConf.OtherCases | source/src/ports/POSIX/networkconfig.c:183-199 | The same, for lines not starting with `n`: they leave name servers and slot alone. |
| ResolvConf.OtherLinesIgnored | source/src/ports/POSIX/networkconfig.c:182-219 | Comments, lines with another first character, wrong keywords and directives without a value leave the record unchanged. |
| ResolvConf.DomainLastWins | source/src/ports/POSIX/networkconfig.c:189-199 | After all lines, the domain name is the value of the last domain directive, or unchanged when there is none. |
| ResolvConf.SlotsAfterStore | source/src/ports/POSIX/networkconfig.c:205-215 | One more nameserver directive moves the record on as the slot description says. |
| ResolvConf.NameserverSlots | source/src/ports/POSIX/networkconfig.c:201-216 | Starting on `name_server`: the slot counts the nameserver directives with a value (including rejected ones) up to the scratch slot; `name_server` and `name_server_2` are set by the first and second such directive, each only when its value parses; later directives change nothing. |
| ResolvConf.SlotMonotone | source/src/ports/POSIX/networkconfig.c:207-215 | The slot only moves forward and never passes the scratch slot. |
| ResolvConf.ResolveIdempotent | source/src/ports/POSIX/networkconfig.c:170-220 | Parsing the same file again from the result reproduces the same domain name and name servers. |

## Left out

- Sockets, `ioctl`, `gethostname`, `fopen`/`fgets`/`fseek`/`ftell`/`fread`/`malloc` and `close`/`fclose`/`free` are not modelled as operations: their answers are method parameters. File descriptors are not modelled, so the descriptor left open by the early returns at `networkconfig.c:73` and `:79` is not represented.
- `CipTcpIpCalculateMulticastIp` (`networkconfig.c:131`) is not part of this model; its effect on the multicast configuration is not represented.
- `SetCipStringByCstr` is not part of this model; it is modelled as plain assignment of the C string.
- Trace macros (`OPENER_TRACE_ERR`, `OPENER_TRACE_INFO`) are left out; they have no effect on the state.
- `exit()` is the outcome `Fatal(code)`; the process ending is not modelled.
- NetworkConfig.ConfigureNetworkInterface: the failure to open `/proc/net/route` is not modelled (the route file is always given as its contents), because on that path the code passes a null `gateway_string` to `inet_pton` and calls `fclose(NULL)`.
- NetworkConfig.ConfigureNetworkInterface: requires a non-empty interface name and, when the scan finds it, a match holding a character other than a tab; exactly then `gateway_string` is non-null (`RouteTable.GatewayStringDefined`), and otherwise the code passes the null pointer to `inet_pton`. An empty name matches the zeroed buffer before the first read and leaves it null too.
- NetworkConfig.ConfigureNetworkInterface: for a name too long for `ifr_name` the code queries with an uninitialised request; the model takes the query answers as arbitrary inputs there rather than singling that branch out.
- NetworkConfig.ScanRouteTable: requires a non-empty interface name, as its caller does; with an empty name `strstr` would match the zeroed buffer before the first read.
- The NUL characters `strtok_r` writes into the buffers are modelled by positions and by the string left at the token's address, not by an updated buffer.
- A Dafny `char` stands for one byte: interface names and file texts are byte strings, so the 16-byte `ifr_name` limit (`networkconfig.c:34`), the 100-byte `fgets` buffer (`:101`) and the 64-byte host-name buffer (`:225-229`) match the code only for characters below 256; a multi-byte UTF-8 character is not modelled.
- Byte order is fixed to a little-endian host (`Inet.HostWord`); a big-endian host is not modelled.
