/**
 * The routing-table scan of ConfigureNetworkInterface as pure functions:
 * how fgets cuts /proc/net/route into buffer loads, which buffer load the
 * scan stops at, which text the three strtok_r calls then pick as the
 * gateway string, and the value stored for it.
 */
module RouteTable {
  import opened Wrappers
  import opened CString
  import opened Inet

  /** The size of the scan's `file_buffer`; fgets stores at most one character less. */
  const FILE_BUFFER_SIZE: nat := 100

  /** How many characters of `rest` fgets has stored once it has stored `i` of them. */
  function FgetsFrom(rest: seq<char>, i: nat): (n: nat)
    requires i <= |rest| && i < FILE_BUFFER_SIZE
    ensures i <= n <= |rest| && n < FILE_BUFFER_SIZE
    ensures forall k :: i <= k < n - 1 ==> rest[k] != '\n'
    ensures n == |rest| || n == FILE_BUFFER_SIZE - 1 || (i < n && rest[n - 1] == '\n')
    decreases |rest| - i
  {
    if i == |rest| || i == FILE_BUFFER_SIZE - 1 then i
    else if rest[i] == '\n' then i + 1
    else FgetsFrom(rest, i + 1)
  }

  /**
   * fgets(file_buffer, 100, f) on the unread input `rest`: the number of
   * characters it stores -- through the first newline, at most 99, and
   * none at the end of the input (where it returns NULL).
   */
  function FgetsLength(rest: seq<char>): (n: nat)
    ensures n <= |rest| && n < FILE_BUFFER_SIZE
    ensures |rest| > 0 ==> n > 0
    ensures forall k :: 0 <= k < n - 1 ==> rest[k] != '\n'
    ensures n == |rest| || n == FILE_BUFFER_SIZE - 1 || (n > 0 && rest[n - 1] == '\n')
  {
    FgetsFrom(rest, 0)
  }

  function Flatten(cs: seq<seq<char>>): seq<char>
  {
    if cs == [] then [] else cs[0] + Flatten(cs[1..])
  }

  /**
   * The successive loads of the scan buffer: each fgets call's characters,
   * until the input is exhausted. Together they are the whole input.
   */
  function Chunks(route: seq<char>): (cs: seq<seq<char>>)
    ensures forall k | 0 <= k < |cs| :: 0 < |cs[k]| < FILE_BUFFER_SIZE
    decreases |route|
  {
    if route == [] then [] else var n := FgetsLength(route); [route[..n]] + Chunks(route[n..])
  }

  /** Together the buffer loads are the whole input: nothing is skipped or read twice. */
  lemma {:induction false} ChunksCover(route: seq<char>)
    ensures Flatten(Chunks(route)) == route
    decreases |route|
  {
    if route != [] {
      var n := FgetsLength(route);
      var cs := Chunks(route);
      ChunksCover(route[n..]);
      assert cs[0] == route[..n] && cs[1..] == Chunks(route[n..]);
      assert route[..n] + route[n..] == route;
    }
  }

  /**
   * The text `needle_start` points to when the scan ends over the buffer
   * loads `cs`: in the first load whose C string contains `name`, the text
   * from the first occurrence on. None when no load contains it.
   */
  function ScanChunks(cs: seq<seq<char>>, name: seq<char>): (m: Option<seq<char>>)
    ensures m.Some? ==> name <= m.value && NUL !in m.value
  {
    if cs == [] then None
    else
      var c := CStr(cs[0]);
      match StrStr(c, name)
      case Some(i) => Some(c[i..])
      case None => ScanChunks(cs[1..], name)
  }

  /** The scan looks at the first buffer load before the others. */
  lemma ScanChunksCons(c: seq<char>, cs: seq<seq<char>>, name: seq<char>)
    ensures ScanChunks([c] + cs, name)
         == match StrStr(CStr(c), name) case Some(i) => Some(CStr(c)[i..]) case None => ScanChunks(cs, name)
  {
    assert ([c] + cs)[0] == c && ([c] + cs)[1..] == cs;
  }

  /** One more fgets call: the scan of the unread input either stops in the next buffer load or goes on after it. */
  lemma ScanStep(rest: seq<char>, name: seq<char>)
    requires |rest| > 0
    ensures var n := FgetsLength(rest); var c := CStr(rest[..n]);
      ScanChunks(Chunks(rest), name)
      == match StrStr(c, name) case Some(i) => Some(c[i..]) case None => ScanChunks(Chunks(rest[n..]), name)
  {
    var n := FgetsLength(rest);
    assert Chunks(rest) == [rest[..n]] + Chunks(rest[n..]);
    ScanChunksCons(rest[..n], Chunks(rest[n..]), name);
  }

  /** The scan over the whole routing table. */
  function RouteMatch(route: seq<char>, name: seq<char>): (m: Option<seq<char>>)
    ensures m.Some? ==> name <= m.value && NUL !in m.value
  {
    ScanChunks(Chunks(route), name)
  }

  /** The buffer load `c` contains the interface name. */
  predicate LoadContains(c: seq<char>, name: seq<char>)
  {
    StrStr(CStr(c), name).Some?
  }

  /** The scan finds nothing exactly when no buffer load contains the name. */
  lemma {:induction false} ScanChunksNone(cs: seq<seq<char>>, name: seq<char>)
    ensures ScanChunks(cs, name).None? <==> forall k | 0 <= k < |cs| :: !LoadContains(cs[k], name)
  {
    if cs != [] {
      ScanChunksNone(cs[1..], name);
      assert forall k | 1 <= k < |cs| :: cs[k] == cs[1..][k - 1];
    }
  }

  /** The scan stops at the first buffer load that contains the name, at the name's first occurrence. */
  lemma {:induction false} ScanChunksFirst(cs: seq<seq<char>>, name: seq<char>, k: nat)
    requires k < |cs| && LoadContains(cs[k], name)
    requires forall j | 0 <= j < k :: !LoadContains(cs[j], name)
    ensures ScanChunks(cs, name) == Some(CStr(cs[k])[StrStr(CStr(cs[k]), name).value..])
  {
    if k > 0 {
      assert !LoadContains(cs[0], name);
      assert cs[1..][k - 1] == cs[k];
      ScanChunksFirst(cs[1..], name, k - 1);
    }
  }

  /**
   * `gateway_string` as the three strtok_r calls leave it: each call is
   * given `needle_start` again, so each restarts at the match; the first
   * two cut the text at the first space or tab, the third returns the
   * token at the match once more.
   */
  function GatewayString(m: seq<char>): (g: Option<seq<char>>)
    ensures g.Some? ==> 0 < |g.value| && forall j :: 0 <= j < |g.value| ==> g.value[j] != '\t'
  {
    var m1 := Strtok(m, SPACE_TAB).1;
    var m2 := Strtok(m1, SPACE_TAB).1;
    Strtok(m2, TAB).0
  }

  /** The gateway string is a real string (not NULL) exactly when the matched text holds a character other than a tab. */
  lemma GatewayStringDefined(m: seq<char>)
    ensures GatewayString(m).Some? <==> exists j :: 0 <= j < |m| && m[j] != '\t'
  {
    var (t1, m1) := Strtok(m, SPACE_TAB);
    var (t2, m2) := Strtok(m1, SPACE_TAB);
    assert GatewayString(m) == Strtok(m2, TAB).0;
    if exists j :: 0 <= j < |m| && m[j] != '\t' {
      if t1.Some? {
        assert m1[|m1| - 1] !in SPACE_TAB;
        assert t2.Some?;
        assert m2[|m2| - 1] !in TAB;
      } else {
        var j :| 0 <= j < |m| && m[j] != '\t';
        assert m2 == m && m[j] !in TAB;
      }
    } else {
      assert forall j :: 0 <= j < |m| ==> m[j] in TAB;
      assert t1.None? && m2 == m;
    }
  }

  /**
   * When the match starts with a non-blank character, the gateway string
   * is the token at the match: the text up to the next space or tab.
   */
  lemma GatewayStringAtMatch(m: seq<char>)
    requires |m| > 0 && m[0] !in SPACE_TAB
    ensures GatewayString(m) == Some(m[..SpanTo(m, 0, SPACE_TAB)])
  {
    var e := SpanTo(m, 0, SPACE_TAB);
    var m1 := m[..e];
    StrtokFromToken(m, SPACE_TAB);
    StrtokWhole(m1, SPACE_TAB);
    StrtokWhole(m1, TAB);
  }

  /**
   * For an interface name without blanks, the gateway string begins with
   * the interface name itself: the scan never reaches the Gateway column.
   */
  lemma GatewayStringStartsWithName(m: seq<char>, name: seq<char>)
    requires name <= m && |name| > 0
    requires forall j :: 0 <= j < |name| ==> name[j] !in SPACE_TAB
    ensures GatewayString(m).Some? && name <= GatewayString(m).value
  {
    GatewayStringAtMatch(m);
    var e := SpanTo(m, 0, SPACE_TAB);
    assert m[|name| - 1] == name[|name| - 1];
    assert |name| <= e;
  }

  /**
   * The value the scan stores in the gateway field for the gateway string:
   * the inet_pton result unless the text is rejected or the result equals
   * the constant INADDR_LOOPBACK; 0 in those two cases.
   */
  function GatewayValue(token: seq<char>): (g: uint32)
    ensures g != INADDR_LOOPBACK
    ensures g == 0 || (ParseIPv4(token).Some? && g == HostWord(ParseIPv4(token).value))
    ensures ParseIPv4(token).Some? && HostWord(ParseIPv4(token).value) != INADDR_LOOPBACK ==> g == HostWord(ParseIPv4(token).value)
  {
    match ParseIPv4(token)
    case Some(octets) =>
      var w := HostWord(octets);
      if INADDR_LOOPBACK != w then w else 0
    case None => 0
  }

  /**
   * For an interface name without blanks that holds a character other than
   * a digit or a dot (any name such as "eth0"), the gateway string never
   * parses, so the gateway stored for a matching route line is 0.
   */
  lemma GatewayOfNamedInterface(route: seq<char>, name: seq<char>)
    requires RouteMatch(route, name).Some?
    requires |name| > 0 && forall j :: 0 <= j < |name| ==> name[j] !in SPACE_TAB
    requires exists j :: 0 <= j < |name| && !IsDigit(name[j]) && name[j] != '.'
    ensures GatewayString(RouteMatch(route, name).value).Some?
    ensures GatewayValue(GatewayString(RouteMatch(route, name).value).value) == 0
  {
    var m := RouteMatch(route, name).value;
    GatewayStringStartsWithName(m, name);
    var token := GatewayString(m).value;
    var j :| 0 <= j < |name| && !IsDigit(name[j]) && name[j] != '.';
    assert token[j] == name[j];
    OtherCharRejected(token, j);
  }

  /**
   * The loopback test compares the stored octets with INADDR_LOOPBACK as a
   * host-order number: on a little-endian host "127.0.0.1" is kept, as
   * 0x0100007F ...
   */
  lemma LoopbackTextKept()
    ensures GatewayValue("127.0.0.1") == 0x0100_007F
  {
    var o: seq<byte> := [127, 0, 0, 1];
    assert OctetText(127) == "127" && OctetText(0) == "0" && OctetText(1) == "1";
    assert FormatIPv4(o) == "127.0.0.1";
    ParseFormatRoundTrip(o);
  }

  /** ... and it is the reversed text "1.0.0.127" that is turned into 0. */
  lemma ReversedLoopbackDropped()
    ensures GatewayValue("1.0.0.127") == 0
  {
    var o: seq<byte> := [1, 0, 0, 127];
    assert OctetText(127) == "127" && OctetText(0) == "0" && OctetText(1) == "1";
    assert FormatIPv4(o) == "1.0.0.127";
    ParseFormatRoundTrip(o);
  }
}
