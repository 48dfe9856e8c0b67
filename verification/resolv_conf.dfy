/**
 * The resolv.conf parser of ConfigureDomainName as pure functions: the
 * lines strtok_r yields, what one line does to the record (the switch on
 * its first character), and the whole pass as a fold over the lines. A
 * second, independent description (the last domain directive wins; the
 * first two nameserver directives fill the two slots) is proved equal to it.
 */
module ResolvConf {
  import opened Wrappers
  import opened CString
  import opened Inet

  /**
   * What the parser writes -- domain_name, name_server, name_server_2 --
   * and the nameserver slot `p_dns` points to: 0 is name_server, 1 is
   * name_server_2, 2 (DUMMY_SLOT) is the scratch variable dmy_dns.
   */
  datatype DnsState = DnsState(domain: seq<char>, ns1: uint32, ns2: uint32, slot: nat)

  const DUMMY_SLOT: nat := 2

  /** The lines the outer strtok_r loop yields from the zero-terminated file buffer. */
  function Lines(text: seq<char>): seq<seq<char>>
  {
    Tokens(CStr(text), 0, NEWLINE)
  }

  /** `p_line[0]`: the first character, or the terminating NUL of an empty line. */
  function First(line: seq<char>): char
  {
    if line == [] then NUL else line[0]
  }

  /**
   * What `strcmp` compares after `strtok_r(p_line, " \t", &strtok_key)`:
   * the line cut where its first blank-separated token ends, which for a
   * line that starts with the keyword is the keyword itself.
   */
  function LineKey(line: seq<char>): (key: seq<char>)
    ensures key <= line
    ensures key == line[..SpanTo(line, SkipDelims(line, 0, SPACE_TAB), SPACE_TAB)]
    ensures |line| > 0 && line[0] !in SPACE_TAB ==> key == line[..SpanTo(line, 0, SPACE_TAB)]
  {
    Strtok(line, SPACE_TAB).1
  }

  /** What the following `strtok_r(NULL, " \t", &strtok_key)` returns: the second blank-separated token, if any. */
  function LineValue(line: seq<char>): (v: Option<seq<char>>)
    ensures v.Some? ==> 0 < |v.value| && forall j :: 0 <= j < |v.value| ==> v.value[j] !in SPACE_TAB
    ensures var ts := Tokens(line, 0, SPACE_TAB); v == if |ts| >= 2 then Some(ts[1]) else None
  {
    match NextToken(line, 0, SPACE_TAB)
    case None => None
    case Some((_, e)) =>
      match NextToken(line, Resume(line, e), SPACE_TAB)
      case None => None
      case Some((b, e2)) => Some(line[b..e2])
  }

  /** A `nameserver` value goes to the slot `p_dns` designates, which then moves on (and stays on the scratch slot). */
  function StoreNameserver(st: DnsState, parsed: Option<seq<byte>>): (r: DnsState)
    requires parsed.Some? ==> |parsed.value| == 4
    ensures r.domain == st.domain
  {
    var written :=
      match parsed
      case None => st
      case Some(octets) =>
        if st.slot == 0 then st.(ns1 := HostWord(octets))
        else if st.slot == 1 then st.(ns2 := HostWord(octets))
        else st;
    written.(slot := if st.slot != DUMMY_SLOT then (if st.slot == 0 then 1 else DUMMY_SLOT) else st.slot)
  }

  /** One pass of the loop body: the switch on the line's first character. */
  function ApplyLine(st: DnsState, line: seq<char>): (r: DnsState)
    ensures First(line) == 'n' ==> r.domain == st.domain
    ensures First(line) == 'd' || First(line) == 's' ==> r.ns1 == st.ns1 && r.ns2 == st.ns2 && r.slot == st.slot
    ensures First(line) !in {'d', 's', 'n'} ==> r == st
  {
    match First(line)
    case '#' => st
    case ';' => st
    case 'd' => ApplyDomainLine(st, line)
    case 's' => ApplyDomainLine(st, line)
    case 'n' => ApplyNameserverLine(st, line)
    case _ => st
  }

  /** The `n` case: a nameserver directive stores what inet_pton makes of its value; any other line changes nothing. */
  function ApplyNameserverLine(st: DnsState, line: seq<char>): (r: DnsState)
    ensures r.domain == st.domain
  {
    match NameserverDirective(line)
    case Some(parsed) => StoreNameserver(st, parsed)
    case None => st
  }

  /** The `d`/`s` case: a domain directive sets the domain name; any other line changes nothing. */
  function ApplyDomainLine(st: DnsState, line: seq<char>): (r: DnsState)
    ensures r.ns1 == st.ns1 && r.ns2 == st.ns2 && r.slot == st.slot
  {
    match DomainDirective(line)
    case Some(v) => st.(domain := v)
    case None => st
  }

  /** The value of a line that is a `search` or `domain` directive with a value, judged by its keyword alone. */
  function DomainDirective(line: seq<char>): Option<seq<char>>
  {
    if LineKey(line) == "search" || LineKey(line) == "domain" then LineValue(line) else None
  }

  /** For a `nameserver` directive with a value, judged by its keyword alone: what inet_pton makes of the value. */
  function NameserverDirective(line: seq<char>): (d: Option<Option<seq<byte>>>)
    ensures d.Some? && d.value.Some? ==> |d.value.value| == 4
  {
    if LineKey(line) == "nameserver" && LineValue(line).Some? then Some(ParseIPv4(LineValue(line).value)) else None
  }

  /** The record after the loop has processed `lines` in order, starting from `st`. */
  function Resolve(st: DnsState, lines: seq<seq<char>>): (r: DnsState)
    ensures (forall i | 0 <= i < |lines| :: First(lines[i]) !in {'d', 's', 'n'}) ==> r == st
    decreases |lines|
  {
    if lines == [] then st else ApplyLine(Resolve(st, lines[..|lines| - 1]), lines[|lines| - 1])
  }

  /** The fold processes one more line after the ones before it. */
  lemma ResolveSnoc(st: DnsState, lines: seq<seq<char>>, line: seq<char>)
    ensures Resolve(st, lines + [line]) == ApplyLine(Resolve(st, lines), line)
  {
    assert (lines + [line])[..|lines|] == lines;
  }

  // ---- The independent description ----

  /** The domain directives' values, in file order: each a non-empty word without spaces or tabs. */
  function DomainValues(lines: seq<seq<char>>): (vs: seq<seq<char>>)
    ensures forall k | 0 <= k < |vs| :: |vs[k]| > 0 && forall j | 0 <= j < |vs[k]| :: vs[k][j] !in SPACE_TAB
  {
    if lines == [] then []
    else
      var init := DomainValues(lines[..|lines| - 1]);
      match DomainDirective(lines[|lines| - 1])
      case Some(v) => init + [v]
      case None => init
  }

  /** The nameserver directives' parse results, in file order. */
  function NameserverValues(lines: seq<seq<char>>): (vs: seq<Option<seq<byte>>>)
    ensures forall k | 0 <= k < |vs| :: vs[k].Some? ==> |vs[k].value| == 4
  {
    if lines == [] then []
    else
      var init := NameserverValues(lines[..|lines| - 1]);
      match NameserverDirective(lines[|lines| - 1])
      case Some(p) => init + [p]
      case None => init
  }

  /** A keyword decides the first character: the switch dispatches every directive to its case. */
  lemma KeywordFixesFirst(line: seq<char>, keyword: seq<char>)
    requires LineKey(line) == keyword && |keyword| > 0
    ensures First(line) == keyword[0]
  {
  }

  /** The loop body changes the domain name exactly as the line's domain directive says. */
  lemma ApplyLineDomain(st: DnsState, line: seq<char>)
    ensures ApplyLine(st, line).domain == (match DomainDirective(line) case Some(v) => v case None => st.domain)
  {
    var c := First(line);
    if c == 'd' || c == 's' {
      assert ApplyLine(st, line) == ApplyDomainLine(st, line);
    } else {
      assert DomainDirective(line).None? by {
        if LineKey(line) == "search" {
          KeywordFixesFirst(line, "search");
        } else if LineKey(line) == "domain" {
          KeywordFixesFirst(line, "domain");
        }
      }
      assert ApplyLine(st, line).domain == st.domain by {
        if c == 'n' {
          assert ApplyLine(st, line) == ApplyNameserverLine(st, line);
        }
      }
    }
  }

  /** Apart from the domain name, the loop body acts exactly as the line's nameserver directive says. */
  lemma ApplyLineNameserver(st: DnsState, line: seq<char>)
    ensures ApplyLine(st, line).(domain := st.domain) == ApplyNameserverLine(st, line)
  {
    if First(line) == 'n' {
      NameserverCase(st, line);
    } else {
      OtherCases(st, line);
    }
  }

  lemma NameserverCase(st: DnsState, line: seq<char>)
    requires First(line) == 'n'
    ensures ApplyLine(st, line).(domain := st.domain) == ApplyNameserverLine(st, line)
  {
    assert ApplyLine(st, line) == ApplyNameserverLine(st, line);
  }

  /** Every case of the switch but `n` leaves the nameservers and the slot alone, and no nameserver directive reaches them. */
  lemma OtherCases(st: DnsState, line: seq<char>)
    requires First(line) != 'n'
    ensures ApplyLine(st, line).(domain := st.domain) == ApplyNameserverLine(st, line)
  {
    assert ApplyNameserverLine(st, line) == st by {
      if LineKey(line) == "nameserver" {
        KeywordFixesFirst(line, "nameserver");
      }
    }
  }

  /** Only domain and nameserver directives change anything: comments, other lines, wrong keywords and missing values leave the record as it was. */
  lemma OtherLinesIgnored(st: DnsState, line: seq<char>)
    requires DomainDirective(line).None? && NameserverDirective(line).None?
    ensures ApplyLine(st, line) == st
  {
    ApplyLineDomain(st, line);
    ApplyLineNameserver(st, line);
  }

  /** The domain name is the value of the last domain directive; without one it is left as it was. */
  lemma {:induction false} DomainLastWins(st: DnsState, lines: seq<seq<char>>)
    ensures var vs := DomainValues(lines);
      Resolve(st, lines).domain == if vs == [] then st.domain else vs[|vs| - 1]
  {
    if lines != [] {
      var init := lines[..|lines| - 1];
      DomainLastWins(st, init);
      ApplyLineDomain(Resolve(st, init), lines[|lines| - 1]);
    }
  }

  /**
   * What the record holds after the nameserver directives `vs`, starting
   * from `st` with `p_dns` on name_server: the slot counts them up to the
   * scratch slot, the first decides name_server and the second
   * name_server_2 (each only when its value parsed).
   */
  predicate SlotsAfter(r: DnsState, st: DnsState, vs: seq<Option<seq<byte>>>)
  {
    && r.slot == (if |vs| < DUMMY_SLOT then |vs| else DUMMY_SLOT)
    && r.ns1 == (if |vs| >= 1 && vs[0].Some? && |vs[0].value| == 4 then HostWord(vs[0].value) else st.ns1)
    && r.ns2 == (if |vs| >= 2 && vs[1].Some? && |vs[1].value| == 4 then HostWord(vs[1].value) else st.ns2)
  }

  /** One more nameserver directive moves the record on as SlotsAfter says. */
  lemma SlotsAfterStore(r: DnsState, st: DnsState, vs: seq<Option<seq<byte>>>, parsed: Option<seq<byte>>)
    requires SlotsAfter(r, st, vs)
    requires parsed.Some? ==> |parsed.value| == 4
    ensures SlotsAfter(StoreNameserver(r, parsed), st, vs + [parsed])
  {
    var vs' := vs + [parsed];
    assert |vs| >= 1 ==> vs'[0] == vs[0];
    assert |vs| >= 2 ==> vs'[1] == vs[1];
  }

  /**
   * Starting from name_server, the slot counts the nameserver directives
   * with a value, up to the scratch slot; the first such directive decides
   * name_server and the second name_server_2 -- each only when its value
   * parses -- and later ones change nothing.
   */
  lemma {:induction false} NameserverSlots(st: DnsState, lines: seq<seq<char>>)
    requires st.slot == 0
    ensures SlotsAfter(Resolve(st, lines), st, NameserverValues(lines))
  {
    if lines != [] {
      var init, last := lines[..|lines| - 1], lines[|lines| - 1];
      var prev := Resolve(st, init);
      NameserverSlots(st, init);
      assert Resolve(st, lines) == ApplyLine(prev, last);
      ApplyLineNameserver(prev, last);
      match NameserverDirective(last)
      case Some(parsed) =>
        assert NameserverValues(lines) == NameserverValues(init) + [parsed];
        SlotsAfterStore(prev, st, NameserverValues(init), parsed);
      case None =>
        assert NameserverValues(lines) == NameserverValues(init);
    }
  }

  /** The slot only moves forward and never passes the scratch slot. */
  lemma {:induction false} SlotMonotone(st: DnsState, lines: seq<seq<char>>)
    requires st.slot <= DUMMY_SLOT
    ensures st.slot <= Resolve(st, lines).slot <= DUMMY_SLOT
  {
    if lines != [] {
      var init := lines[..|lines| - 1];
      SlotMonotone(st, init);
      ApplyLineNameserver(Resolve(st, init), lines[|lines| - 1]);
    }
  }

  /** Running the parser again over the same file reproduces the same domain name and nameservers. */
  lemma ResolveIdempotent(st: DnsState, lines: seq<seq<char>>)
    requires st.slot == 0
    ensures var r := Resolve(st, lines); var again := Resolve(r.(slot := 0), lines);
      again.domain == r.domain && again.ns1 == r.ns1 && again.ns2 == r.ns2
  {
    var r := Resolve(st, lines);
    DomainLastWins(st, lines);
    DomainLastWins(r.(slot := 0), lines);
    NameserverSlots(st, lines);
    NameserverSlots(r.(slot := 0), lines);
  }
}
