/** The printer and the parser of discovery announcements. */
module Discovery {
  import opened Basics
  import opened Text

  const PREFIX: string := "korik"
  const TCP: string := "tcp"
  const UDP: string := "udp"
  const BAR: char := '|'

  datatype Parsed = Parsed(jid: string, transport: string, ip: string, port: string, device: string)

  function Transport(t: string): string { if t != TCP && t != UDP then TCP else t }

  /** BuildDiscoveryPayload: the six-field format. */
  function Build(jid: string, transport: string, ip: string, port: int, device: string): string {
    PREFIX + "|" + jid + "|" + Transport(transport) + "|" + ip + "|" + Itoa(port) + "|" + device
  }

  predicate ValidPort(port: string) {
    match Atoi(port) case None => false case Some(n) => 0 < n <= 65535
  }

  function IndexOf(s: string, c: char): nat {
    if s == [] || s[0] == c then 0 else 1 + IndexOf(s[1..], c)
  }

  lemma {:induction false} IndexOfBounded(s: string, c: char)
    ensures IndexOf(s, c) <= |s|
    ensures c in s ==> IndexOf(s, c) < |s| && s[IndexOf(s, c)] == c
  {
    if s != [] && s[0] != c {
      IndexOfBounded(s[1..], c);
    }
  }

  function TrimBrackets(s: string): string
    decreases |s|
  {
    if s != [] && (s[0] == '[' || s[0] == ']') then TrimBrackets(s[1..])
    else if s != [] && (s[|s| - 1] == '[' || s[|s| - 1] == ']') then TrimBrackets(s[..|s| - 1])
    else s
  }

  /** stripZone: drops an IPv6 zone, or else surrounding brackets. */
  function StripZone(ip: string): string {
    IndexOfBounded(ip, '%');
    if '%' in ip then ip[..IndexOf(ip, '%')] else TrimBrackets(ip)
  }

  /** The fields of an announcement, new or legacy; `literal` decides what is an IP address. */
  function FromParts(literal: string -> bool, parts: seq<string>): Option<Parsed> {
    if |parts| < 3 || parts[0] != PREFIX then None
    else
      var jid := TrimSpace(parts[1]);
      if jid == "" then None
      else if |parts| <= 4 then
        var d := Parsed(jid, TCP, "", TrimSpace(parts[2]), if |parts| == 4 then TrimSpace(parts[3]) else "");
        if ValidPort(d.port) then Some(d) else None
      else
        var transport := ToLower(TrimSpace(parts[2]));
        var d := Parsed(jid, transport, TrimSpace(parts[3]), TrimSpace(parts[4]),
                        if |parts| >= 6 then TrimSpace(parts[5]) else "");
        if (transport != TCP && transport != UDP) || !literal(StripZone(d.ip)) || !ValidPort(d.port) then None
        else Some(d)
  }

  /** ParseDiscoveryPayload. */
  function Parse(literal: string -> bool, payload: string): Option<Parsed> {
    FromParts(literal, Split(TrimSpace(payload), BAR))
  }

  /** A text that survives trimming and splitting. */
  predicate Clean(s: string) { Trimmed(s) && BAR !in s }

  lemma TrimmedPartClean(payload: string, i: nat)
    requires i < |Split(TrimSpace(payload), BAR)|
    ensures Clean(TrimSpace(Split(TrimSpace(payload), BAR)[i]))
  {
    SplitFieldsLackSep(TrimSpace(payload), BAR);
    TrimSpaceMeaning(Split(TrimSpace(payload), BAR)[i]);
  }

  /**
    Whatever is accepted, new format or legacy, has a name, a known transport, a port
    in range, clean fields, and an IP literal unless it is a legacy announcement.
   */
  lemma AcceptedIsSane(literal: string -> bool, payload: string)
    ensures var r := Parse(literal, payload);
            r.Some? ==>
              && r.value.jid != "" && Clean(r.value.jid) && Clean(r.value.ip) && Clean(r.value.port) && Clean(r.value.device)
              && (r.value.transport == TCP || r.value.transport == UDP)
              && ValidPort(r.value.port)
              && ((r.value.ip == "" && r.value.transport == TCP) || literal(StripZone(r.value.ip)))
  {
    var parts := Split(TrimSpace(payload), BAR);
    forall i | 0 <= i < |parts| ensures Clean(TrimSpace(parts[i])) {
      TrimmedPartClean(payload, i);
    }
  }

  /** Nothing else is accepted: the prefix comes first and at least two fields follow. */
  lemma AcceptedHasPrefix(literal: string -> bool, payload: string)
    requires Parse(literal, payload).Some?
    ensures var parts := Split(TrimSpace(payload), '|'); |parts| >= 3 && parts[0] == "korik"
  {
  }

  lemma DigitsAreClean(port: int)
    ensures Clean(Itoa(port))
  {
    ParseFormatNat(if port < 0 then -port else port);
  }

  lemma {:induction false} JoinEnds(fields: seq<string>)
    requires |fields| >= 2
    ensures var s, last := Join(fields, BAR), fields[|fields| - 1];
            s != [] && s[|s| - 1] == if last == "" then BAR else last[|last| - 1]
    decreases |fields|
  {
    var rest := fields[1..];
    if |fields| > 2 {
      JoinEnds(rest);
    } else {
      assert Join(rest, BAR) == rest[0];
    }
  }

  lemma JoinStarts(fields: seq<string>)
    requires |fields| >= 2 && fields[0] != ""
    ensures Join(fields, BAR) != [] && Join(fields, BAR)[0] == fields[0][0]
  {
  }

  lemma NoSpaces()
    ensures !IsSpace('k') && !IsSpace(BAR)
  {
  }

  lemma JoinTrimmed(fields: seq<string>)
    requires |fields| >= 2 && fields[0] == PREFIX && Trimmed(fields[|fields| - 1])
    ensures Trimmed(Join(fields, BAR))
  {
    JoinEnds(fields);
    JoinStarts(fields);
    NoSpaces();
  }

  /** Clean fields behind the prefix come back from a payload. */
  lemma JoinedSplits(fields: seq<string>)
    requires |fields| >= 2 && fields[0] == PREFIX && forall i :: 0 <= i < |fields| ==> Clean(fields[i])
    ensures Split(TrimSpace(Join(fields, BAR)), BAR) == fields
  {
    assert Clean(fields[|fields| - 1]);
    JoinTrimmed(fields);
    TrimNothing(Join(fields, BAR));
    SplitJoin(fields, BAR);
  }

  /** A built payload is the six fields joined by bars; an unknown transport becomes tcp. */
  lemma BuildIsJoin(jid: string, transport: string, ip: string, port: int, device: string)
    ensures Build(jid, transport, ip, port, device) ==
            Join(["korik", jid, if transport == "udp" then "udp" else "tcp", ip, Itoa(port), device], '|')
  {
    JoinSix(PREFIX, jid, Transport(transport), ip, Itoa(port), device);
  }

  /** A built payload splits into the fields it was built from. */
  lemma BuiltSplits(jid: string, transport: string, ip: string, port: int, device: string)
    requires Clean(jid) && Clean(ip) && Clean(device)
    ensures var payload := Build(jid, transport, ip, port, device);
            Split(TrimSpace(payload), BAR) == [PREFIX, jid, Transport(transport), ip, Itoa(port), device]
  {
    BuildIsJoin(jid, transport, ip, port, device);
    DigitsAreClean(port);
    JoinedSplits([PREFIX, jid, Transport(transport), ip, Itoa(port), device]);
  }

  lemma JoinSix(a: string, b: string, c: string, d: string, e: string, f: string)
    ensures Join([a, b, c, d, e, f], BAR) == a + "|" + b + "|" + c + "|" + d + "|" + e + "|" + f
  {
    assert [a, b, c, d, e, f][1..] == [b, c, d, e, f];
    assert [b, c, d, e, f][1..] == [c, d, e, f];
    assert [c, d, e, f][1..] == [d, e, f];
    assert [d, e, f][1..] == [e, f];
    assert [e, f][1..] == [f];
    assert Join([e, f], BAR) == e + "|" + f;
    assert Join([d, e, f], BAR) == d + "|" + (e + "|" + f);
    assert Join([c, d, e, f], BAR) == c + "|" + (d + "|" + (e + "|" + f));
    assert Join([b, c, d, e, f], BAR) == b + "|" + (c + "|" + (d + "|" + (e + "|" + f)));
  }

  /** What parsing makes of a payload built from clean fields. */
  lemma ParseBuilt(literal: string -> bool, jid: string, transport: string, ip: string, port: int, device: string)
    requires Clean(jid) && Clean(ip) && Clean(device)
    ensures Parse(literal, Build(jid, transport, ip, port, device)) ==
            if jid != "" && literal(StripZone(ip)) && 1 <= port <= 65535
            then Some(Parsed(jid, Transport(transport), ip, Itoa(port), device)) else None
  {
    BuiltSplits(jid, transport, ip, port, device);
    DigitsAreClean(port);
    PortInRange(port);
    SixParts(literal, jid, Transport(transport), ip, Itoa(port), device);
  }

  lemma PortInRange(port: int)
    ensures ValidPort(Itoa(port)) <==> 1 <= port <= 65535
  {
    AtoiItoa(port);
  }

  lemma SixParts(literal: string -> bool, jid: string, transport: string, ip: string, port: string, device: string)
    requires Clean(jid) && Clean(ip) && Clean(port) && Clean(device) && (transport == TCP || transport == UDP)
    ensures FromParts(literal, [PREFIX, jid, transport, ip, port, device]) ==
            if jid != "" && literal(StripZone(ip)) && ValidPort(port)
            then Some(Parsed(jid, transport, ip, port, device)) else None
  {
    TrimNothing(jid);
    TrimNothing(ip);
    TrimNothing(device);
    TrimNothing(port);
    KnownTransport(transport);
    TrimNothing(transport);
  }

  lemma KnownTransport(transport: string)
    requires transport == TCP || transport == UDP
    ensures Trimmed(transport) && ToLower(transport) == transport
  {
  }

  lemma TrimNothing(s: string)
    requires Trimmed(s)
    ensures TrimSpace(s) == s
  {
  }

  /**
    Round trip, exactly: parsing a built payload gives back its fields if and only if
    the name is not empty, the fields are clean, the IP is a literal and the port is
    in range.
   */
  lemma RoundTripIff(literal: string -> bool, jid: string, transport: string, ip: string, port: int, device: string)
    ensures Parse(literal, Build(jid, transport, ip, port, device))
              == Some(Parsed(jid, Transport(transport), ip, Itoa(port), device))
            <==>
            && jid != "" && Clean(jid) && Clean(ip) && Clean(device)
            && literal(StripZone(ip)) && 1 <= port <= 65535
  {
    AcceptedIsSane(literal, Build(jid, transport, ip, port, device));
    if Clean(jid) && Clean(ip) && Clean(device) {
      ParseBuilt(literal, jid, transport, ip, port, device);
    }
  }

  // ---------------------------------------------------------------------------
  // The shorter formats, and the zone of an address.
  // ---------------------------------------------------------------------------

  /** korik|jid|port: a legacy announcement, over TCP and without an IP. */
  lemma ParseThreeFields(literal: string -> bool, jid: string, port: string)
    requires Clean(jid) && Clean(port)
    ensures Parse(literal, Join(["korik", jid, port], '|')) ==
            if jid != "" && ValidPort(port) then Some(Parsed(jid, "tcp", "", port, "")) else None
  {
    JoinedSplits(["korik", jid, port]);
    TrimNothing(jid);
    TrimNothing(port);
  }

  /** korik|jid|port|device: the same with a device. */
  lemma ParseFourFields(literal: string -> bool, jid: string, port: string, device: string)
    requires Clean(jid) && Clean(port) && Clean(device)
    ensures Parse(literal, Join(["korik", jid, port, device], '|')) ==
            if jid != "" && ValidPort(port) then Some(Parsed(jid, "tcp", "", port, device)) else None
  {
    JoinedSplits(["korik", jid, port, device]);
    TrimNothing(jid);
    TrimNothing(port);
    TrimNothing(device);
  }

  /** korik|jid|transport|ip|port: the new format without a device; the transport in any case. */
  lemma ParseFiveFields(literal: string -> bool, jid: string, transport: string, ip: string, port: string)
    requires Clean(jid) && Clean(transport) && Clean(ip) && Clean(port)
    ensures Parse(literal, Join(["korik", jid, transport, ip, port], '|')) ==
            if jid != "" && (ToLower(transport) == "tcp" || ToLower(transport) == "udp")
               && literal(StripZone(ip)) && ValidPort(port)
            then Some(Parsed(jid, ToLower(transport), ip, port, "")) else None
  {
    JoinedSplits(["korik", jid, transport, ip, port]);
    TrimNothing(jid);
    TrimNothing(transport);
    TrimNothing(ip);
    TrimNothing(port);
  }

  /** Upper case transports are read as lower case. */
  lemma TransportExample()
    ensures ToLower("TCP") == "tcp" && ToLower("Udp") == "udp"
  {
  }

  lemma {:induction false} IndexOfFirst(a: string, c: char, b: string)
    requires c !in a
    ensures IndexOf(a + [c] + b, c) == |a|
  {
    if a != [] {
      assert (a + [c] + b)[1..] == a[1..] + [c] + b;
      assert a[0] in a;
      IndexOfFirst(a[1..], c, b);
    }
  }

  predicate IsBracket(c: char) { c == '[' || c == ']' }

  /** Not empty and without a bracket at either end. */
  predicate Bare(s: string) { s != "" && !IsBracket(s[0]) && !IsBracket(s[|s| - 1]) }

  /** A zone goes, or else surrounding brackets; a bare address stays. */
  lemma StripZoneMeaning(ip: string, zone: string)
    ensures '%' !in ip ==> StripZone(ip + "%" + zone) == ip
    ensures '%' !in ip && Bare(ip) ==> StripZone("[" + ip + "]") == ip && StripZone(ip) == ip
  {
    if '%' !in ip {
      IndexOfFirst(ip, '%', zone);
      assert (ip + "%" + zone)[|ip|] == '%';
      if Bare(ip) {
        BracketsGo(ip);
        assert '%' !in "[" + ip + "]";
      }
    }
  }

  lemma BracketsGo(ip: string)
    requires Bare(ip)
    ensures TrimBrackets("[" + ip + "]") == ip && TrimBrackets(ip) == ip
  {
    var s := "[" + ip + "]";
    assert s[1..] == ip + "]";
    assert (ip + "]")[0] == ip[0] && (ip + "]")[..|ip|] == ip;
    assert TrimBrackets(ip + "]") == TrimBrackets(ip);
  }
}
