/** update53.go: one update cycle of the Route 53 record and the hosted-zone
    lookup it needs. The AWS calls are inputs (`Environment`); the one-shot
    channels of the source become return values, consumed in the same order. */
module Update53 {
  import opened Errors
  import opened Strings
  import opened PublicIp

  /** One element of `ListHostedZones`' `HostedZones`. */
  datatype HostedZone = HostedZone(name: string, id: string)

  /** What `ListHostedZones` gave back: an error, or the (first page of) zones in provider order. */
  datatype ZoneListing = ListFailed(err: Error) | Listed(zones: seq<HostedZone>)

  /** The `futureAns` struct. */
  datatype FutureAns = FutureAns(s: string, e: Option<Error>)

  /** One `route53.Change` with its single `ResourceRecordSet`. */
  datatype Change = Change(action: string, name: string, rtype: string, ttl: int, values: seq<string>)

  /** `route53.ChangeResourceRecordSetsInput`. */
  datatype ChangeRequest = ChangeRequest(zoneId: string, comment: string, changes: seq<Change>)

  /** The outcomes of the external calls a cycle may make. */
  datatype Environment = Environment(
    http: HttpOutcome,                // getFromURL's GET and read
    metadata: (string, Option<Error>), // ec2metadata GetMetadata("public-ipv4")
    listing: ZoneListing,             // ListHostedZones
    changeErr: Option<Error>)         // ChangeResourceRecordSets

  /** An external step a cycle takes, in order: resolving the address (from
      `source`), resolving the zone (`listed` when `ListHostedZones` is
      called), and submitting a change. */
  datatype Call = AddressLookup(source: Source) | ZoneLookup(listed: bool) | DnsChange(req: ChangeRequest)

  /** What the cycle sends on `errChan`: nothing, or one error that may be nil. */
  datatype Report = Silent | Sent(err: Option<Error>)

  /** The fields of `update53` that a cycle reads or writes. */
  datatype State = State(previousip: string, forceip: string, getip: string, hostname: string, hostedzone: string)

  /** The outcome of a cycle: its report, the state after it, the calls it made. */
  datatype Step = Step(report: Report, state: State, calls: seq<Call>)

  /** The index of the first zone, in list order, whose name is a suffix of `hostname`. */
  function FirstMatch(hostname: string, zones: seq<HostedZone>): (r: Option<nat>)
    ensures r.Some? ==> r.value < |zones| && HasSuffix(hostname, zones[r.value].name)
    ensures r.Some? ==> forall j :: 0 <= j < r.value ==> !HasSuffix(hostname, zones[j].name)
    ensures r.None? ==> forall j :: 0 <= j < |zones| ==> !HasSuffix(hostname, zones[j].name)
  {
    if zones == [] then None
    else if HasSuffix(hostname, zones[0].name) then Some(0)
    else match FirstMatch(hostname, zones[1..])
      case None => None
      case Some(k) => Some(k + 1)
  }

  /** The answer `getHostedZoneID` sends. */
  function HostedZoneIdOf(hostname: string, hz: string, listing: ZoneListing): (r: FutureAns)
    ensures hz != "" ==> r == FutureAns(hz, None)
    ensures hz == "" && listing.ListFailed? ==> r == FutureAns("", Some(listing.err))
    ensures hz == "" && listing.Listed? ==>
      match FirstMatch(hostname, listing.zones)
      case None => r == FutureAns("", Some(NoHostedZone))
      case Some(i) => r == FutureAns(listing.zones[i].id, None)
  {
    if hz != "" then FutureAns(hz, None)
    else match listing
      case ListFailed(err) => FutureAns("", Some(err))
      case Listed(zones) =>
        match FirstMatch(hostname, zones)
        case None => FutureAns("", Some(NoHostedZone))
        case Some(i) => FutureAns(zones[i].id, None)
  }

  /** `getHostedZoneID`: an explicit id verbatim, else a first-match scan of
      the listed zones. `listed` tells whether `ListHostedZones` was called. */
  method GetHostedZoneID(hostname: string, hz: string, listing: ZoneListing)
    returns (r: FutureAns, ghost listed: bool)
    ensures listed <==> hz == ""
    ensures r == HostedZoneIdOf(hostname, hz, listing)
  {
    listed := false;
    if hz != "" {
      return FutureAns(hz, None), listed;
    }
    listed := true;
    if listing.ListFailed? {
      return FutureAns("", Some(listing.err)), listed;
    }
    var zones := listing.zones;
    var hzid: Option<string> := None;
    var i := 0;
    while i < |zones|
      invariant 0 <= i <= |zones|
      invariant hzid == None
      invariant forall j :: 0 <= j < i ==> !HasSuffix(hostname, zones[j].name)
    {
      if HasSuffix(hostname, zones[i].name) {
        hzid := Some(zones[i].id);
        break;
      }
      i := i + 1;
    }
    if hzid == None {
      r := FutureAns("", Some(NoHostedZone));
    } else {
      assert FirstMatch(hostname, zones) == Some(i);
      r := FutureAns(hzid.value, None);
    }
  }

  /** The hostname with a trailing "." unless it already ends with one. */
  function Normalize(hostname: string): (r: string)
    ensures HasSuffix(r, ".")
    ensures HasSuffix(hostname, ".") ==> r == hostname
    ensures !HasSuffix(hostname, ".") ==> r == hostname + "."
  {
    if HasSuffix(hostname, ".") then hostname else hostname + "."
  }

  lemma NormalizeIdempotent(hostname: string)
    ensures Normalize(Normalize(hostname)) == Normalize(hostname)
  {
  }

  /** The request built at update53.go:150-170. */
  function UpsertRequest(zoneId: string, hostname: string, ip: string): (r: ChangeRequest)
    ensures r.zoneId == zoneId && r.comment == "Update53" && |r.changes| == 1
    ensures r.changes[0].action == "UPSERT" && r.changes[0].rtype == "A" && r.changes[0].ttl == 300
    ensures r.changes[0].name == hostname && r.changes[0].values == [ip]
  {
    ChangeRequest(zoneId, "Update53", [Change("UPSERT", hostname, "A", 300, [ip])])
  }

  /** One run of `updatehostname` on the state `st`. A cycle normalises a
      non-empty hostname and changes no configuration field. */
  function Cycle(st: State, env: Environment, parse: IpParser): (r: Step)
    ensures r.state.forceip == st.forceip && r.state.getip == st.getip && r.state.hostedzone == st.hostedzone
    ensures r.state.hostname == if st.hostname == "" then "" else Normalize(st.hostname)
  {
    if st.hostname == "" then Step(Sent(Some(InvalidHostname)), st, [])
    else
      var named := st.(hostname := Normalize(st.hostname));
      if st.forceip != "" && !parse(st.forceip) then Step(Sent(Some(InvalidForceIp(st.forceip))), named, [])
      else
        var pub := ResolvePublicIp(st.forceip, st.getip, env.http, env.metadata, parse);
        var asked := [AddressLookup(SourceOf(st.forceip, st.getip))];
        if pub.e != None then Step(Sent(pub.e), named, asked)
        else if st.previousip == pub.ip then Step(Silent, named, asked)
        else
          var zone := HostedZoneIdOf(named.hostname, st.hostedzone, env.listing);
          var looked := asked + [ZoneLookup(st.hostedzone == "")];
          if zone.e != None then Step(Sent(zone.e), named, looked)
          else
            Step(Sent(env.changeErr), named.(previousip := pub.ip),
                 looked + [DnsChange(UpsertRequest(zone.s, named.hostname, pub.ip))])
  }

  /** The `update53` struct; `UpdateHostname` is `updatehostname`. */
  class Updater {
    var previousip: string
    var forceip: string
    var getip: string
    var hostname: string
    var hostedzone: string
    var daemon: bool
    var verbose: bool
    var debug: bool

    /** The configuration read from the flags, with no address cached yet. */
    constructor (forceip: string, getip: string, hostname: string, hostedzone: string,
                 daemon: bool, verbose: bool, debug: bool)
      ensures Snapshot() == State("", forceip, getip, hostname, hostedzone)
      ensures this.daemon == daemon && this.verbose == verbose && this.debug == debug
    {
      this.previousip := "";
      this.forceip := forceip;
      this.getip := getip;
      this.hostname := hostname;
      this.hostedzone := hostedzone;
      this.daemon := daemon;
      this.verbose := verbose;
      this.debug := debug;
    }

    function Snapshot(): State
      reads this
    {
      State(previousip, forceip, getip, hostname, hostedzone)
    }

    /** One update cycle. Only `hostname` (normalised) and `previousip` (the
        address cache) change; `calls` is the ghost log of external steps. */
    method UpdateHostname(env: Environment, parse: IpParser) returns (report: Report, ghost calls: seq<Call>)
      modifies this`hostname, this`previousip
      ensures Step(report, Snapshot(), calls) == Cycle(old(Snapshot()), env, parse)
    {
      calls := [];
      if hostname == "" {
        return Sent(Some(InvalidHostname)), calls;
      }
      if !HasSuffix(hostname, ".") {
        hostname := hostname + ".";
      }
      if forceip != "" {
        if !parse(forceip) {
          return Sent(Some(InvalidForceIp(forceip))), calls;
        }
      }
      var publicIP, source := GetPublicIP(forceip, getip, env.http, env.metadata, parse);
      calls := calls + [AddressLookup(source)];
      if publicIP.e != None {
        return Sent(publicIP.e), calls;
      }
      if previousip == publicIP.ip {
        return Silent, calls;
      }
      var hzID, listed := GetHostedZoneID(hostname, hostedzone, env.listing);
      calls := calls + [ZoneLookup(listed)];
      if hzID.e != None {
        return Sent(hzID.e), calls;
      }
      var params := ChangeRequest(hzID.s, "Update53", [Change("UPSERT", hostname, "A", 300, [publicIP.ip])]);
      calls := calls + [DnsChange(params)];
      report := Sent(env.changeErr);
      previousip := publicIP.ip;
    }
  }

  predicate Changed(calls: seq<Call>)
  {
    exists i :: 0 <= i < |calls| && calls[i].DnsChange?
  }

  predicate ZoneLooked(calls: seq<Call>)
  {
    exists i :: 0 <= i < |calls| && calls[i].ZoneLookup?
  }

  /** An empty hostname, or a forced address that does not parse, is reported
      as an error before any external step, and the cache is untouched. */
  lemma InvalidConfigurationStops(st: State, env: Environment, parse: IpParser)
    requires st.hostname == "" || (st.forceip != "" && !parse(st.forceip))
    ensures var r := Cycle(st, env, parse);
      r.calls == [] && r.state.previousip == st.previousip
      && r.report == Sent(Some(if st.hostname == "" then InvalidHostname else InvalidForceIp(st.forceip)))
  {
  }

  /** An address error is the cycle's report; no zone lookup and no change follow. */
  lemma AddressErrorStops(st: State, env: Environment, parse: IpParser)
    requires st.hostname != "" && (st.forceip == "" || parse(st.forceip))
    requires ResolvePublicIp(st.forceip, st.getip, env.http, env.metadata, parse).e != None
    ensures var r := Cycle(st, env, parse);
      r.report == Sent(ResolvePublicIp(st.forceip, st.getip, env.http, env.metadata, parse).e)
      && r.calls == [AddressLookup(SourceOf(st.forceip, st.getip))]
      && r.state.previousip == st.previousip
  {
  }

  /** An address equal to the cached one ends the cycle silently after the address lookup. */
  lemma UnchangedAddressIsSilent(st: State, env: Environment, parse: IpParser)
    requires st.hostname != "" && (st.forceip == "" || parse(st.forceip))
    requires ResolvePublicIp(st.forceip, st.getip, env.http, env.metadata, parse) == PublicIP(st.previousip, None)
    ensures var r := Cycle(st, env, parse);
      r.report == Silent && !ZoneLooked(r.calls) && !Changed(r.calls) && r.state.previousip == st.previousip
  {
  }

  /** A zone error is the cycle's report; no change is submitted and the cache is untouched. */
  lemma ZoneErrorStops(st: State, env: Environment, parse: IpParser)
    requires st.hostname != "" && (st.forceip == "" || parse(st.forceip))
    requires var pub := ResolvePublicIp(st.forceip, st.getip, env.http, env.metadata, parse);
      pub.e == None && pub.ip != st.previousip
    requires HostedZoneIdOf(Normalize(st.hostname), st.hostedzone, env.listing).e != None
    ensures var r := Cycle(st, env, parse);
      r.report == Sent(HostedZoneIdOf(Normalize(st.hostname), st.hostedzone, env.listing).e)
      && ZoneLooked(r.calls) && !Changed(r.calls) && r.state.previousip == st.previousip
   {
    var r := Cycle(st, env, parse);
    assert r.calls[1].ZoneLookup?;
  }

  /** A change is submitted only as the last step, only once, and it is the
      fixed UPSERT of one A record with TTL 300 for the normalised hostname,
      the resolved address and the resolved zone. Its error, nil or not, is
      the report, and the address is cached whether or not the change failed. */
  lemma SubmittedChange(st: State, env: Environment, parse: IpParser, i: nat)
    requires i < |Cycle(st, env, parse).calls| && Cycle(st, env, parse).calls[i].DnsChange?
    ensures var r := Cycle(st, env, parse);
      var pub := ResolvePublicIp(st.forceip, st.getip, env.http, env.metadata, parse);
      var zone := HostedZoneIdOf(Normalize(st.hostname), st.hostedzone, env.listing);
      i == |r.calls| - 1 == 2
      && pub.e == None && parse(pub.ip) && pub.ip != st.previousip && zone.e == None
      && r.calls[i].req.zoneId == zone.s
      && r.calls[i].req.comment == "Update53"
      && r.calls[i].req.changes == [Change("UPSERT", Normalize(st.hostname), "A", 300, [pub.ip])]
      && r.report == Sent(env.changeErr)
      && r.state.previousip == pub.ip
  {
    var pub := ResolvePublicIp(st.forceip, st.getip, env.http, env.metadata, parse);
    var zone := HostedZoneIdOf(Normalize(st.hostname), st.hostedzone, env.listing);
    assert st.hostname != "" && (st.forceip == "" || parse(st.forceip));
    assert pub.e == None && pub.ip != st.previousip;
    assert zone.e == None;
  }

  /** The converse of `SubmittedChange`: a valid configuration, a parsable
      address different from the cached one and a resolved zone always lead
      to exactly the address lookup, the zone lookup and the UPSERT, in that
      order; the DNS call's error is the report and the address is cached. */
  lemma NewAddressSubmitsChange(st: State, env: Environment, parse: IpParser)
    requires st.hostname != "" && (st.forceip == "" || parse(st.forceip))
    requires var pub := ResolvePublicIp(st.forceip, st.getip, env.http, env.metadata, parse);
      pub.e == None && pub.ip != st.previousip
    requires HostedZoneIdOf(Normalize(st.hostname), st.hostedzone, env.listing).e == None
    ensures var r := Cycle(st, env, parse);
      var pub := ResolvePublicIp(st.forceip, st.getip, env.http, env.metadata, parse);
      var zone := HostedZoneIdOf(Normalize(st.hostname), st.hostedzone, env.listing);
      r.calls == [AddressLookup(SourceOf(st.forceip, st.getip)), ZoneLookup(st.hostedzone == ""),
                  DnsChange(UpsertRequest(zone.s, Normalize(st.hostname), pub.ip))]
      && r.report == Sent(env.changeErr)
      && r.state == st.(hostname := Normalize(st.hostname), previousip := pub.ip)
  {
  }

  /** The very first cycle (nothing cached) never ends silently: every run of
      it sends a report, so the single-shot program always gets one. */
  lemma FirstCycleReports(st: State, env: Environment, parse: IpParser)
    requires st.previousip == ""
    ensures Cycle(st, env, parse).report.Sent?
  {
  }

  /** Once a change has been submitted (whether or not it failed), a next cycle
      that resolves the same address is silent: it neither looks up the zone
      nor submits the change again. */
  lemma SubmittedChangeNotRepeated(st: State, env: Environment, env': Environment, parse: IpParser)
    requires Changed(Cycle(st, env, parse).calls)
    requires ResolvePublicIp(st.forceip, st.getip, env'.http, env'.metadata, parse)
          == ResolvePublicIp(st.forceip, st.getip, env.http, env.metadata, parse)
    ensures var r := Cycle(Cycle(st, env, parse).state, env', parse);
      r.report == Silent && !ZoneLooked(r.calls) && !Changed(r.calls)
  {
    var r1 := Cycle(st, env, parse);
    var i :| 0 <= i < |r1.calls| && r1.calls[i].DnsChange?;
    SubmittedChange(st, env, parse, i);
  }

  /** A cycle that stopped on a zone error leaves the cache as it was, so the
      next cycle with the same address and a working zone lookup submits the change. */
  lemma ZoneErrorRetried(st: State, env: Environment, env': Environment, parse: IpParser)
    requires st.hostname != "" && (st.forceip == "" || parse(st.forceip))
    requires var pub := ResolvePublicIp(st.forceip, st.getip, env.http, env.metadata, parse);
      pub.e == None && pub.ip != st.previousip
    requires HostedZoneIdOf(Normalize(st.hostname), st.hostedzone, env.listing).e != None
    requires ResolvePublicIp(st.forceip, st.getip, env'.http, env'.metadata, parse)
          == ResolvePublicIp(st.forceip, st.getip, env.http, env.metadata, parse)
    requires HostedZoneIdOf(Normalize(st.hostname), st.hostedzone, env'.listing).e == None
    ensures Changed(Cycle(Cycle(st, env, parse).state, env', parse).calls)
  {
    var st' := Cycle(st, env, parse).state;
    NormalizeIdempotent(st.hostname);
    assert Cycle(st', env', parse).calls[2].DnsChange?;
  }

  /** Zone selection is first match in list order, not longest match. */
  lemma FirstMatchNotLongest()
    ensures HostedZoneIdOf("host.sub.example.com.", "",
              Listed([HostedZone("example.com.", "Z1"), HostedZone("sub.example.com.", "Z2")]))
            == FutureAns("Z1", None)
  {
  }

  /** Suffix matching ignores label boundaries: "example.com." also matches "myexample.com.". */
  lemma SuffixIgnoresLabels()
    ensures HostedZoneIdOf("www.myexample.com.", "",
              Listed([HostedZone("example.com.", "Z1"), HostedZone("myexample.com.", "Z2")]))
            == FutureAns("Z1", None)
  {
  }

  /** A forced address, a bare hostname and a one-zone listing, on a fresh
      cache, give one UPSERT of home.example.com. in zone Z123 and cache the address. */
  lemma ForcedAddressScenario(env: Environment, parse: IpParser)
    requires parse("203.0.113.5")
    requires env.listing == Listed([HostedZone("example.com.", "Z123")])
    ensures var r := Cycle(State("", "203.0.113.5", "", "home.example.com", ""), env, parse);
      r.calls == [AddressLookup(Forced), ZoneLookup(true),
                  DnsChange(ChangeRequest("Z123", "Update53",
                    [Change("UPSERT", "home.example.com.", "A", 300, ["203.0.113.5"])]))]
      && r.report == Sent(env.changeErr)
      && r.state.previousip == "203.0.113.5" && r.state.hostname == "home.example.com."
  {
    assert !HasSuffix("home.example.com", ".");
    assert Normalize("home.example.com") == "home.example.com.";
    assert HasSuffix("home.example.com.", "example.com.");
    assert ResolvePublicIp("203.0.113.5", "", env.http, env.metadata, parse) == PublicIP("203.0.113.5", None);
    assert FirstMatch("home.example.com.", env.listing.zones) == Some(0);
    assert HostedZoneIdOf("home.example.com.", "", env.listing) == FutureAns("Z123", None);
  }
}
