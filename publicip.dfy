/** publicip.go: finding the public address to publish. The candidate comes
    from exactly one source (a forced address, a URL, or the instance
    metadata service) and must parse as an IP address. The network calls are
    inputs: `HttpOutcome` is what `http.Get` and `ioutil.ReadAll` give back,
    and the metadata service's answer is a (text, error) pair. */
module PublicIp {
  import opened Errors
  import opened Strings

  /** `net.ParseIP(s) != nil`. The IPv4/IPv6 literal grammar is the library's
      and stays abstract; the one fact the program relies on is that the empty
      string is not an address. */
  type IpParser = p: string -> bool | !p("") witness (s: string) => false

  /** The `PublicIP` struct: the address found, or the error that stopped it. */
  datatype PublicIP = PublicIP(ip: string, e: Option<Error>)

  /** What `http.Get(url)` followed by `ioutil.ReadAll(resp.Body)` produced. */
  datatype HttpOutcome =
    | GetFailed(err: Error)
    | ReadFailed(err: Error)
    | Body(text: string)

  /** Which source `GetPublicIP` consults. */
  datatype Source = Forced | FromUrl | FromMetadata

  /** `getFromURL`: the body with its surrounding white space removed, or the
      empty string and a wrapped error when the GET or the read fails. */
  function GetFromUrl(url: string, http: HttpOutcome): (r: (string, Option<Error>))
    ensures r.1 == None <==> http.Body?
    ensures http.Body? ==> Trimmed(r.0)
    ensures http.Body? ==> exists p, q :: http.text == p + r.0 + q && AllSpace(p) && AllSpace(q)
    ensures http.GetFailed? ==> r == ("", Some(UrlGet(url, http.err)))
    ensures http.ReadFailed? ==> r == ("", Some(UrlRead(http.err)))
  {
    match http
    case GetFailed(err) => ("", Some(UrlGet(url, err)))
    case ReadFailed(err) => ("", Some(UrlRead(err)))
    case Body(text) => TrimSpaceSplits(text); (TrimSpace(text), None)
  }

  /** The source precedence of `GetPublicIP`: the forced address, else the URL, else metadata. */
  function SourceOf(ip: string, geturl: string): (s: Source)
    ensures s == Forced <==> ip != ""
    ensures s == FromUrl <==> ip == "" && geturl != ""
  {
    if ip != "" then Forced else if geturl != "" then FromUrl else FromMetadata
  }

  /** The candidate address and the error of fetching it, from the source `SourceOf` picks. */
  function Candidate(ip: string, geturl: string, http: HttpOutcome, metadata: (string, Option<Error>))
    : (r: (string, Option<Error>))
    ensures ip != "" ==> r == (ip, None)
    ensures ip == "" && geturl != "" ==> r == GetFromUrl(geturl, http)
    ensures ip == "" && geturl == "" ==> r == metadata
  {
    match SourceOf(ip, geturl)
    case Forced => (ip, None)
    case FromUrl => GetFromUrl(geturl, http)
    case FromMetadata => metadata
  }

  /** The checks at the end of `GetPublicIP`: a fetch error is wrapped, an
      unparsable candidate is an error, anything else is the address. Every
      result has a nil error and a parsable address, or an error and an empty
      address, never both. */
  function Validate(c: (string, Option<Error>), parse: IpParser): (r: PublicIP)
    ensures r.e == None <==> c.1 == None && parse(c.0)
    ensures r.e == None ==> r.ip == c.0 && parse(r.ip)
    ensures r.e != None ==> r.ip == ""
    ensures c.1 != None ==> r.e == Some(PublicIpFetch(c.1.value))
    ensures c.1 == None && !parse(c.0) ==> r.e == Some(PublicIpParse(c.0))
  {
    if c.1 != None then PublicIP("", Some(PublicIpFetch(c.1.value)))
    else if !parse(c.0) then PublicIP("", Some(PublicIpParse(c.0)))
    else PublicIP(c.0, None)
  }

  /** The value `GetPublicIP` sends on its channel. */
  function ResolvePublicIp(ip: string, geturl: string, http: HttpOutcome,
                           metadata: (string, Option<Error>), parse: IpParser): (r: PublicIP)
    ensures (r.e == None && parse(r.ip)) || (r.e != None && r.ip == "")
    ensures r.e == None ==> r.ip == Candidate(ip, geturl, http, metadata).0
    ensures r.e == None <==> Candidate(ip, geturl, http, metadata).1 == None && parse(Candidate(ip, geturl, http, metadata).0)
  {
    Validate(Candidate(ip, geturl, http, metadata), parse)
  }

  /** `GetPublicIP`, with the channel replaced by the returned value; `source`
      records which source was consulted (a forced address makes no call). */
  method GetPublicIP(ip: string, geturl: string, http: HttpOutcome,
                     metadata: (string, Option<Error>), parse: IpParser)
    returns (r: PublicIP, ghost source: Source)
    ensures r == ResolvePublicIp(ip, geturl, http, metadata, parse)
    ensures source == SourceOf(ip, geturl)
    ensures (r.e == None && parse(r.ip)) || (r.e != None && r.ip == "")
  {
    var candidate := ip;
    var err: Option<Error> := None;
    source := Forced;
    if candidate == "" {
      if geturl != "" {
        var fetched := GetFromUrl(geturl, http);
        candidate, err := fetched.0, fetched.1;
        source := FromUrl;
      } else {
        candidate, err := metadata.0, metadata.1;
        source := FromMetadata;
      }
    }
    if err != None {
      r := PublicIP("", Some(PublicIpFetch(err.value)));
      return;
    }
    if !parse(candidate) {
      r := PublicIP("", Some(PublicIpParse(candidate)));
    } else {
      r := PublicIP(candidate, None);
    }
  }

  /** A forced address is used verbatim, whatever the URL and the metadata
      service would have said: it is the address when it parses, and a parse
      error otherwise. */
  lemma ForcedAddressWins(ip: string, geturl: string, geturl': string, http: HttpOutcome, http': HttpOutcome,
                          metadata: (string, Option<Error>), metadata': (string, Option<Error>), parse: IpParser)
    requires ip != ""
    ensures ResolvePublicIp(ip, geturl, http, metadata, parse) == ResolvePublicIp(ip, geturl', http', metadata', parse)
    ensures parse(ip) ==> ResolvePublicIp(ip, geturl, http, metadata, parse) == PublicIP(ip, None)
    ensures !parse(ip) ==> ResolvePublicIp(ip, geturl, http, metadata, parse) == PublicIP("", Some(PublicIpParse(ip)))
  {
  }

  /** Without a forced address a URL is fetched and the metadata service is not consulted. */
  lemma UrlBeforeMetadata(geturl: string, http: HttpOutcome,
                          metadata: (string, Option<Error>), metadata': (string, Option<Error>), parse: IpParser)
    requires geturl != ""
    ensures ResolvePublicIp("", geturl, http, metadata, parse) == ResolvePublicIp("", geturl, http, metadata', parse)
    ensures ResolvePublicIp("", geturl, http, metadata, parse) == Validate(GetFromUrl(geturl, http), parse)
  {
  }

  /** With neither a forced address nor a URL the metadata answer is the candidate, and the HTTP outcome is irrelevant. */
  lemma MetadataLast(http: HttpOutcome, http': HttpOutcome, metadata: (string, Option<Error>), parse: IpParser)
    ensures ResolvePublicIp("", "", http, metadata, parse) == ResolvePublicIp("", "", http', metadata, parse)
    ensures ResolvePublicIp("", "", http, metadata, parse) == Validate(metadata, parse)
  {
  }
}
