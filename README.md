# update53 in Dafny

A model of the decision pipeline of update53, a dynamic-DNS updater for
Amazon Route 53. Each update cycle finds the machine's public IP address
(a forced address, else a URL, else the EC2 instance metadata service),
compares it with the address cached from the last cycle, and, when it has
changed, finds the hosted zone of the hostname and UPSERTs an A record with
TTL 300. `main` drives cycles from a 5-minute ticker until a signal arrives,
or, when not in daemon mode, stops after handling the first event.

Modules, following the two Go files:

- `Errors` — Go's nil-or-error values (`Option<Error>`) and the text of each error the program builds.
- `Strings` — `strings.HasSuffix`, `unicode.IsSpace` and `strings.TrimSpace`, with the cut that `TrimSpace` makes characterised.
- `PublicIp` (publicip.go) — source precedence, `getFromURL`, validation and error wrapping. `net.ParseIP` is a parameter of type `IpParser`: any predicate under which the empty string is not an address.
- `Update53` (update53.go) — `getHostedZoneID` as a loop proved against the first-match function `FirstMatch`; the `update53` struct as the class `Updater`, whose `UpdateHostname` method is proved equal to the specification function `Cycle`; lemmas about `Cycle`.
- `Startup` (update53.go, `main`) — the flag rules and the `dowhile` event loop over an abstract sequence of events.

External calls are inputs. `Environment` holds the outcomes of the HTTP fetch, the metadata query, `ListHostedZones` and `ChangeResourceRecordSets` for one cycle. A ghost log of `Call`s records which steps a cycle took: the address lookup and its source, the zone lookup and whether it listed zones, and the submitted change. The short-circuit properties are stated over that log.

The address is cached after every submitted change, failed or not (update53.go:173-181), so a failed change is not retried while the address stays the same; `SubmittedChangeNotRepeated` states this.

## Model

| member | source | states |
|---|---|---|
| `Errors.Message` | publicip.go:43-70 | each error the program builds has a non-empty text, and a wrapping error's text ends with the wrapped error's text (for a failed GET, after " error: "), or with the candidate or forced address it names; the texts of update53.go:104, 114 and 218 are among them |
| `Strings.TrimSpaceSplits` | publicip.go:74 | the trimmed text is the input with a white-space-only prefix and suffix cut off, and it neither starts nor ends with white space |
| `Strings.TrimSpaceIdempotent` | publicip.go:74 | trimming an already trimmed body changes nothing |
| `PublicIp.GetFromUrl` | publicip.go:61-76 | a nil error exactly when the GET and the read succeed; then the result is the body trimmed as above; a failed GET or read gives "" and the matching wrapped error |
| `PublicIp.SourceOf` | publicip.go:33-41 | the forced address is used exactly when it is non-empty; the URL exactly when there is no forced address and the URL is non-empty; metadata otherwise |
| `PublicIp.Candidate` | publicip.go:32-41 | a non-empty forced address is the candidate with no error; otherwise a non-empty URL gives `getFromURL`'s result; otherwise the metadata answer |
| `PublicIp.Validate` | publicip.go:42-51 | nil error iff no fetch error and the candidate parses; on success the address is the candidate itself and parses; on any error the address is ""; a fetch error is wrapped as a public-ip fetch error; an unparsable candidate gives the parse error naming it |
| `PublicIp.ResolvePublicIp` | publicip.go:22-54 | the result has a nil error and a parsable address or an error and an empty address; a nil error exactly when the chosen source gave no error and its candidate parses, and then the address is that candidate |
| `PublicIp.GetPublicIP` | publicip.go:22-54 | the method's result is the validated candidate of the chosen source, it consults `SourceOf`'s source, and the result has either a nil error and a parsable address or an error and an empty address |
| `PublicIp.ForcedAddressWins` | publicip.go:32-33 | a non-empty forced address gives the same result whatever the URL, the HTTP outcome and the metadata answer: the address itself, or a parse error naming it |
| `PublicIp.UrlBeforeMetadata` | publicip.go:36-37 | with no forced address and a non-empty URL the metadata answer does not matter and the result is the validated `getFromURL` result |
| `PublicIp.MetadataLast` | publicip.go:38-41 | with neither a forced address nor a URL the HTTP outcome does not matter and the metadata answer is the candidate |
| `Update53.FirstMatch` | update53.go:204-215 | a found index is in range and its zone name is a suffix of the hostname, and no earlier zone's name is; no index means no zone's name is a suffix |
| `Update53.HostedZoneIdOf` | update53.go:192-221 | an explicit id is returned verbatim with no error; a listing error gives "" and that error; otherwise the first matching zone's id, or "" and "unable to find hosted domain details" |
| `Update53.GetHostedZoneID` | update53.go:185-224 | the first-match loop with early break returns exactly `HostedZoneIdOf`'s answer, and zones are listed exactly when no explicit id is given |
| `Update53.Normalize` | update53.go:108-110 | the result ends with "."; a hostname ending with "." is unchanged, any other gets "." appended |
| `Update53.NormalizeIdempotent` | update53.go:108-110 | normalising twice is normalising once |
| `Update53.UpsertRequest` | update53.go:150-170 | the request targets the given zone with comment "Update53" and holds one change: an UPSERT of an A record named by the hostname, TTL 300, whose only value is the address |
| `Update53.Updater.constructor` | update53.go:39-49 | a new updater holds the flag values and an empty address cache |
| `Update53.Updater.UpdateHostname` | update53.go:101-182 | the report, the new fields and the calls made are those of `Cycle` on the old fields; only `hostname` and `previousip` can change |
| `Update53.InvalidConfigurationStops` | update53.go:103-117 | an empty hostname or an unparsable non-empty forced address is reported as that error, with no external call and the cache unchanged |
| `Update53.Cycle` | update53.go:103-110 | after a cycle a non-empty hostname is normalised, an empty one stays empty, and the forced address, URL and zone id are unchanged |
| `Update53.AddressErrorStops` | update53.go:123-131 | an address error is the report, the address lookup is the only call made, and the cache is unchanged |
| `Update53.UnchangedAddressIsSilent` | update53.go:133-139 | an address equal to the cached one sends nothing, makes no zone lookup and no change, and leaves the cache unchanged |
| `Update53.ZoneErrorStops` | update53.go:141-148 | a zone error is the report; the zone was looked up, no change is submitted, and the cache is unchanged |
| `Update53.SubmittedChange` | update53.go:150-181 | a change is submitted only as the third and last step, after a parsable new address and a resolved zone; it is one UPSERT of an A record with TTL 300 for the normalised hostname, with the address as its only value, comment "Update53" and the resolved zone id; the DNS call's error (nil or not) is the report; the address is cached either way |
| `Update53.NewAddressSubmitsChange` | update53.go:141-181 | a valid configuration, a parsable address different from the cached one and a resolved zone give exactly the address lookup, the zone lookup and the UPSERT of the normalised hostname with that address in that zone; the DNS call's error is the report, and the new state is the old one with the normalised hostname and the address cached |
| `Update53.FirstCycleReports` | update53.go:133-139 | with an empty cache every cycle sends a report, because no parsable address equals "" |
| `Update53.SubmittedChangeNotRepeated` | update53.go:173-181 | after any submitted change, failed or not, a next cycle with the same address is silent and makes no zone lookup or change |
| `Update53.ZoneErrorRetried` | update53.go:141-148 | after a zone error the next cycle with the same address and a working zone lookup submits the change |
| `Update53.FirstMatchNotLongest` | update53.go:208-215 | with zones example.com. (Z1) then sub.example.com. (Z2), host.sub.example.com. gets Z1: first match, not longest match |
| `Update53.SuffixIgnoresLabels` | update53.go:210 | the plain suffix test lets zone example.com. match www.myexample.com. |
| `Update53.ForcedAddressScenario` | update53.go:101-181 | forced 203.0.113.5, hostname home.example.com, one zone example.com. (Z123) and an empty cache give exactly the address lookup, a listing zone lookup and one UPSERT of home.example.com. with the address in Z123; the DNS call's error is the report and the address is then cached |
| `Startup.Configure` | update53.go:51-58 | -forceip with -getip is refused with no configuration; otherwise verbose is on iff verbose or debug was given, nothing else changes, and at most one of forceip and getip is set |
| `Startup.Handled` | update53.go:70-93 | the loop handles at most every event; exactly one in single-shot mode; in daemon mode no signal before the last handled event, and stopping before the end means the last handled event was a signal |
| `Startup.EventLoop` | update53.go:67-93 | the loop handles `Handled` events, starts one cycle plus one per handled tick, and logs the non-nil reports among the handled events in order |
| `Startup.SingleShotHandlesOne` | update53.go:90-92 | in single-shot mode the first event ends the loop, whatever it is, so a second cycle starts only when that event is a tick |

## Left out

- The AWS SDK and HTTP calls (`session.New`, `route53.New`, `ListHostedZones`, `ChangeResourceRecordSets`, `ec2metadata.GetMetadata`, `http.Get`, `ioutil.ReadAll`) are foreign I/O. Their outcomes are inputs (`Environment`, `HttpOutcome`) and their errors are `Foreign` errors or any other `Error`.
- The internals of `net.ParseIP` belong to the library. The IP literal grammar is the parameter `IpParser`, constrained only to reject "".
- Goroutines and channels are replaced by return values consumed in the source's order. Cycles that overlap and share `previousip` and `hostname` without synchronisation are a concurrency matter and are not modelled.
- The `select` of `main` is an abstract event sequence. The ticker period, signal registration, `os.Exit`, flag parsing and the final log line are not modelled. When the sequence runs out the loop stops, where the program would block.
- Pagination of hosted zones is not modelled: only the one list `ListHostedZones` returned is searched.
- Logging gated by `verbose` and `debug` is not modelled, except the warning for a non-nil report that `EventLoop` collects.
- A zone with a nil `Name` or `Id` pointer is not modelled: zone names and ids are strings.
- `Strings.TrimSpace` works on decoded characters; `string(body)` decoding invalid UTF-8 is not modelled.
- Each cycle that `EventLoop` starts is not linked to `Updater.UpdateHostname`, because in the source they run concurrently with the loop.
