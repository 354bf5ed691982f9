/** Go's `error` values as they occur in update53: a nil error is `None`, a
    non-nil one `Some(e)`. Each error the program builds itself has its own
    constructor; errors handed back by calls outside the model (the AWS SDK,
    net/http, io) are `Foreign`, carrying their text. */
module Errors {

  datatype Option<+T> = None | Some(value: T)

  datatype Error =
    | Foreign(text: string)
    | InvalidHostname
    | InvalidForceIp(ip: string)
    | NoHostedZone
    | PublicIpFetch(cause: Error)
    | PublicIpParse(candidate: string)
    | UrlGet(url: string, cause: Error)
    | UrlRead(cause: Error)

  /** `s` ends with `t` (`strings.HasSuffix`, which this module cannot import). */
  predicate EndsWith(s: string, t: string)
  {
    |t| <= |s| && s[|s| - |t|..] == t
  }

  /** The text `err.Error()` gives for each error: the format strings of the
      `errors.New` / `fmt.Errorf` calls, with `%v` of an error the error's own text. */
  function Message(e: Error): (r: string)
    ensures e.PublicIpFetch? || e.UrlRead? ==> EndsWith(r, Message(e.cause))
    ensures e.UrlGet? ==> EndsWith(r, " error: " + Message(e.cause))
    ensures e.PublicIpParse? ==> EndsWith(r, e.candidate)
    ensures e.InvalidForceIp? ==> EndsWith(r, e.ip)
    ensures !e.Foreign? ==> |r| > 0
  {
    match e
    case Foreign(text) => text
    case InvalidHostname => "invalid hostname supplied"
    case InvalidForceIp(ip) => "invalid force ip supplied: " + ip
    case NoHostedZone => "unable to find hosted domain details"
    case PublicIpFetch(cause) => "error getting public ip: " + Message(cause)
    case PublicIpParse(candidate) => "unable to parse public ip from: " + candidate
    case UrlGet(url, cause) => "unable to get public ip details from: " + url + " error: " + Message(cause)
    case UrlRead(cause) => "unable to read public ip in response: " + Message(cause)
  }

}
