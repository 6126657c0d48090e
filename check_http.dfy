/** The HTTP probe (src/check/http.rs): its settings, and how a reply decides the outcome.
    Building and sending the request is not modelled; the reply is an input. */
module CheckHttp {
  import opened Wrappers
  import Text

  datatype HttpMethod = GET | POST | PUT | DELETE | PATCH

  /** `HttpMethod::as_str`. */
  function AsStr(m: HttpMethod): (r: string)
    ensures m == GET <==> r == "GET"
    ensures m == POST <==> r == "POST"
    ensures m == PUT <==> r == "PUT"
    ensures m == DELETE <==> r == "DELETE"
    ensures m == PATCH <==> r == "PATCH"
  {
    match m
    case GET => "GET"
    case POST => "POST"
    case PUT => "PUT"
    case DELETE => "DELETE"
    case PATCH => "PATCH"
  }

  /** What sending the request gave: a response with its status code, or a
      transport failure (timeout, connection error, ...) with its message. */
  datatype HttpReply = Received(statusCode: nat) | SendFailed(reason: string)

  function BadStatusMessage(code: nat): string {
    "Request failed with status code: " + Text.DecimalString(code)
  }

  /** The probe's verdict on a reply: success exactly for a response with code 200. */
  function ReplyOutcome(reply: HttpReply): (r: Outcome<string>)
    ensures r.Pass? <==> reply == Received(200)
    ensures reply.Received? && reply.statusCode != 200 ==> r == Fail(BadStatusMessage(reply.statusCode))
    ensures reply.SendFailed? ==> r == Fail(reply.reason)
  {
    match reply
    case Received(code) => if code != 200 then Fail(BadStatusMessage(code)) else Pass
    case SendFailed(reason) => Fail(reason)
  }

  class HttpCheck {
    var httpMethod: HttpMethod
    var isInsecure: bool
    var url: string
    var timeout: nat
    var headers: Option<map<string, string>>

    constructor (httpMethod: HttpMethod, isInsecure: bool, url: string, timeout: nat,
                 headers: Option<map<string, string>>)
      ensures this.httpMethod == httpMethod && this.isInsecure == isInsecure && this.url == url
      ensures this.timeout == timeout && this.headers == headers
    {
      this.httpMethod := httpMethod;
      this.isInsecure := isInsecure;
      this.url := url;
      this.timeout := timeout;
      this.headers := headers;
    }

    /** `set_http_settings`: overwrites four settings, keeps the TLS toggle. */
    method SetHttpSettings(httpMethod: HttpMethod, url: string, timeout: nat,
                           headers: Option<map<string, string>>)
      modifies this
      ensures this.httpMethod == httpMethod && this.url == url
      ensures this.timeout == timeout && this.headers == headers
      ensures isInsecure == old(isInsecure)
    {
      this.httpMethod := httpMethod;
      this.url := url;
      this.timeout := timeout;
      this.headers := headers;
    }

    /** `method_as_str`: the name of the configured method. */
    function MethodAsStr(): (r: string)
      reads this
      ensures r == AsStr(httpMethod)
    {
      AsStr(httpMethod)
    }

    /** `exec`, from the reply on: changes nothing and returns the verdict on the reply. */
    method Exec(reply: HttpReply) returns (r: Outcome<string>)
      ensures r == ReplyOutcome(reply)
    {
      r := ReplyOutcome(reply);
    }
  }

  /** Of the success table in src/helper/http.rs only 200 is accepted by the probe. */
  lemma OnlyTwoHundredOfOkCodesAccepted(code: nat)
    requires 200 <= code <= 206
    ensures ReplyOutcome(Received(code)).Pass? <==> code == 200
  {
  }

  /** Different methods have different names. */
  lemma AsStrInjective(m: HttpMethod, n: HttpMethod)
    ensures AsStr(m) == AsStr(n) ==> m == n
  {
  }
}
