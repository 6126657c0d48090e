/** HTTP method names and the table of success codes (src/helper/http.rs). The
    method enum is what the HTTP check and alert are configured with; the code
    table is used by neither, both of which test for 200 alone.
    The methods are those of section 9.3 of RFC 9110 plus PATCH from RFC 5789. */
module HelperHttp {
  import opened Text

  datatype HttpMethod = GET | POST | PUT | DELETE | PATCH

  /** The 2xx codes of sections 15.3.1 to 15.3.7 of RFC 9110. */
  const HTTP_OK_CODES: seq<nat> := [200, 201, 202, 203, 204, 205, 206]

  /** The `Display` text of a method. */
  function ToString(m: HttpMethod): (r: string)
    ensures m == GET <==> r == "GET"
    ensures m == POST <==> r == "POST"
    ensures m == PUT <==> r == "PUT"
    ensures m == DELETE <==> r == "DELETE"
    ensures m == PATCH <==> r == "PATCH"
  {
    match m
    case GET => "GET"
    case POST => "POST"
    case PUT => "PUT"
    case DELETE => "DELETE"
    case PATCH => "PATCH"
  }

  /** `HttpMethod::from_str`: matches the lower-cased text; anything else is GET. */
  function FromStr(text: string): (r: HttpMethod)
    ensures r == POST <==> ToLower(text) == "post"
    ensures r == PUT <==> ToLower(text) == "put"
    ensures r == DELETE <==> ToLower(text) == "delete"
    ensures r == PATCH <==> ToLower(text) == "patch"
    ensures r == GET <==> ToLower(text) !in ["post", "put", "delete", "patch"]
  {
    match ToLower(text)
    case "get" => GET
    case "post" => POST
    case "put" => PUT
    case "delete" => DELETE
    case "patch" => PATCH
    case _ => GET
  }

  /** Parsing ignores case. */
  lemma FromStrIgnoresCase(text: string)
    ensures FromStr(text) == FromStr(ToLower(text))
  {
    ToLowerIdempotent(text);
  }

  /** Every method survives being printed and parsed back. */
  lemma RoundTrip(m: HttpMethod)
    ensures FromStr(ToString(m)) == m
  {
    match m
    case GET =>
    case POST => assert ToLower("POST") == "post";
    case PUT => assert ToLower("PUT") == "put";
    case DELETE => assert ToLower("DELETE") == "delete";
    case PATCH => assert ToLower("PATCH") == "patch";
  }

  /** The success table is the seven consecutive codes from 200, ascending. */
  lemma OkCodesAreTwoHundredToSixAscending()
    ensures |HTTP_OK_CODES| == 7
    ensures forall i :: 0 <= i < 7 ==> HTTP_OK_CODES[i] == 200 + i
    ensures forall i, j :: 0 <= i < j < 7 ==> HTTP_OK_CODES[i] < HTTP_OK_CODES[j]
  {
  }
}
