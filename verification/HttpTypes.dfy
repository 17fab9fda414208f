/** Message types and lookup tables of the HTTP module: methods, versions, status codes,
    and the `std::stoi` conversion that the parser applies to `Content-Length`. */
module HttpTypes {

  datatype Option<+T> = None | Some(value: T)

  datatype Method = GET | POST

  datatype Version = V0_9 | V1_0 | V1_1 | V2 | V3

  /** A decoded request; the source keeps string views, the model keeps the viewed text. */
  datatype Request = Request(
    verb: Method, path: string, query: map<string, string>,
    version: Version, header: map<string, string>, body: string)

  datatype Response = Response(
    version: Version, code: int, detail: string, header: map<string, string>, body: string)

  const CRLF: string := "\r\n"

  function MethodStr(me: Method): string {
    match me
    case GET => "GET"
    case POST => "POST"
  }

  /** The version table of the source has three rows; V2 and V3 have none. */
  predicate Printable(ve: Version) { ve.V0_9? || ve.V1_0? || ve.V1_1? }

  function VersionStr(ve: Version): string
    requires Printable(ve)
  {
    match ve
    case V0_9 => "HTTP/0.9"
    case V1_0 => "HTTP/1.0"
    case V1_1 => "HTTP/1.1"
  }

  /** A reason phrase has bytes, and none of them is a carriage return. */
  predicate PhraseOk(r: Option<string>) { r.Some? ==> r.value != [] && '\r' !in r.value }

  function InformationalPhrase(code: int): (r: Option<string>)
    ensures PhraseOk(r)
  {
    match code
    case 100 => Some("Continue")
    case 101 => Some("Switching Protocols")
    case 102 => Some("Processing")
    case _ => None
  }

  function EarlySuccessPhrase(code: int): (r: Option<string>)
    ensures PhraseOk(r)
  {
    match code
    case 200 => Some("OK")
    case 201 => Some("Created")
    case 202 => Some("Accepted")
    case 203 => Some("Non-Authoritative Information")
    case _ => None
  }

  function SuccessPhrase(code: int): (r: Option<string>)
    ensures PhraseOk(r)
  {
    match code
    case 204 => Some("No Content")
    case 205 => Some("Reset Content")
    case 206 => Some("Partial Content")
    case 207 => Some("Multi-Status")
    case 208 => Some("Already Reported")
    case 226 => Some("IM Used")
    case _ => None
  }

  function EarlyRedirectPhrase(code: int): (r: Option<string>)
    ensures PhraseOk(r)
  {
    match code
    case 300 => Some("Multiple Choices")
    case 301 => Some("Moved Permanently")
    case 302 => Some("Found")
    case 303 => Some("See Other")
    case _ => None
  }

  function RedirectPhrase(code: int): (r: Option<string>)
    ensures PhraseOk(r)
  {
    match code
    case 304 => Some("Not Modified")
    case 305 => Some("Use Proxy")
    case 307 => Some("Temporary Redirect")
    case 308 => Some("Permanent Redirect")
    case _ => None
  }

  function ClientErrorPhrase(code: int): (r: Option<string>)
    ensures PhraseOk(r)
  {
    match code
    case 400 => Some("Bad Request")
    case 401 => Some("Unauthorized")
    case 402 => Some("Payment Required")
    case 403 => Some("Forbidden")
    case 404 => Some("Not Found")
    case _ => None
  }

  function RequestErrorPhrase(code: int): (r: Option<string>)
    ensures PhraseOk(r)
  {
    match code
    case 405 => Some("Method Not Allowed")
    case 406 => Some("Not Acceptable")
    case 407 => Some("Proxy Authentication Required")
    case 408 => Some("Request Timeout")
    case 409 => Some("Conflict")
    case _ => None
  }

  function BodyErrorPhrase(code: int): (r: Option<string>)
    ensures PhraseOk(r)
  {
    match code
    case 410 => Some("Gone")
    case 411 => Some("Length Required")
    case 412 => Some("Precondition Failed")
    case 413 => Some("Payload Too Large")
    case 414 => Some("URI Too Long")
    case _ => None
  }

  function LimitErrorPhrase(code: int): (r: Option<string>)
    ensures PhraseOk(r)
  {
    match code
    case 415 => Some("Unsupported Media Type")
    case 416 => Some("Range Not Satisfiable")
    case 417 => Some("Expectation Failed")
    case 421 => Some("Misdirected Request")
    case _ => None
  }

  function LateClientErrorPhrase(code: int): (r: Option<string>)
    ensures PhraseOk(r)
  {
    match code
    case 422 => Some("Unprocessable Entity")
    case 423 => Some("Locked")
    case 424 => Some("Failed Dependency")
    case 426 => Some("Upgrade Required")
    case _ => None
  }

  function PolicyErrorPhrase(code: int): (r: Option<string>)
    ensures PhraseOk(r)
  {
    match code
    case 428 => Some("Precondition Required")
    case 429 => Some("Too Many Requests")
    case _ => None
  }

  function LegalErrorPhrase(code: int): (r: Option<string>)
    ensures PhraseOk(r)
  {
    match code
    case 431 => Some("Request Header Fields Too Large")
    case 451 => Some("Unavailable For Legal Reasons")
    case _ => None
  }

  function ServerErrorPhrase(code: int): (r: Option<string>)
    ensures PhraseOk(r)
  {
    match code
    case 500 => Some("Internal Server Error")
    case 501 => Some("Not Implemented")
    case 502 => Some("Bad Gateway")
    case 503 => Some("Service Unavailable")
    case 504 => Some("Gateway Timeout")
    case 505 => Some("HTTP Version Not Supported")
    case _ => None
  }

  function LateServerErrorPhrase(code: int): (r: Option<string>)
    ensures PhraseOk(r)
  {
    match code
    case 506 => Some("Variant Also Negotiates")
    case 507 => Some("Insufficient Storage")
    case 508 => Some("Loop Detected")
    case 510 => Some("Not Extended")
    case 511 => Some("Network Authentication Required")
    case _ => None
  }

  /** The status table of the source, range by range. */
  function ReasonPhrase(code: int): (r: Option<string>)
    ensures PhraseOk(r)
  {
    if code < 200 then InformationalPhrase(code)
    else if code < 204 then EarlySuccessPhrase(code)
    else if code < 300 then SuccessPhrase(code)
    else if code < 304 then EarlyRedirectPhrase(code)
    else if code < 400 then RedirectPhrase(code)
    else if code < 405 then ClientErrorPhrase(code)
    else if code < 410 then RequestErrorPhrase(code)
    else if code < 415 then BodyErrorPhrase(code)
    else if code < 422 then LimitErrorPhrase(code)
    else if code < 428 then LateClientErrorPhrase(code)
    else if code < 431 then PolicyErrorPhrase(code)
    else if code < 500 then LegalErrorPhrase(code)
    else if code < 506 then ServerErrorPhrase(code)
    else LateServerErrorPhrase(code)
  }

  predicate IsDigit(c: char) { '0' <= c <= '9' }

  function DigitValue(c: char): int
    requires IsDigit(c)
  {
    c as int - '0' as int
  }

  /** Decimal digits of a natural number, as `std::to_string` prints them. */
  function Decimal(n: nat): string {
    if n < 10 then [('0' as int + n) as char] else Decimal(n / 10) + [('0' as int + n % 10) as char]
  }

  function ToString(n: int): string {
    if n < 0 then "-" + Decimal(-n) else Decimal(n)
  }

  predicate IsSpace(c: char) { c == ' ' || c == '\t' || c == '\n' || c == '\r' || c as int == 11 || c as int == 12 }

  function SkipSpaces(s: string): string {
    if s != [] && IsSpace(s[0]) then SkipSpaces(s[1..]) else s
  }

  /** Value of the longest digit prefix of `s`, with `acc` already read. */
  function ReadDigits(s: string, acc: nat): nat {
    if s != [] && IsDigit(s[0]) then ReadDigits(s[1..], 10 * acc + DigitValue(s[0])) else acc
  }

  const INT_MAX := 0x7fff_ffff

  /** `std::stoi`: leading white space, an optional sign, at least one digit, a 32-bit result;
      None where it throws. */
  function Stoi(s: string): Option<int> {
    var t := SkipSpaces(s);
    var neg := t != [] && t[0] == '-';
    var u := if t != [] && (t[0] == '-' || t[0] == '+') then t[1..] else t;
    if u == [] || !IsDigit(u[0]) then None
    else
      var v: int := if neg then -(ReadDigits(u, 0) as int) else ReadDigits(u, 0) as int;
      if -INT_MAX - 1 <= v <= INT_MAX then Some(v) else None
  }
}
