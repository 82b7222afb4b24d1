/** The transport's value types (src/http/http-client.h). A `char` stands for one byte of text. */
module HttpTypes {
  import opened Statuses

  datatype HttpMethod = Get | Post | Put | Patch | Delete | Head

  datatype HttpHeader = HttpHeader(name: string, value: string)

  datatype RequestOptions = RequestOptions(
    connectTimeoutMs: u32, totalTimeoutMs: u32, maxResponseBytes: u32, skipTlsVerification: bool)

  datatype HttpRequest = HttpRequest(
    verb: HttpMethod, url: string, headers: seq<HttpHeader>, body: string, options: RequestOptions)

  datatype HttpResponse = HttpResponse(statusCode: int, body: string, headers: seq<HttpHeader>)

  /** A client is known only by the transport it was built over. */
  datatype HttpClient = HttpClient(transport: nat)

  const EMPTY_REQUEST := HttpRequest(Get, "", [], "", RequestOptions(0, 0, 0, false))
  const EMPTY_RESPONSE := HttpResponse(0, "", [])
}
