/** HTTP messages as the proxy holds them, the start lines it reads off them, and the responses
    it makes itself. */
module Messages {
  import opened Text
  import opened Numbers

  datatype SendPhase = SendHeader | SendContent

  /** HttpContext. `remaining` is the data union: the body bytes or chunk bytes still to come. */
  datatype HttpContext = HttpContext(
    header: string,
    content: string,
    verb: string,
    urlPath: string,
    statusCode: int,
    isCompleted: bool,
    phase: SendPhase,
    remaining: nat
  ) {
    /** request.is_valid */
    predicate RequestValid() { urlPath != "" && verb != "" }

    /** response.is_valid */
    predicate ResponseValid() { statusCode != -1 }

    function Complete(): HttpContext {
      this.(isCompleted := true, phase := SendHeader)
    }

    /** The bytes the message puts on the wire. */
    function Bytes(): string { header + content }
  }

  /** What HttpContext::reset leaves. */
  const FRESH := HttpContext("", "", "", "", -1, false, SendHeader, 0)

  // ---- start lines ----------------------------------------------------------------

  /** get_request_head: the texts before and after the first space, up to the second. */
  function WithRequestHead(c: HttpContext): HttpContext {
    var p := FindChar(c.header, ' ');
    if p == -1 then c
    else
      var q := FindChar(c.header, ' ', p + 1);
      if q == -1 then c.(verb := c.header[..p])
      else c.(verb := c.header[..p], urlPath := c.header[p + 1..q])
  }

  /** The text get_response_head hands to stoi. */
  function StatusText(header: string): Option<string> {
    var p := FindChar(header, ' ');
    if p == -1 then None
    else
      var q := FindChar(header, ' ', p + 1);
      Some(header[p + 1..if q == -1 then |header| else q])
  }

  /** get_response_head: the status stays as it was when there is none to read. */
  function WithResponseHead(c: HttpContext): HttpContext {
    match StatusText(c.header)
    case None => c
    case Some(t) => match Stoi(t) { case None => c case Some(n) => c.(statusCode := n) }
  }

  /** log_access. */
  function WithHead(c: HttpContext, isRequest: bool): HttpContext {
    if isRequest then WithRequestHead(c) else WithResponseHead(c)
  }

  // ---- the proxy's own responses ----------------------------------------------------

  function StatusMessage(code: int): string {
    match code
    case 500 => "Internal Server Error"
    case 502 => "Bad Gateway"
    case 400 => "Bad Request"
    case 405 => "Method Not Allowed"
    case 404 => "Not Found"
    case 200 => "OK"
    case _ => "Unknown Status"
  }

  /** Writing to a std::stringstream built from a text: the put position is 0, so the output
      replaces the text instead of following it. */
  function Overwrite(initial: string, written: string): string {
    if |written| >= |initial| then written else written + initial[|written|..]
  }

  /** The end of every error page. */
  const PAGE_END: string :=
    "</title></head>" + "<body><center>" + "pkuyo-proxy" + "</center>" + "</body></html>"

  /** backend_error_response. */
  function ErrorPage(code: int): string {
    Overwrite("<html><head><title>", PrintInt(code) + " " + StatusMessage(code) + PAGE_END)
  }

  /** The opening tags never reach the page. */
  lemma ErrorPageLosesItsOpening(code: int)
    ensures ErrorPage(code) == PrintInt(code) + " " + StatusMessage(code) + PAGE_END
  {
    assert |"<html><head><title>"| == 19 && |PAGE_END| > 19;
  }

  /** strlen. */
  function CStringLength(s: string): nat {
    var z := FindChar(s, '\0');
    if z == -1 then |s| else z
  }

  function Field(name: string, value: string): string { name + ": " + value }

  /** The lines of gen_http_header; the static file handler writes the same ones with the type of
      the file. */
  function GeneratedLines(code: int, contentType: string, length: nat): seq<string> {
    ["HTTP/1.1 " + PrintInt(code) + " " + StatusMessage(code),
     Field("Content-Type", contentType),
     Field("Content-Length", Print(length, 10)),
     Field("Connection", "close")]
  }

  /** gen_http_header. */
  function GenHttpHeader(content: string, code: int): string {
    Join(GeneratedLines(code, "text/html", CStringLength(content))) + CRLF
  }

  /** The response the proxy makes for an error, before its status is read back. */
  function MakeError(code: int): HttpContext {
    var content := ErrorPage(code);
    FRESH.(content := content, header := GenHttpHeader(content, code)).Complete()
  }
}
