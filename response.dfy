/** The value `Getty` hands back for every request (src/Response.php): the
    body text, the raw response header lines in the order received, and the
    status code. Nothing changes it after construction. */
module HttpResponse {

  datatype Response = Response(body: string, header: seq<string>, code: int) {

    function GetBody(): string {
      body
    }

    function GetHeader(): seq<string> {
      header
    }

    function GetCode(): int {
      code
    }
  }

  /** Each accessor returns exactly what the constructor was given, the
      header lines in their order, however often it is called. */
  lemma AccessorsReturnConstructorArguments(body: string, header: seq<string>, code: int)
    ensures Response(body, header, code).GetBody() == body
    ensures Response(body, header, code).GetHeader() == header
    ensures |Response(body, header, code).GetHeader()| == |header|
    ensures forall i | 0 <= i < |header| :: Response(body, header, code).GetHeader()[i] == header[i]
    ensures Response(body, header, code).GetCode() == code
  {
  }
}
