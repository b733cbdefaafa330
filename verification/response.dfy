// The reply envelope every handler and layer answers with (src/model/response.rs)
// and the table of message codes behind it (src/model/response/response_message.rs).

module Response {
  import opened Common

  /** The message-code table, built once on first use. */
  function ResponseMessage(): map<string, string>
  {
    map[
      // General
      "G0001" := "Successfully!",
      "G0002" := "Internal server error!",
      "G0003" := "Unauthorized!",
      "G0004" := "Bad request!",
      "G0005" := "Undefined status code!",
      // Specific
      "S0001" := "Username already existed!",
      "S0002" := "Username not found!",
      "S0003" := "Invalid password!"
    ]
  }

  const UNDEFINED_MESSAGE: string := "Undefied!"

  /** The JSON body of a reply: optional data, a message code and its message. */
  datatype GeneralBody<+T> = GeneralBody(data: Option<T>, messageCode: string, message: string)

  /** `GeneralBody::new`: the message is the table's entry for the code, "Undefied!" for an unknown code. */
  function BodyNew<T>(messageCode: string, data: Option<T>): GeneralBody<T>
  {
    var table := ResponseMessage();
    GeneralBody(data, messageCode, if messageCode in table then table[messageCode] else UNDEFINED_MESSAGE)
  }

  /** `GeneralBody::new_custom`: the caller's message, whatever the code. */
  function BodyNewCustom<T>(messageCode: string, message: string, data: Option<T>): GeneralBody<T>
  {
    GeneralBody(data, messageCode, message)
  }

  datatype Cookie = Cookie(name: string, value: string, path: Option<string>, secure: bool, httpOnly: bool)

  datatype HeaderValue = Text(text: string) | SetCookie(cookie: Cookie)

  datatype Header = Header(name: string, value: HeaderValue)

  /** A reply before it is sent: extra headers and the body (kept as a value; its JSON text is not modelled). */
  datatype GeneralResponse<+T> = GeneralResponse(header: seq<Header>, body: GeneralBody<T>)

  function New<T>(header: seq<Header>, messageCode: string, data: T): GeneralResponse<T>
  {
    GeneralResponse(header, BodyNew(messageCode, Some(data)))
  }

  function NewGeneral<T>(messageCode: string): GeneralResponse<T>
  {
    GeneralResponse([], BodyNew(messageCode, None))
  }

  function NewError<T>(message: string): GeneralResponse<T>
  {
    GeneralResponse([], BodyNewCustom("G0004", message, None))
  }

  function OkWithData<T>(data: T): GeneralResponse<T>
  {
    GeneralResponse([], BodyNew("G0001", Some(data)))
  }

  datatype HttpResponse<+T> = HttpResponse(status: nat, header: seq<Header>, body: GeneralBody<T>)

  const CONTENT_TYPE_JSON: Header := Header("content-type", Text("application/json"))

  /**
   * `into_response`: every reply goes out with HTTP status 200, keeps its own headers
   * and gains a JSON content type after them; the outcome is told by the body's code.
   */
  function IntoResponse<T>(r: GeneralResponse<T>): (h: HttpResponse<T>)
    ensures h.status == 200 && h.body == r.body
    ensures |h.header| == |r.header| + 1 && h.header[..|r.header|] == r.header
    ensures h.header[|r.header|] == CONTENT_TYPE_JSON
  {
    HttpResponse(200, r.header + [CONTENT_TYPE_JSON], r.body)
  }

  /** How an `AppError` is answered: its text in a G0004 body. */
  function AppErrorResponse<T>(text: string): HttpResponse<T>
  {
    IntoResponse(NewError(text))
  }

  /** The table holds exactly the eight codes; a code outside it is answered "Undefied!". */
  lemma MessageTableCodes(code: string)
    ensures ResponseMessage().Keys == {"G0001", "G0002", "G0003", "G0004", "G0005", "S0001", "S0002", "S0003"}
    ensures code !in ResponseMessage() ==> BodyNew<bool>(code, None).message == UNDEFINED_MESSAGE
    ensures code in ResponseMessage() ==> BodyNew<bool>(code, None).message != UNDEFINED_MESSAGE
  {
  }

  /** No two codes share a message, so a body's message names its code. */
  lemma MessagesIdentifyCodes(a: string, b: string)
    requires a in ResponseMessage() && b in ResponseMessage()
    ensures ResponseMessage()[a] == ResponseMessage()[b] ==> a == b
  {
  }

  /**
   * `new_error` keeps the caller's text under code G0004; given the table's own text
   * it is the general G0004 reply. `ok_with_data` is `new` with code G0001 and no headers.
   */
  lemma ConstructorsAgree<T>(message: string, data: T)
    ensures NewError<T>(message).body.message == message && NewError<T>(message).body.messageCode == "G0004"
    ensures NewError<T>(message).body.data.None? && NewError<T>(message).header == []
    ensures NewError<T>("Bad request!") == NewGeneral<T>("G0004")
    ensures OkWithData(data) == New([], "G0001", data)
    ensures OkWithData(data).body.message == "Successfully!"
  {
  }
}
