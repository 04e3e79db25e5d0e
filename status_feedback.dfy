/**
 * The feedback banner: which banner (if any) is shown for the current error
 * and success flags, and how a raw backend error is translated into a
 * message for the user by substring rules tried in a fixed order.
 */
module StatusFeedback {
  import opened JsBuiltins

  const NoColumnsToParse := "No columns to parse"
  const EncodingWord := "encoding"
  const ColumnWord := "column"
  const NotFound := "not found"

  const EmptyFileMessage := "The file is empty or formatted incorrectly. Please check your CSV content."
  const EncodingMessage := "Encoding error detected. Please ensure the file is saved as UTF-8 or Latin-1."
  const MissingColumnsMessage := "Required columns missing. Ensure your CSV has: 'Cliente', 'Valor', 'Data da Emissão', 'Pedido' and 'CNPJ/CPF'."
  const GenericMessage := "An unexpected error occurred during analysis."
  const ServiceFallback := "Analysis Error: Failed to process sales data."
  const SuccessMessage := "Analysis completed successfully!"

  /**
   * An error object as the banner reads it: `response.data.detail` when the
   * error has a response, and `message`. The request function of this app
   * throws a plain `Error`, so the backend's detail arrives as `message`
   * (see `ServiceError`). An absent field and an empty string are both falsy.
   */
  datatype ApiError = ApiError(responseDetail: Option<string>, message: Option<string>)

  /** An error made by the dashboard itself, with only a message. */
  function LocalError(message: string): ApiError {
    ApiError(None, Some(message))
  }

  /** A string that JavaScript treats as true: present and non-empty. */
  predicate Truthy(s: Option<string>) {
    s.Some? && s.value != ""
  }

  /**
   * The error the request function throws for a failed response: an `Error`
   * whose message is the backend's `detail`, or a fixed text when the detail
   * is missing or empty. It has no `response`, so the banner reads the detail
   * from its message.
   */
  function ServiceError(detail: Option<string>): (e: ApiError)
    ensures e.responseDetail.None?
    ensures Detail(e) == if Truthy(detail) then detail.value else ServiceFallback
  {
    LocalError(if Truthy(detail) then detail.value else ServiceFallback)
  }

  /** `response.data.detail || message || ""`: the first truthy text of the error. */
  function Detail(e: ApiError): (detail: string)
    ensures Truthy(e.responseDetail) ==> detail == e.responseDetail.value
    ensures !Truthy(e.responseDetail) && Truthy(e.message) ==> detail == e.message.value
    ensures detail == "" <==> !Truthy(e.responseDetail) && !Truthy(e.message)
  {
    if Truthy(e.responseDetail) then e.responseDetail.value
    else if Truthy(e.message) then e.message.value
    else ""
  }

  /**
   * `getErrorMessage`: the first rule whose text occurs in the detail wins;
   * a detail no rule matches is shown as it is, and an empty one gives the
   * generic message. The message shown is never empty.
   */
  function ErrorMessage(detail: string): (message: string)
    ensures Includes(detail, NoColumnsToParse) ==> message == EmptyFileMessage
    ensures !Includes(detail, NoColumnsToParse) && Includes(detail, EncodingWord) ==> message == EncodingMessage
    ensures (!Includes(detail, NoColumnsToParse) && !Includes(detail, EncodingWord)
             && (Includes(detail, ColumnWord) || Includes(detail, NotFound))) ==> message == MissingColumnsMessage
    ensures (!Includes(detail, NoColumnsToParse) && !Includes(detail, EncodingWord)
             && !Includes(detail, ColumnWord) && !Includes(detail, NotFound)) ==>
              message == if detail == "" then GenericMessage else detail
    ensures message != ""
  {
    if Includes(detail, NoColumnsToParse) then EmptyFileMessage
    else if Includes(detail, EncodingWord) then EncodingMessage
    else if Includes(detail, ColumnWord) || Includes(detail, NotFound) then MissingColumnsMessage
    else if detail != "" then detail
    else GenericMessage
  }

  /**
   * Why the order of the rules matters: every detail that mentions "No
   * columns to parse" also mentions "column", yet it is reported as an empty
   * or malformed file, not as missing columns.
   */
  lemma NoColumnsWinsOverColumnRule(detail: string)
    requires Includes(detail, NoColumnsToParse)
    ensures Includes(detail, ColumnWord)
    ensures ErrorMessage(detail) == EmptyFileMessage != MissingColumnsMessage
  {
    IncludesAt(NoColumnsToParse, ColumnWord, 3);
    IncludesTransitive(detail, NoColumnsToParse, ColumnWord);
    assert |EmptyFileMessage| != |MissingColumnsMessage|;
  }

  /** What the feedback area shows. */
  datatype Feedback = Hidden | ErrorBanner(text: string) | SuccessBanner(text: string)

  /**
   * The feedback area: nothing without an error or a success; an error wins
   * over a success and is translated; a success alone shows the fixed text.
   */
  function Describe(error: Option<ApiError>, success: bool): (shown: Feedback)
    ensures shown.Hidden? <==> error.None? && !success
    ensures error.Some? ==> shown == ErrorBanner(ErrorMessage(Detail(error.value)))
    ensures error.None? && success ==> shown == SuccessBanner(SuccessMessage)
  {
    match error
    case Some(e) => ErrorBanner(ErrorMessage(Detail(e)))
    case None => if success then SuccessBanner(SuccessMessage) else Hidden
  }

  /** A banner, once shown, always has something to say. */
  lemma BannerIsNeverBlank(error: Option<ApiError>, success: bool)
    requires error.Some? || success
    ensures !Describe(error, success).Hidden?
    ensures Describe(error, success).text != ""
  {
  }

  /**
   * `pandas` reports an empty upload as "No columns to parse from file"; the
   * request function turns that detail into an error message, and the user
   * sees the empty-file message.
   */
  lemma EmptyUploadExample()
    ensures ErrorMessage(Detail(ServiceError(Some("No columns to parse from file")))) == EmptyFileMessage
  {
    IncludesAt("No columns to parse from file", NoColumnsToParse, 0);
  }
}
