/**
 * The deterministic parts of the Drive upload flow (src/ai/flows/save-to-drive.ts): the
 * credential cleaning, the file name, the check of the service's reply and the mapping of
 * failures to the message the flow throws. The upload itself is the `reply` parameter.
 */
module SaveToDrive {
  import opened Wrappers
  import opened JsString

  const BearerPrefix := "Bearer "
  const UntitledName := "Untitled Oreganote"
  /**
   * One message in the flow; it is written as two literals because the verifier can read
   * the first character of the short one but not of a single 96-character literal.
   */
  const AuthFailedMessage :=
    "Authentication failed. " + "Please ensure you have a valid access token and the Drive API is enabled."
  const MissingFieldsMessage := "Failed to create file in Google Drive, ID or name missing in response."
  const SaveFailedPrefix := "Failed to save to Google Drive: "

  /** The flow's input. */
  datatype SaveToDriveInput = SaveToDriveInput(noteTitle: string, noteContent: string, accessToken: string)

  /** The file-creation request the flow sends. */
  datatype CreateRequest = CreateRequest(
    accessToken: string, name: string, parents: seq<string>, mimeType: string, body: string)

  /** The fields the service returns for a created file; any of them may be missing. */
  datatype DriveFile = DriveFile(id: Option<string>, name: Option<string>, webViewLink: Option<string>)

  /**
   * An error the client library throws: its numeric `code` (absent when not a number), the
   * `reason` of each entry of its `errors` list, and its `message`.
   */
  datatype DriveError = DriveError(code: Option<int>, reasons: seq<string>, message: string)

  /** How the creation call ends: with a reply, or by throwing. */
  datatype CreateReply = Created(file: DriveFile) | Rejected(error: DriveError)

  /** The flow's output. */
  datatype SaveToDriveOutput = SaveToDriveOutput(fileId: string, fileName: string, webViewLink: Option<string>)

  /** A JavaScript-truthy optional string: present and non-empty. */
  predicate Present(field: Option<string>) {
    field.Some? && field.value != ""
  }

  /**
   * `cleanAccessToken`: a token that starts with exactly "Bearer " loses those seven
   * characters, once; any other token, "bearer x" included, is passed on unchanged.
   */
  function CleanAccessToken(accessToken: string): (token: string)
    ensures StartsWith(accessToken, BearerPrefix) ==> accessToken == BearerPrefix + token
    ensures !StartsWith(accessToken, BearerPrefix) ==> token == accessToken
  {
    if StartsWith(accessToken, BearerPrefix) then accessToken[|BearerPrefix|..] else accessToken
  }

  lemma CleanAccessTokenStripsOnce()
    ensures CleanAccessToken("Bearer Bearer x") == "Bearer x"
  {
    assert StartsWith("Bearer Bearer x", BearerPrefix);
  }

  lemma CleanAccessTokenIsCaseSensitive()
    ensures CleanAccessToken("bearer x") == "bearer x"
  {
    assert "bearer x"[0] != BearerPrefix[0];
  }

  /**
   * `fileName`: the trimmed title plus ".txt", or "Untitled Oreganote.txt" for a blank
   * title; the result is the generic name exactly when the title is blank or trims to
   * "Untitled Oreganote".
   */
  function DriveFileName(noteTitle: string): (name: string)
    ensures !AllWhitespace(noteTitle) ==> name == Trim(noteTitle) + ".txt"
    ensures AllWhitespace(noteTitle) ==> name == "Untitled Oreganote.txt"
    ensures name == "Untitled Oreganote.txt" <==> AllWhitespace(noteTitle) || Trim(noteTitle) == UntitledName
    ensures |name| > 4 && name[|name| - 4..] == ".txt"
  {
    var title := Trim(noteTitle);
    var stem := if title != "" then title else UntitledName;
    assert (stem + ".txt")[..|stem|] == stem;
    assert (UntitledName + ".txt")[..|UntitledName|] == UntitledName;
    stem + ".txt"
  }

  /** The request built from the input: cleaned token, derived name, the Drive root, plain text. */
  function BuildRequest(input: SaveToDriveInput): (request: CreateRequest)
    ensures request.accessToken == CleanAccessToken(input.accessToken)
    ensures request.name == DriveFileName(input.noteTitle)
    ensures request.body == input.noteContent
    ensures request.parents == ["root"] && request.mimeType == "text/plain"
    ensures |request.accessToken| <= |input.accessToken|
    ensures |request.name| > 4 && request.name[|request.name| - 4..] == ".txt"
  {
    CreateRequest(CleanAccessToken(input.accessToken), DriveFileName(input.noteTitle),
                  ["root"], "text/plain", input.noteContent)
  }

  /** The catch block's test: HTTP 401, or any listed reason equal to "authError". */
  predicate IsAuthError(error: DriveError) {
    error.code == Some(401) || "authError" in error.reasons
  }

  /**
   * The message the flow rethrows: the authentication message exactly for authentication
   * errors, otherwise the service's message behind the generic prefix.
   */
  function ErrorMessage(error: DriveError): (message: string)
    ensures message == AuthFailedMessage <==> IsAuthError(error)
    ensures !IsAuthError(error) ==> message == SaveFailedPrefix + error.message
  {
    if IsAuthError(error) then
      AuthFailedMessage
    else
      var message := SaveFailedPrefix + error.message;
      assert message[0] == SaveFailedPrefix[0] == 'F';
      assert AuthFailedMessage[0] == 'A';
      message
  }

  /**
   * The flow's result for a given outcome of the creation call. A reply lacking a truthy
   * `id` or `name` throws inside the try block, so the catch block turns it into the generic
   * failure; it never yields a result.
   */
  function SaveOutcome(reply: CreateReply): (r: Result<SaveToDriveOutput, string>)
    ensures r.Success? <==> reply.Created? && Present(reply.file.id) && Present(reply.file.name)
    ensures r.Success? ==> reply.file.id == Some(r.value.fileId) && reply.file.name == Some(r.value.fileName)
    ensures r.Success? ==> (r.value.webViewLink.Some? <==> Present(reply.file.webViewLink))
    ensures r.Success? && r.value.webViewLink.Some? ==> reply.file.webViewLink == r.value.webViewLink
    ensures reply.Created? && !r.Success? ==> r.error == SaveFailedPrefix + MissingFieldsMessage
    ensures reply.Rejected? && IsAuthError(reply.error) ==> r == Failure(AuthFailedMessage)
    ensures reply.Rejected? && !IsAuthError(reply.error)
            ==> r == Failure(SaveFailedPrefix + reply.error.message)
  {
    match reply
    case Created(file) =>
      if !Present(file.id) || !Present(file.name) then
        Failure(ErrorMessage(DriveError(None, [], MissingFieldsMessage)))
      else
        Success(SaveToDriveOutput(file.id.value, file.name.value,
                                  if Present(file.webViewLink) then file.webViewLink else None))
    case Rejected(error) =>
      Failure(ErrorMessage(error))
  }
}
