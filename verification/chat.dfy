/** The `/chat` endpoint of the backend (backend/main.py): it turns the request
    into the provider's conversation, asks the text-generation provider for a
    reply, derives the UI action from the contact marker, and maps provider
    failures to HTTP errors. The provider is a parameter of the endpoint. */
module Chat {
  import opened Wrappers
  import opened Strings
  import Prompt

  const User: string := "user"
  const Model: string := "model"

  /** The only action the backend ever reports. */
  const ContactSupport: string := "contact_support"

  /** The provider model the endpoint asks for. */
  const GenerationModel: string := "gemini-2.0-flash"

  const NotConfiguredDetail: string := "Gemini API Key not configured."
  const QuotaExceededDetail: string := "Gemini quota exceeded. Please wait and try again."

  /** One earlier turn as the client sends it; the role is free text. */
  datatype ChatMessage = ChatMessage(role: string, content: string)

  /** The request body. An omitted `history` is the empty sequence. */
  datatype ChatRequest = ChatRequest(message: string, history: seq<ChatMessage>)

  /** The reply body; `action` is `None` or the name of a UI action. */
  datatype ChatResponse = ChatResponse(response: string, action: Option<string>)

  /** One entry of the provider's conversation, `Content(role, parts=[text])`. */
  datatype Content = Content(role: string, text: string)

  /** What one call to the provider can come to: generated text, a failure
      raised as `ResourceExhausted` (the class the endpoint treats as a quota
      error), or any other failure with its message. */
  datatype Outcome = Generated(text: string) | Exhausted | Failed(error: string)

  /** What the endpoint answers: 200 with a body, or an HTTP error. */
  datatype HttpResult = Ok(body: ChatResponse) | HttpError(status: int, detail: string)

  /** The roles the provider accepts. */
  predicate IsProviderRole(role: string)
  {
    role == User || role == Model
  }

  /** Role normalisation: exactly `"user"` stays `"user"`, anything else is `"model"`. */
  function NormalizeRole(role: string): (r: string)
    ensures IsProviderRole(r)
    ensures r == User <==> role == User
  {
    if role == User then User else Model
  }

  /** Normalising a normalised role changes nothing, and provider roles are kept. */
  lemma NormalizeRoleIdempotent(role: string)
    ensures NormalizeRole(NormalizeRole(role)) == NormalizeRole(role)
    ensures IsProviderRole(role) ==> NormalizeRole(role) == role
  {
  }

  /** The provider conversation: the system prompt as a leading user turn, each
      history turn in order with its role normalised and its content kept, and
      the new message as a trailing user turn. */
  method BuildContents(systemPrompt: string, request: ChatRequest) returns (contents: seq<Content>)
    ensures |contents| == |request.history| + 2
    ensures contents[0] == Content(User, systemPrompt)
    ensures contents[|contents| - 1] == Content(User, request.message)
    ensures forall i :: 0 <= i < |request.history| ==>
              contents[i + 1] == Content(NormalizeRole(request.history[i].role), request.history[i].content)
    ensures forall i :: 0 <= i < |contents| ==> IsProviderRole(contents[i].role)
    ensures (forall i :: 0 <= i < |request.history| ==> IsProviderRole(request.history[i].role)) ==>
              forall i :: 0 <= i < |request.history| ==>
                contents[i + 1] == Content(request.history[i].role, request.history[i].content)
    ensures request.history == [] ==> contents == [Content(User, systemPrompt), Content(User, request.message)]
  {
    contents := [Content(User, systemPrompt)];
    for i := 0 to |request.history|
      invariant |contents| == i + 1
      invariant contents[0] == Content(User, systemPrompt)
      invariant forall j :: 0 <= j < i ==>
                  contents[j + 1] == Content(NormalizeRole(request.history[j].role), request.history[j].content)
      invariant forall j :: 0 <= j < |contents| ==> IsProviderRole(contents[j].role)
    {
      var msg := request.history[i];
      contents := contents + [Content(NormalizeRole(msg.role), msg.content)];
    }
    contents := contents + [Content(User, request.message)];
  }

  /** Action extraction. When the reply contains the contact marker, every
      occurrence is removed, the ends are stripped and the action is
      `contact_support`; otherwise the reply is returned as it is (not stripped)
      with no action. */
  function ExtractAction(text: string): (r: ChatResponse)
    ensures r.action == None || r.action == Some(ContactSupport)
    ensures r.action == Some(ContactSupport) <==> Contains(text, Prompt.ContactToken)
    ensures !Contains(text, Prompt.ContactToken) ==> r.response == text
    ensures Contains(text, Prompt.ContactToken) ==>
              NoEdgeWhitespace(r.response) && |r.response| <= |text| - |Prompt.ContactToken|
  {
    if Contains(text, Prompt.ContactToken) then
      ReplaceAllShrinks(text, Prompt.ContactToken, "");
      ChatResponse(Strip(ReplaceAll(text, Prompt.ContactToken, "")), Some(ContactSupport))
    else
      ChatResponse(text, None)
  }

  /** A reply that ends with the marker after some text loses the marker and the
      space before it. */
  lemma ExtractActionExample(text: string)
    requires text == "Here is info. [CONTACT_PAGE]"
    ensures ExtractAction(text) == ChatResponse("Here is info.", Some(ContactSupport))
  {
    var body := "Here is info.";
    assert text == body + " " + Prompt.ContactToken;
    forall j | 0 <= j < |body + " "| ensures !OccursAt(text, Prompt.ContactToken, j) {
      assert text[j + 13] != Prompt.ContactToken[13];
    }
    TrailingMarker(body);
  }

  /** Text, a space and the marker: the marker and the space go. */
  lemma TrailingMarker(body: string)
    requires NoEdgeWhitespace(body)
    requires forall j :: 0 <= j < |body + " "| ==>
               !OccursAt(body + " " + Prompt.ContactToken, Prompt.ContactToken, j)
    ensures ExtractAction(body + " " + Prompt.ContactToken) == ChatResponse(body, Some(ContactSupport))
  {
    var pre := body + " ";
    assert pre + Prompt.ContactToken + [] == body + " " + Prompt.ContactToken;
    RemoveOnlyOccurrence(pre, Prompt.ContactToken, []);
    assert pre + [] == pre;
    StripTrailingSpace(body);
  }

  /** Removing the marker can create a new one: one pass over
      `[CONTACT_[CONTACT_PAGE]PAGE]` leaves `[CONTACT_PAGE]`, so a second
      extraction still finds the marker, and extraction is not idempotent. */
  lemma ExtractActionNotIdempotent(text: string)
    requires text == "[CONTACT_[CONTACT_PAGE]PAGE]"
    ensures ExtractAction(text).response == Prompt.ContactToken
    ensures ExtractAction(ExtractAction(text).response) != ExtractAction(text)
  {
    var pre, post := "[CONTACT_", "PAGE]";
    assert text == pre + Prompt.ContactToken + post;
    forall j | 0 <= j < |pre| ensures !OccursAt(text, Prompt.ContactToken, j) {
      assert text[j + 9] != Prompt.ContactToken[9];
    }
    assert pre + post == Prompt.ContactToken;
    MarkerReappears(pre, post);
    MarkerAlone();
  }

  /** When the two halves of the marker surround a marker (and no occurrence
      starts earlier), one extraction leaves exactly the marker. */
  lemma MarkerReappears(pre: string, post: string)
    requires pre + post == Prompt.ContactToken && pre != []
    requires forall j :: 0 <= j < |pre| ==>
               !OccursAt(pre + Prompt.ContactToken + post, Prompt.ContactToken, j)
    ensures ExtractAction(pre + Prompt.ContactToken + post) == ChatResponse(Prompt.ContactToken, Some(ContactSupport))
  {
    RemoveOnlyOccurrence(pre, Prompt.ContactToken, post);
    StripKeepsTrimmed(Prompt.ContactToken);
  }

  /** The bare marker extracts to an empty reply with the action set. */
  lemma MarkerAlone()
    ensures ExtractAction(Prompt.ContactToken) == ChatResponse("", Some(ContactSupport))
  {
    assert [] + Prompt.ContactToken + [] == Prompt.ContactToken;
    RemoveOnlyOccurrence([], Prompt.ContactToken, []);
  }

  /** Provider outcome to HTTP answer: generated text becomes a 200 reply after
      action extraction, a `ResourceExhausted` failure a 429 with a fixed
      message, and any other failure a 500 carrying the failure's text. */
  function AnswerFor(outcome: Outcome): (result: HttpResult)
    ensures result.Ok? <==> outcome.Generated?
    ensures result.HttpError? ==> result.status == 429 || result.status == 500
    ensures result.HttpError? && result.status == 429 <==> outcome.Exhausted?
    ensures outcome.Exhausted? ==> result.detail == QuotaExceededDetail
    ensures outcome.Failed? ==> result.detail == outcome.error
    ensures outcome.Generated? ==> result.body == ExtractAction(outcome.text)
  {
    match outcome
    case Generated(text) => Ok(ExtractAction(text))
    case Exhausted => HttpError(429, QuotaExceededDetail)
    case Failed(error) => HttpError(500, error)
  }

  /** `POST /chat`. Without a configured client the answer is the fixed 500 and
      the provider is not called (`sent` is `None`). Otherwise the provider is
      called once, with the generation model and the built conversation
      (`sent`), and its outcome is turned into the answer. */
  method ChatEndpoint(configured: bool, systemPrompt: string, request: ChatRequest,
                      generate: (string, seq<Content>) -> Outcome)
    returns (result: HttpResult, sent: Option<seq<Content>>)
    ensures !configured ==> result == HttpError(500, NotConfiguredDetail) && sent == None
    ensures configured ==> sent.Some?
    ensures configured ==> |sent.value| == |request.history| + 2
                           && sent.value[0] == Content(User, systemPrompt)
                           && sent.value[|sent.value| - 1] == Content(User, request.message)
    ensures configured ==> forall i :: 0 <= i < |request.history| ==>
              sent.value[i + 1] == Content(NormalizeRole(request.history[i].role), request.history[i].content)
    ensures configured ==> result == AnswerFor(generate(GenerationModel, sent.value))
    ensures result.Ok? ==> result.body.action == None || result.body.action == Some(ContactSupport)
    ensures result.HttpError? ==> result.status == 429 || result.status == 500
  {
    if !configured {
      return HttpError(500, NotConfiguredDetail), None;
    }
    var contents := BuildContents(systemPrompt, request);
    sent := Some(contents);
    result := AnswerFor(generate(GenerationModel, contents));
  }

  /** `GET /`: a fixed, non-empty liveness message, whatever the configuration. */
  function Root(): (message: string)
    ensures |message| > 0
  {
    "Ava Chatbot Backend is running"
  }
}
