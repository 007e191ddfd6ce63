# Ava chat backend: a Dafny model of its request and response handling

The Ava chatbot backend is a single-endpoint relay. `POST /chat` takes a user
message and the earlier conversation. It prefixes a system prompt built from
scraped company context, sends the conversation to a text-generation provider
(Gemini), and returns the reply with a UI action flag derived from a marker
token. A companion scraper collapses the whitespace of a web page's text before
saving it as that company context.

This project models the logic in that path. The provider, files, the network and
the web framework are not modelled.

- `strings.dfy` (module `Strings`): the parts of Python's `str` that the backend
  relies on. `isspace` is an explicit character set: the full whitespace set of
  Python's `str.isspace`. The `in` substring test, `replace`, the two halves of
  `strip`, `split()` and `join` are recursive functions with lemmas. `strip`
  itself is the composition of its two halves.
  The `in` scan agrees with an index-based definition. `replace` follows Python's
  find-leftmost-then-continue algorithm. `strip` removes only whitespace, and only
  at the ends. `split` returns the maximal runs of non-whitespace characters: a
  whitespace run is skipped and never breaks a word apart. Joining words with
  single spaces and splitting again gives the words back. `split` drops every
  whitespace character and keeps every other character, in order.
- `scraper.dfy` (module `Scraper`): the clean-up `" ".join(text.split())`.
- `prompt.dfy` (module `Prompt`): `COMPANY_INFO` (the file contents, or a fixed
  placeholder when the file is missing) and the `SYSTEM_PROMPT` template, with its
  fixed text taken verbatim.
- `chat.dfy` (module `Chat`): the request and response shapes. It also holds role
  normalisation and the loop that builds the provider conversation (a method).
  Action extraction is there too, along with the mapping from provider outcome to
  HTTP answer and the endpoint itself. The provider call is the parameter
  `generate`. It is a function from the model name and the conversation to an
  outcome: text, a call that raises `ResourceExhausted`, or any other failure
  with its message. The endpoint's `systemPrompt` parameter is `SYSTEM_PROMPT`,
  that is `Prompt.SystemPrompt(Prompt.CompanyInfo(file))` for the context file
  read at start-up. A missing file therefore gives a prompt that embeds the
  placeholder (`Prompt.StartupPromptEmbedsContext`), and `/chat` works the same
  way with it.

Extraction is not idempotent. One might expect that extracting twice gives the
same result as extracting once. The code does not do that. Python's `replace`
makes one left-to-right pass, so removing the marker can create a new one.
`"[CONTACT_[CONTACT_PAGE]PAGE]"` becomes `"[CONTACT_PAGE]"`. The model follows the
code and proves this counterexample (`Chat.ExtractActionNotIdempotent`).

## Model

| member | source | states |
|---|---|---|
| `Strings.IsWhitespace` | backend/main.py:114 | No contract of its own: it is the explicit set of characters that Python's `str.isspace` accepts. `strip()` (backend/main.py:114) and `split()` (scrape_data.py:17) use it, and `TrimStart`, `TrimEnd` and `WordLength` state their results in terms of it. |
| `Strings.WhitespaceClassification` | scrape_data.py:17 | Space, tab, newline, carriage return, vertical tab and form feed are whitespace. ASCII letters and digits are not, and neither are `[`, `]` and `_` from the marker. |
| `Strings.Contains` | backend/main.py:112 | The `in` scan: the empty pattern is always found, and a pattern found is never longer than the text. `ContainsIffOccurs` fixes its meaning fully. |
| `Strings.ContainsIffOccurs` | backend/main.py:112 | The `in` scan is true exactly when some index holds a copy of the pattern (both directions). |
| `Strings.ContainsExtendLeft` | backend/main.py:112 | Text put in front of a string keeps every substring it had. |
| `Strings.ReplaceAll` | backend/main.py:114 | `replace` never lengthens the text when the replacement is no longer than the pattern, and keeps the length when both are equally long. |
| `Strings.ReplaceAllWithoutMatch` | backend/main.py:114 | Without an occurrence of the pattern, `replace` returns its input unchanged. |
| `Strings.ReplaceAllShrinks` | backend/main.py:114 | With an occurrence, the result is shorter by at least the pattern's length minus the replacement's. |
| `Strings.ReplaceAllLeftmost` | backend/main.py:114 | Python's algorithm: at the leftmost occurrence, copy the prefix, emit the replacement, and continue after the occurrence without rescanning. |
| `Strings.RemoveOnlyOccurrence` | backend/main.py:114 | Deleting the single occurrence from `pre + pat + post` leaves `pre + post`. |
| `Strings.TrimStart` | backend/main.py:114 | The left half of `strip`: the result is a suffix of the input, what was dropped is all whitespace, and the result does not start with whitespace. |
| `Strings.TrimEnd` | backend/main.py:114 | The right half of `strip`: the result is a prefix, what was dropped is all whitespace, and the result does not end with whitespace. |
| `Strings.Strip` | backend/main.py:114 | `strip()` leaves no whitespace at either end and never lengthens the text. |
| `Strings.StripIsSlice` | backend/main.py:114 | The stripped text is the contiguous slice of the input that starts where the leading whitespace ends, with only whitespace on both sides of it. |
| `Strings.StripKeepsTrimmed` | backend/main.py:114 | Text whose ends are not whitespace is left unchanged by `strip()`. |
| `Strings.StripTrailingSpace` | backend/main.py:114 | One trailing space after trimmed text is removed by `strip()`. |
| `Strings.StripIdempotent` | backend/main.py:114 | Stripping twice equals stripping once. |
| `Strings.WordLength` | scrape_data.py:17 | The leading run of non-whitespace characters is bounded by the input and ends at whitespace or at the end. |
| `Strings.Split` | scrape_data.py:17 | Every word that `split()` returns is non-empty and contains no whitespace. |
| `Strings.SplitEmptyIffAllWhitespace` | scrape_data.py:17 | `split()` returns no words exactly when the input is empty or all whitespace. |
| `Strings.SplitSkipsWhitespace` | scrape_data.py:17 | A whitespace character in front of a string does not change how the rest splits. |
| `Strings.SplitSkipsWhitespaceRun` | scrape_data.py:17 | A whole whitespace run in front of a string does not change how the rest splits. |
| `Strings.SplitTwoWords` | scrape_data.py:17 | Two words separated by any non-empty whitespace run split into exactly those two words. Together with `SplitLeadingWord`, `SplitSkipsWhitespace`, `SplitSkipsWhitespaceRun` and `SplitEmptyIffAllWhitespace` (for the empty case), this makes the words the maximal non-whitespace runs. |
| `Strings.SplitLeadingWord` | scrape_data.py:17 | A string that starts with a word followed by whitespace (or by nothing) splits into that word and then the split of the rest. |
| `Strings.Join` | scrape_data.py:17 | `sep.join(words)`: no words give the empty string. Otherwise the length is the words' total length plus one separator between each pair. `SplitJoin` and `JoinedWordsShape` fix its meaning for a single-space separator. |
| `Strings.SplitJoin` | scrape_data.py:17 | Splitting words joined by single spaces gives back the same words. |
| `Strings.JoinedWordsShape` | scrape_data.py:17 | Words joined by single spaces give text that is empty only for no words, has no edge whitespace, uses only `' '` as whitespace, and has no two adjacent spaces. |
| `Strings.SplitKeepsCharacters` | scrape_data.py:17 | Concatenating the words of `split()` gives every non-whitespace character of the input, in order. |
| `Scraper.CollapseWhitespace` | scrape_data.py:17 | The cleaned text has no leading or trailing whitespace, uses only `' '` as whitespace, never has two adjacent spaces, and has the input's words in order. It is empty exactly when the input is all whitespace. |
| `Scraper.CollapseWhitespaceExample` | scrape_data.py:17 | `"ab\tcd"` splits into `["ab", "cd"]` and cleans to `"ab cd"`. |
| `Scraper.CollapseWhitespaceIdempotent` | scrape_data.py:17 | Cleaning already-cleaned text changes nothing. |
| `Scraper.CollapseWhitespaceKeepsCharacters` | scrape_data.py:17 | Cleaning keeps every non-whitespace character of the input, in order. |
| `Prompt.CompanyInfo` | backend/main.py:38-45 | `COMPANY_INFO` is the file's contents when the file exists and the placeholder when it is missing. It is empty only when the file exists and is empty. `StartupPromptEmbedsContext` ties it to the prompt. |
| `Prompt.SystemPrompt` | backend/main.py:64-80 | The prompt starts with the fixed preamble, is longer than the context it embeds, and after the preamble and the context comes exactly the fixed guidelines text. So the prompt is the preamble, then the context, then the guidelines. The literal text of both fixed parts is the template of backend/main.py:64-80. `SystemPromptContainsInfo`, `SystemPromptMentionsToken` and `SystemPromptInjective` state the context placement, the marker instruction and injectivity. |
| `Prompt.StartupPromptEmbedsContext` | backend/main.py:38-70 | The startup prompt contains the file's contents when the file exists, and the fixed placeholder when it is missing. |
| `Prompt.SystemPromptContainsInfo` | backend/main.py:64-80 | The company context occurs in the system prompt, right after the fixed preamble. |
| `Prompt.SystemPromptMentionsToken` | backend/main.py:75-79 | Whatever the context, the system prompt contains the `[CONTACT_PAGE]` marker that the model is told to emit. |
| `Prompt.SystemPromptInjective` | backend/main.py:64-80 | Two different contexts give two different system prompts. |
| `Chat.NormalizeRole` | backend/main.py:98 | The normalised role is always `"user"` or `"model"`, and it is `"user"` exactly when the input role is `"user"`. |
| `Chat.NormalizeRoleIdempotent` | backend/main.py:98 | Normalising a normalised role changes nothing, and `"user"`/`"model"` pass through unchanged. |
| `Chat.BuildContents` | backend/main.py:95-101 | The conversation has `|history| + 2` turns. The system prompt comes first as a user turn and the message comes last as a user turn. Turn `i+1` keeps history turn `i`'s content and gets its normalised role, in order. Every role is `"user"` or `"model"`. A history with only those roles passes through unchanged. An empty (omitted) history gives exactly the two turns. |
| `Chat.ExtractAction` | backend/main.py:111-114 | The action is only ever none or `contact_support`, and it is `contact_support` exactly when the marker occurs. Without the marker the text is returned untouched, not stripped. With it, the response has no edge whitespace and is shorter than the reply by at least the marker's length. |
| `Chat.ExtractActionExample` | backend/main.py:111-116 | `"Here is info. [CONTACT_PAGE]"` yields the response `"Here is info."` with action `contact_support`. |
| `Chat.TrailingMarker` | backend/main.py:112-114 | Text without edge whitespace (the empty text included) followed by a space and the marker, where no marker starts before that final one (so the text contains no marker), yields that text with the action set. |
| `Chat.ExtractActionNotIdempotent` | backend/main.py:112-114 | `"[CONTACT_[CONTACT_PAGE]PAGE]"` extracts to `"[CONTACT_PAGE]"`, and a second extraction gives a different result. |
| `Chat.MarkerReappears` | backend/main.py:114 | A marker surrounded by the two halves of a marker extracts to exactly the marker. |
| `Chat.MarkerAlone` | backend/main.py:112-114 | The bare marker extracts to an empty response with the action set. |
| `Chat.AnswerFor` | backend/main.py:109-123 | Generated text gives 200 with the extracted response. A call that raises `ResourceExhausted`, and nothing else, gives 429 with the fixed message. Any other failure gives 500 carrying its text. No other status occurs. |
| `Chat.ChatEndpoint` | backend/main.py:88-123 | Without a configured client the answer is 500 "Gemini API Key not configured." and the provider is never called. Otherwise the provider is called once, with `gemini-2.0-flash` and the built conversation, and its outcome decides the answer. Every answer is 200, 429 or 500. |
| `Chat.Root` | backend/main.py:83-85 | `GET /` answers a fixed, non-empty message whatever the configuration. |

## Left out

- The Gemini SDK call and `response.text` (backend/main.py:104-109) are a foreign network call. They are the `generate` parameter, whose result is an abstract outcome.
- A reply whose `response.text` is `None` (for example a blocked answer) is not modelled. In the code the `in` test then raises a `TypeError`, which the handler turns into a 500. Here `generate` always yields a string when it succeeds.
- An explicit `null` history makes the loop at backend/main.py:97 raise before the `try`. That is framework behaviour and is not modelled. An omitted history is the empty sequence.
- Request validation by the web framework (malformed bodies, wrong field types) is not modelled.
- Reading `company_info.txt`, `load_dotenv`, the environment lookup of the API key, CORS, logging with `print` and `uvicorn` start-up are I/O and configuration. The file read is the `Option<string>` given to `Prompt.CompanyInfo`, with `None` for "file not found". Whether a client is configured is the boolean `configured`. Other file errors, which would stop start-up, and text-mode newline translation are not modelled.
- The scraper's `requests.get`, `BeautifulSoup.get_text`, the file write and its error handling (scrape_data.py:9-14, 19-30) are network, foreign parsing and I/O. Only line 17 is modelled, over any input string.
- `Strings.ReplaceAll` requires a non-empty pattern. Python's `replace` with an empty pattern inserts the replacement between characters. The backend only replaces the fixed marker, so that case never arises.
- `Chat.ChatEndpoint`: its `sent` out-parameter records the conversation handed to the provider (`None` when there was no call). The code has no such value. It stands for "zero or one upstream calls".
- Which provider failures raise `ResourceExhausted` is not decided. That class comes from `google.api_core.exceptions` (backend/main.py:7, 118), while the client comes from `google.genai` (backend/main.py:4, 48). The outcome `Chat.Exhausted` stands for "the call raised that class". A quota error the client reports with some other exception type is a `Chat.Failed` outcome and gets 500 (backend/main.py:121-123).
- Concurrency between requests is not modelled. The endpoint shares only read-only state (the prompt and the client).
- backend/list_models.py, the React front end and the WordPress plugin are not part of this model. They are a debugging script and UI glue.
