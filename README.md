# crew-das-closures classification core, in Dafny

This project models one team's service of the credsystem 2025 hackathon. The service takes a customer's
free-text intent over HTTP and asks a language model which of sixteen customer-service
categories it belongs to. It answers with a JSON envelope and always uses HTTP status 200.
The model covers four parts of that service:

- **the coherence checker** (`analyzeCoherence` in `internal/core/core.go`). It runs six sanity
  checks over the decoded request and the service data the model returned. It lists a
  diagnostic for each check that fails, in a fixed order. A nil request or nil data ends the
  run early. The response the core builds is successful exactly when that list is empty.
- **the prompt manager** (`internal/prompt/prompt.go`). It holds the classification
  instructions and a service registry. It renders the prompt around a trimmed intent in a
  plain format, or in the `[INST]` format for "mistral" models. It also checks that the model's
  answer mentions both JSON keys.
- **its copy in `internal/core/prompt.go`**. The code is identical. Only the instructions text
  differs, and the service table names service 12 "Consulta do Saldo Conta do Mais". The
  module `CorePrompt` reuses `Prompt`'s types and generators. It defines only what differs,
  and proves that the two tables differ in that one entry.
- **the HTTP handlers** (`internal/service/handlers.go`). `statusOKWriter` forwards 200 on the
  first `WriteHeader`, whatever code it is given, and swallows every later call.
  `responseJSON` writes the content type, the status, then the encoded body or a fixed error
  body. The health handler always answers the status "ok". The find-service handler wraps
  read failures and core failures in an unsuccessful envelope.

Modules: `Wrappers` (Option, Result, Outcome), `Text` (the Go `strings` functions the core
uses, `Contains`, `TrimSpace` and `ToLower`, and the prefix, suffix and framing predicates the
contracts are stated with), `Models` (the records the core exchanges), `Coherence`, `Prompt`, `CorePrompt`,
`Handlers`. The checker is specified by a reference function `Coherence.Diagnostics`. It
lists the messages of the checks that fire, in check order. The imperative
`Coherence.AnalyzeCoherence` is proved to return exactly that list, and the properties are
lemmas about it. The writer wrapper is a class over a recording response writer. Its
invariant says the wrapped writer has received either nothing or exactly one 200.

Behaviour of the code worth knowing:

- Both prompt generators reject only the exact empty string. An all-space intent is accepted
  and renders a prompt with an empty intent (`Prompt.BlankIntentAccepted`).
- Only a failure to read the request body gets the "invalid request: " prefix. An empty or
  malformed body reads fine, fails decoding in `AskQuestion`, and is reported as
  "internal server error: ...".
- The service identifier's checker condition is `<= 0`. The field is a Go `uint8`, so the
  diagnostic means exactly "identifier is 0" (`Coherence.ServiceIdDiagnosticIff`).

The code does not compile as it stands, and the model takes the evident meaning. Among the
reasons:

- `handlers.go` imports `crew-das-clousures`.
- `core.go` calls `GenerateModelSpecificPrompt` with one argument.
- `core.go` calls a `GetModelName` that the prompt manager does not define.
- `internal/core/prompt.go` declares `package prompts` beside `core.go`'s `package core`.
- `internal/prompt/prompt.go` declares `package prompts`, but `core.go` refers to it as `prompt`.
- `core.go` passes a pointer to `ChatCompletion`, which takes an `OpenRouterRequest` value.

## Model

| member | source | states |
|---|---|---|
| Coherence.AnalyzeCoherence | participantes/crew-das-closures/internal/core/core.go:89-124 | the list built check by check, with the early returns on a nil request and nil data, is exactly the messages of the firing checks in check order |
| Coherence.Diagnostics | participantes/crew-das-closures/internal/core/core.go:89-124 | the reference definition: the messages of the checks whose conditions hold, in check order; its meaning is carried by MessageIffFires, DiagnosticsInCheckOrder and NoDiagnosticsIff |
| Coherence.DiagnosticsByCheck | participantes/crew-das-closures/internal/core/core.go:89-124 | the output is the concatenation of each check's own report (its message or nothing), in check order |
| Coherence.MessageIffFires | participantes/crew-das-closures/internal/core/core.go:91-121 | each check's message is in the output if and only if that check's condition holds |
| Coherence.NilRequest | participantes/crew-das-closures/internal/core/core.go:91-94 | a nil request yields exactly "request is nil", whatever the data |
| Coherence.EmptyIntentNilData | participantes/crew-das-closures/internal/core/core.go:96-103 | an empty intent with nil data yields exactly the intent message followed by the nil-data message |
| Coherence.ServiceIdDiagnosticIff | participantes/crew-das-closures/internal/core/core.go:105-107 | "service_id must be > 0" is reported if and only if request and data are present and the uint8 identifier is 0 |
| Coherence.MismatchIff | participantes/crew-das-closures/internal/core/core.go:115-121 | the mismatch message appears if and only if both strings are non-empty and only the lower-cased name contains "segur"; it never comes with an "is empty" message |
| Coherence.AtMostThree | participantes/crew-das-closures/internal/core/core.go:96-121 | with a request present, at most three messages are reported |
| Coherence.ThreeReachable | participantes/crew-das-closures/internal/core/core.go:96-111 | an empty intent with an unnamed service 0 yields the three messages for intent, identifier and name, in that order |
| Coherence.FiredOrdered | participantes/crew-das-closures/internal/core/core.go:89-124 | keeping only the checks that fire preserves their order |
| Coherence.DiagnosticsInCheckOrder | participantes/crew-das-closures/internal/core/core.go:89-124 | whenever two messages appear at positions p < q, the check of the first runs before the check of the second |
| Coherence.NoDiagnosticsIff | participantes/crew-das-closures/internal/core/core.go:89-124 | with both inputs present, the list is empty if and only if the intent and name are set, the identifier is positive and the topics agree |
| Coherence.RespondToClassification | participantes/crew-das-closures/internal/core/core.go:65-83 | the response carries the data and the checker's diagnostics, and success holds if and only if every check passes |
| Text.Contains | participantes/crew-das-closures/internal/prompt/prompt.go:131-135 | Go's `strings.Contains`, as used at core.go:118 and prompt.go:98, 131 and 134; its meaning is carried by ContainsIff |
| Text.ContainsIff | participantes/crew-das-closures/internal/core/core.go:118 | the substring test holds if and only if the substring occurs at some index |
| Text.ToLower | participantes/crew-das-closures/internal/core/core.go:116-117 | the result has the input's length and no capital letter; each capital becomes its small letter and every other character is kept |
| Text.ToLowerIdempotent | participantes/crew-das-closures/internal/core/core.go:116-117 | lower-casing an already lower-cased text changes nothing |
| Text.TrimSpace | participantes/crew-das-closures/internal/prompt/prompt.go:83 | the result is a contiguous slice of the input whose removed ends are white space and whose own ends are not |
| Models.ServiceRegistry.GetServiceByID | participantes/crew-das-closures/internal/prompt/prompt.go:62 | a definition is found if and only if the identifier is registered, and it is then the one filed under that identifier |
| Models.ServiceRegistry.GetFallbackService | participantes/crew-das-closures/internal/prompt/prompt.go:49 | in a well-formed registry the fallback is a registered definition |
| Prompt.NewPromptManager | participantes/crew-das-closures/internal/prompt/prompt.go:43-51 | the default manager uses the shipped instructions and the registry's fallback, and is well-formed over a well-formed registry |
| Prompt.Configure | participantes/crew-das-closures/internal/prompt/prompt.go:54-73 | an empty template falls back to the default instructions; an unknown fallback identifier falls back to the registry's fallback; the result is well-formed |
| Prompt.NewPromptManagerWithConfig | participantes/crew-das-closures/internal/prompt/prompt.go:54-73 | keeps the given registry; an empty template falls back to this package's instructions; the fallback is the registry lookup's hit or the registry's own fallback |
| Prompt.PromptManager.GenerateClassificationPrompt | participantes/crew-das-closures/internal/prompt/prompt.go:76-86 | fails with "user intent cannot be empty" if and only if the intent is empty; otherwise the trimmed intent is exactly what lies between the instructions-plus-label and the JSON trailer |
| Prompt.PromptManager.GenerateModelSpecificPrompt | participantes/crew-das-closures/internal/prompt/prompt.go:89-107 | fails if and only if the intent is empty; for a "mistral" model the trimmed intent follows the `[INST]`-wrapped instructions and label, otherwise it sits between instructions-plus-label and the reasoning trailer |
| Prompt.PromptManager.GetSystemPrompt | participantes/crew-das-closures/internal/prompt/prompt.go:110-112 | a well-formed manager's instructions are non-empty |
| Prompt.PromptManager.GetServiceDefinitions | participantes/crew-das-closures/internal/prompt/prompt.go:115-122 | the list has one entry per registered service, holds only registered definitions and holds every one of them |
| Prompt.PromptManager.GetFallbackService | participantes/crew-das-closures/internal/prompt/prompt.go:125-127 | a well-formed manager's fallback is a registered definition |
| Prompt.PromptManager.ValidatePromptResponse | participantes/crew-das-closures/internal/prompt/prompt.go:130-138 | passes if and only if both quoted keys occur; a missing "service_id" is reported first, then a missing "service_name" |
| Prompt.BlankIntentAccepted | participantes/crew-das-closures/internal/prompt/prompt.go:76-86 | a non-empty all-space intent is accepted and renders as the instructions, the label and the trailer with nothing between them |
| Prompt.ClassificationPromptInjective | participantes/crew-das-closures/internal/prompt/prompt.go:81-83 | two intents with the same classification prompt trim to the same text |
| Prompt.TrimmedIntentVerbatim | participantes/crew-das-closures/internal/prompt/prompt.go:81-83 | an intent with no surrounding white space appears in the classification prompt verbatim |
| Prompt.ClassificationPromptFrame | participantes/crew-das-closures/internal/prompt/prompt.go:81-83 | the classification prompt starts with the manager's instructions and ends with the JSON trailer |
| Prompt.ModelSpecificPromptFrame | participantes/crew-das-closures/internal/prompt/prompt.go:97-106 | a "mistral" prompt starts with the `[INST]`-wrapped instructions and ends with the trimmed intent; any other starts with the instructions and ends with the reasoning trailer |
| Prompt.MalformedAnswerPasses | participantes/crew-das-closures/internal/prompt/prompt.go:130-138 | a truncated, non-JSON answer that mentions both keys passes validation |
| Prompt.ValidateIffOccurs | participantes/crew-das-closures/internal/prompt/prompt.go:130-138 | validation passes if and only if each quoted key occurs at some index of the answer |
| Prompt.DefaultServices | participantes/crew-das-closures/internal/prompt/prompt.go:315-334 | sixteen entries, the k-th with identifier k; DefaultServicesTable gives the order and the fallback entry |
| Prompt.DefaultServicesTable | participantes/crew-das-closures/internal/prompt/prompt.go:315-334 | the identifiers ascend; entry 15 is "Atendimento humano" |
| CorePrompt.NewPromptManager | participantes/crew-das-closures/internal/core/prompt.go:43-51 | the default manager of this package uses its own instructions and the registry's fallback |
| CorePrompt.NewPromptManagerWithConfig | participantes/crew-das-closures/internal/core/prompt.go:54-73 | keeps the given registry, with the same defaulting as the other package and this package's instructions |
| CorePrompt.DefaultManagerPrompts | participantes/crew-das-closures/internal/core/prompt.go:76-107 | the default manager rejects exactly the empty intent in both generators and builds its prompts on this package's instructions |
| CorePrompt.DefaultServices | participantes/crew-das-closures/internal/core/prompt.go:285-304 | sixteen entries, the k-th with identifier k; DefaultServicesTable and TablesDifferOnlyAtTwelve give the rest |
| CorePrompt.DefaultServicesTable | participantes/crew-das-closures/internal/core/prompt.go:285-304 | the identifiers ascend; entry 12 is "Consulta do Saldo Conta do Mais" and entry 15 "Atendimento humano" |
| CorePrompt.TablesDifferOnlyAtTwelve | participantes/crew-das-closures/internal/core/prompt.go:298 | the two packages' tables agree on every entry except the name of service 12 |
| Handlers.StatusOKWriter.WriteHeader | participantes/crew-das-closures/internal/service/handlers.go:59-65 | the first call forwards 200 whatever the code, later calls forward nothing; headers and body are untouched |
| Handlers.AtMostOneStatusForwarded | participantes/crew-das-closures/internal/service/handlers.go:54-65 | a wrapper never forwards more than one status, and what it forwards is 200 |
| Handlers.ForceStatusOK | participantes/crew-das-closures/internal/service/handlers.go:67-72 | each request runs against a fresh wrapper that has forwarded nothing |
| Handlers.ResponseBody | participantes/crew-das-closures/internal/service/handlers.go:77-82 | the body starts with the encoding and adds exactly one character, a newline; when encoding fails it is the fixed error JSON |
| Handlers.ResponseJSON | participantes/crew-das-closures/internal/service/handlers.go:74-84 | sets the JSON content type, forwards at most the one 200, and appends the body for the payload's encoding |
| Handlers.HealthHandler | participantes/crew-das-closures/internal/service/handlers.go:13-15 | answers the status "ok" through the JSON helper |
| Handlers.FindServiceEnvelope | participantes/crew-das-closures/internal/service/handlers.go:19-37 | a read or core failure gives success false with no data and no diagnostics; success only when the core's own response succeeds; EnvelopeClassifiesFailures gives the error texts |
| Handlers.EnvelopeClassifiesFailures | participantes/crew-das-closures/internal/service/handlers.go:19-37 | a read failure and a core failure yield success false, no data, and their own prefix followed by the unchanged cause; a core response passes through unchanged |
| Handlers.ErrorPrefixesDisjoint | participantes/crew-das-closures/internal/service/handlers.go:23-32 | no error text can start with both "invalid request: " and "internal server error: " |
| Handlers.FindServiceHandler | participantes/crew-das-closures/internal/service/handlers.go:17-39 | every path writes the JSON content type, status 200 and the encoding of the envelope |
| Handlers.ServeFindService | participantes/crew-das-closures/internal/service/handlers.go:67-72 | a find-service request behind the middleware gives the server's writer exactly one status, 200 |
| Handlers.ServeHealth | participantes/crew-das-closures/internal/service/handlers.go:67-72 | a health check behind the middleware gives the server's writer exactly one status, 200, and the "ok" body |

## Left out

- AskQuestion's orchestration is not modelled as code: decoding the JSON request, building the prompt, calling the language model with a 10-second timeout, and logging. It is I/O and a foreign call. The handler receives its outcome as a parameter. `Coherence.RespondToClassification` models the response it builds from the model's answer.
- The OpenRouter client (`chat_completion.go`) and the server setup (`service.go`) are not part of this model.
- `extractIntentFromRequest`: reading the request body is I/O. Its outcome, the bytes or a read error, is a parameter of the handler.
- JSON encoding is an abstract parameter. It returns the encoded text, or nothing when encoding fails.
- The text of `getDefaultSystemPromptContent` is not written out in either package. It is configuration data, held as an uninterpreted non-empty constant.
- The `models` package's registry is modelled abstractly as a map plus a designated fallback.
- `GetPromptStats` and `buildOptimizedSystemPrompt` are left out. The first is diagnostics output that nothing reads. The second only returns the default instructions.
- `getDefaultServices` is modelled as a table with its properties only. Nothing in the core calls it.
- `PromptConfig.ServiceDefinitions` is carried but ignored, as the constructor ignores it.
- The HTTP server's own behaviour is not modelled: the implicit 200 on a `Write` before any `WriteHeader`, and write failures. `ResponseJSON` always calls `WriteHeader` before writing.
- `responseJSON`'s encode-failure path is modelled as writing only the fixed error body. Go's encoder buffers the whole value before writing, so nothing partial comes first.
- Prompt.PromptManager.GetServiceDefinitions: Go visits the registry's map in an unspecified order. The order is an input, required to list every key once, so the contract states contents and length but no order.
- Text.ToLower: maps only ASCII letters; Unicode case folding is not modelled. The only use is looking for "segur", and no non-ASCII character lower-cases to one of its letters, so the result of that check is the same.
- Text.TrimSpace: works on code points against the Unicode White_Space set; UTF-8 decoding of invalid byte sequences is not modelled.
- Prompt.PromptManager.GenerateClassificationPrompt: the empty string Go returns beside the error is not carried in the `Failure`. The same holds for `GenerateModelSpecificPrompt`.
- Log output and concurrency between requests are not modelled.
