/**
 * The prompt manager of the `internal/prompt` package: it holds the classification
 * instructions and the service registry, renders the prompt sent to the language model
 * around a customer's intent, and checks the shape of the model's answer.
 */
module Prompt {
  import opened Wrappers
  import opened Models
  import Text

  type NonEmptyString = s: string | s != "" witness "."

  /**
   * The classification instructions shipped with this package (the sixteen-category taxonomy,
   * its disambiguation and fallback rules). The text is configuration data and is left
   * uninterpreted: only that it is not empty is used.
   */
  const DefaultSystemPromptContent: NonEmptyString

  const UserIntentLabel := "\n\nUser Intent: "
  const ClassificationTrailer := "\n\nPlease classify this intent and respond with the appropriate service information in JSON format."
  const ReasoningTrailer := "\n\nClassify this intent and provide your reasoning and the final JSON."
  const InstructionOpen := "<s>[INST] "
  const InstructionClose := " [/INST]"
  /** Model names containing this select the instruction-tag format. */
  const MistralFamily := "mistral"

  const EmptyIntentError := "user intent cannot be empty"
  const MissingServiceIdError := "response missing service_id field"
  const MissingServiceNameError := "response missing service_name field"
  const ServiceIdKey := "\"service_id\""
  const ServiceNameKey := "\"service_name\""

  /** Custom configuration. The service definitions it carries are never read by the constructor. */
  datatype PromptConfig = PromptConfig(
    systemPromptTemplate: string,
    serviceDefinitions: seq<ServiceDefinition>,
    fallbackServiceId: int)

  datatype PromptManager = PromptManager(
    systemPrompt: string,
    serviceRegistry: ServiceRegistry,
    fallbackService: ServiceDefinition)
  {
    /** A usable manager: some instructions, a well-formed registry, a registered fallback. */
    predicate Valid() {
      systemPrompt != "" && serviceRegistry.Valid() && fallbackService in serviceRegistry.services.Values
    }

    /** What precedes the intent in the classification and the default model-specific format. */
    function PlainHead(): string {
      systemPrompt + UserIntentLabel
    }

    /** What precedes the intent in the instruction-tag format. */
    function InstructionHead(): string {
      InstructionOpen + systemPrompt + InstructionClose + UserIntentLabel
    }

    /**
     * `GenerateClassificationPrompt`: rejects only the empty intent; otherwise the prompt is the
     * instructions and the "User Intent" label, then the trimmed intent, then the JSON trailer.
     */
    function GenerateClassificationPrompt(userIntent: string): (r: Result<string, string>)
      ensures r.Failure? <==> userIntent == ""
      ensures r.Failure? ==> r.error == EmptyIntentError
      ensures r.Success? ==> Text.Between(r.value, PlainHead(), ClassificationTrailer) == Some(Text.TrimSpace(userIntent))
    {
      if userIntent == "" then Failure(EmptyIntentError)
      else
        var intent := Text.TrimSpace(userIntent);
        Text.BetweenFrame(PlainHead(), intent, ClassificationTrailer);
        Success(PlainHead() + intent + ClassificationTrailer)
    }

    /**
     * `GenerateModelSpecificPrompt`: rejects only the empty intent; a model name containing
     * "mistral" gets the instructions wrapped in `[INST]` tags followed by the trimmed intent,
     * every other model the instructions, the trimmed intent and the reasoning trailer.
     */
    function GenerateModelSpecificPrompt(userIntent: string, modelName: string): (r: Result<string, string>)
      ensures r.Failure? <==> userIntent == ""
      ensures r.Failure? ==> r.error == EmptyIntentError
      ensures r.Success? && Text.Contains(modelName, MistralFamily) ==>
        Text.Between(r.value, InstructionHead(), "") == Some(Text.TrimSpace(userIntent))
      ensures r.Success? && !Text.Contains(modelName, MistralFamily) ==>
        Text.Between(r.value, PlainHead(), ReasoningTrailer) == Some(Text.TrimSpace(userIntent))
    {
      if userIntent == "" then Failure(EmptyIntentError)
      else
        var intent := Text.TrimSpace(userIntent);
        if Text.Contains(modelName, MistralFamily) then
          Text.BetweenOpenEnd(InstructionHead(), intent);
          Success(InstructionHead() + intent)
        else
          Text.BetweenFrame(PlainHead(), intent, ReasoningTrailer);
          Success(PlainHead() + intent + ReasoningTrailer)
    }

    /** `GetSystemPrompt`: the instructions the prompts are built on. */
    function GetSystemPrompt(): (r: string)
      ensures Valid() ==> r != ""
    {
      systemPrompt
    }

    /** `GetFallbackService`: the fallback chosen at construction, a registered service. */
    function GetFallbackService(): (r: ServiceDefinition)
      ensures Valid() ==> r in serviceRegistry.services.Values
    {
      fallbackService
    }

    /**
     * `GetServiceDefinitions`: copies the registry's definitions into a list, one per entry. Go's
     * map iteration visits every key once in an unspecified order; `order` is that order.
     */
    method GetServiceDefinitions(order: seq<int>) returns (serviceList: seq<ServiceDefinition>)
      requires multiset(order) == multiset(serviceRegistry.services.Keys)
      ensures |serviceList| == |serviceRegistry.services|
      ensures forall s :: s in serviceList ==> s in serviceRegistry.services.Values
      ensures forall id :: id in serviceRegistry.services ==> serviceRegistry.services[id] in serviceList
    {
      var services := serviceRegistry.services;
      forall k | 0 <= k < |order| ensures order[k] in services {
        assert order[k] in multiset(order);
      }
      serviceList := [];
      for i := 0 to |order|
        invariant |serviceList| == i
        invariant forall s :: s in serviceList ==> s in services.Values
        invariant forall k :: 0 <= k < i ==> services[order[k]] in serviceList
      {
        serviceList := serviceList + [services[order[i]]];
      }
      assert |order| == |multiset(order)| == |services.Keys|;
      forall id | id in services ensures services[id] in serviceList {
        assert id in multiset(order);
        var k :| 0 <= k < |order| && order[k] == id;
      }
    }

    /**
     * `ValidatePromptResponse`: a substring test, not a JSON parse. The quoted "service_id" key is
     * looked for first, so an answer lacking both keys is reported as missing service_id.
     */
    function ValidatePromptResponse(response: string): (r: Outcome<string>)
      ensures r.Pass? <==> Text.Contains(response, ServiceIdKey) && Text.Contains(response, ServiceNameKey)
      ensures !Text.Contains(response, ServiceIdKey) ==> r == Fail(MissingServiceIdError)
      ensures Text.Contains(response, ServiceIdKey) && !Text.Contains(response, ServiceNameKey) ==>
        r == Fail(MissingServiceNameError)
    {
      if !Text.Contains(response, ServiceIdKey) then Fail(MissingServiceIdError)
      else if !Text.Contains(response, ServiceNameKey) then Fail(MissingServiceNameError)
      else Pass
    }
  }

  /** `NewPromptManager`: the shipped instructions and the registry's own fallback. */
  function NewPromptManager(registry: ServiceRegistry): (pm: PromptManager)
    ensures pm.systemPrompt == DefaultSystemPromptContent
    ensures pm.serviceRegistry == registry && pm.fallbackService == registry.GetFallbackService()
    ensures registry.Valid() ==> pm.Valid()
  {
    PromptManager(DefaultSystemPromptContent, registry, registry.GetFallbackService())
  }

  /**
   * The construction shared by both packages' `NewPromptManagerWithConfig`: an empty template
   * falls back to `defaultContent`, a fallback identifier the registry does not know falls back to
   * the registry's own fallback; the configured service definitions are ignored.
   */
  method Configure(config: PromptConfig, registry: ServiceRegistry, defaultContent: string) returns (pm: PromptManager)
    ensures pm.serviceRegistry == registry
    ensures config.systemPromptTemplate == "" ==> pm.systemPrompt == defaultContent
    ensures config.systemPromptTemplate != "" ==> pm.systemPrompt == config.systemPromptTemplate
    ensures config.fallbackServiceId in registry.services ==>
      pm.fallbackService == registry.services[config.fallbackServiceId]
    ensures config.fallbackServiceId !in registry.services ==> pm.fallbackService == registry.GetFallbackService()
    ensures registry.Valid() && defaultContent != "" ==> pm.Valid()
  {
    var systemPrompt := config.systemPromptTemplate;
    if systemPrompt == "" {
      systemPrompt := defaultContent;
    }

    var found := registry.GetServiceByID(config.fallbackServiceId);
    var fallbackService;
    if found.Some? {
      fallbackService := found.value;
    } else {
      fallbackService := registry.GetFallbackService();
    }

    pm := PromptManager(systemPrompt, registry, fallbackService);
  }

  /** `NewPromptManagerWithConfig` of this package, defaulting to its own instructions. */
  method NewPromptManagerWithConfig(config: PromptConfig, registry: ServiceRegistry) returns (pm: PromptManager)
    ensures pm.serviceRegistry == registry
    ensures pm.systemPrompt == if config.systemPromptTemplate == "" then DefaultSystemPromptContent
                               else config.systemPromptTemplate
    ensures pm.fallbackService == match registry.GetServiceByID(config.fallbackServiceId)
                                  case Some(s) => s
                                  case None => registry.GetFallbackService()
    ensures registry.Valid() ==> pm.Valid()
  {
    pm := Configure(config, registry, DefaultSystemPromptContent);
  }

  /** Only the exact empty string is rejected: an all-space intent renders with an empty intent. */
  lemma BlankIntentAccepted(pm: PromptManager, userIntent: string, modelName: string)
    requires userIntent != ""
    requires forall k :: 0 <= k < |userIntent| ==> Text.IsSpace(userIntent[k])
    ensures pm.GenerateClassificationPrompt(userIntent)
         == Success(pm.systemPrompt + UserIntentLabel + ClassificationTrailer)
    ensures !Text.Contains(modelName, MistralFamily) ==>
      pm.GenerateModelSpecificPrompt(userIntent, modelName)
         == Success(pm.systemPrompt + UserIntentLabel + ReasoningTrailer)
  {
    Text.TrimSpaceOfBlank(userIntent);
    assert pm.PlainHead() + "" + ClassificationTrailer == pm.systemPrompt + UserIntentLabel + ClassificationTrailer;
    assert pm.PlainHead() + "" + ReasoningTrailer == pm.systemPrompt + UserIntentLabel + ReasoningTrailer;
  }

  /** Intents that trim differently never share a classification prompt: the intent is recoverable. */
  lemma ClassificationPromptInjective(pm: PromptManager, a: string, b: string)
    requires a != "" && b != ""
    requires pm.GenerateClassificationPrompt(a) == pm.GenerateClassificationPrompt(b)
    ensures Text.TrimSpace(a) == Text.TrimSpace(b)
  {
  }

  /** An intent with no surrounding white space is embedded in the classification prompt verbatim. */
  lemma TrimmedIntentVerbatim(pm: PromptManager, userIntent: string)
    requires userIntent != ""
    requires !Text.IsSpace(userIntent[0]) && !Text.IsSpace(userIntent[|userIntent| - 1])
    ensures Text.Between(pm.GenerateClassificationPrompt(userIntent).value, pm.PlainHead(), ClassificationTrailer)
         == Some(userIntent)
  {
    Text.TrimSpaceOfTrimmed(userIntent);
  }

  /** The classification prompt starts with the manager's instructions and ends with the JSON trailer. */
  lemma ClassificationPromptFrame(pm: PromptManager, userIntent: string)
    requires userIntent != ""
    ensures Text.HasPrefix(pm.GenerateClassificationPrompt(userIntent).value, pm.systemPrompt)
    ensures Text.HasSuffix(pm.GenerateClassificationPrompt(userIntent).value, ClassificationTrailer)
  {
    var r := pm.GenerateClassificationPrompt(userIntent).value;
    Text.HasPrefixConcat(pm.systemPrompt, UserIntentLabel);
    Text.HasPrefixTrans(r, pm.PlainHead(), pm.systemPrompt);
  }

  /**
   * The model-specific prompt starts with the manager's instructions inside the `[INST]` wrapper
   * and ends with the trimmed intent for the "mistral" family; for any other model it starts
   * with the bare instructions and ends with the reasoning trailer.
   */
  lemma ModelSpecificPromptFrame(pm: PromptManager, userIntent: string, modelName: string)
    requires userIntent != ""
    ensures Text.Contains(modelName, MistralFamily) ==>
      && Text.HasPrefix(pm.GenerateModelSpecificPrompt(userIntent, modelName).value, InstructionOpen + pm.systemPrompt + InstructionClose)
      && Text.HasSuffix(pm.GenerateModelSpecificPrompt(userIntent, modelName).value, Text.TrimSpace(userIntent))
    ensures !Text.Contains(modelName, MistralFamily) ==>
      && Text.HasPrefix(pm.GenerateModelSpecificPrompt(userIntent, modelName).value, pm.systemPrompt)
      && Text.HasSuffix(pm.GenerateModelSpecificPrompt(userIntent, modelName).value, ReasoningTrailer)
  {
    var r := pm.GenerateModelSpecificPrompt(userIntent, modelName).value;
    if Text.Contains(modelName, MistralFamily) {
      var wrapped := InstructionOpen + pm.systemPrompt + InstructionClose;
      Text.HasPrefixConcat(wrapped, UserIntentLabel);
      Text.HasPrefixTrans(r, pm.InstructionHead(), wrapped);
    } else {
      Text.HasPrefixConcat(pm.systemPrompt, UserIntentLabel);
      Text.HasPrefixTrans(r, pm.PlainHead(), pm.systemPrompt);
    }
  }

  /** The validator is a substring test: a malformed answer that mentions both keys passes. */
  lemma MalformedAnswerPasses(pm: PromptManager)
    ensures pm.ValidatePromptResponse("{\"service_id\": \"x\", \"service_name\"") == Pass
  {
    var s := "{\"service_id\": \"x\", \"service_name\"";
    assert |s| == 34;
    assert forall k :: 0 <= k < 12 ==> s[1 + k] == ServiceIdKey[k];
    assert s[1..13] == ServiceIdKey;
    Text.ContainsAt(s, ServiceIdKey, 1);
    assert forall k :: 0 <= k < 14 ==> s[20 + k] == ServiceNameKey[k];
    assert s[20..34] == ServiceNameKey;
    Text.ContainsAt(s, ServiceNameKey, 20);
  }

  /** The validator passes exactly when both quoted keys occur somewhere in the answer. */
  lemma ValidateIffOccurs(pm: PromptManager, response: string)
    ensures pm.ValidatePromptResponse(response).Pass? <==>
      (exists i :: Text.OccursAt(response, ServiceIdKey, i)) && (exists j :: Text.OccursAt(response, ServiceNameKey, j))
  {
    Text.ContainsIff(response, ServiceIdKey);
    Text.ContainsIff(response, ServiceNameKey);
  }

  /** The service table of this package (nothing in the core reads it). */
  function DefaultServices(): (r: seq<ServiceDefinition>)
    ensures |r| == 16 && forall k :: 0 <= k < |r| ==> r[k].id == k + 1
  {
    [ ServiceDefinition(1, "Consulta Limite / Vencimento do cartão / Melhor dia de compra"),
      ServiceDefinition(2, "Segunda via de boleto de acordo"),
      ServiceDefinition(3, "Segunda via de Fatura"),
      ServiceDefinition(4, "Status de Entrega do Cartão"),
      ServiceDefinition(5, "Status de cartão"),
      ServiceDefinition(6, "Solicitação de aumento de limite"),
      ServiceDefinition(7, "Cancelamento de cartão"),
      ServiceDefinition(8, "Telefones de seguradoras"),
      ServiceDefinition(9, "Desbloqueio de Cartão"),
      ServiceDefinition(10, "Esqueceu senha / Troca de senha"),
      ServiceDefinition(11, "Perda e roubo"),
      ServiceDefinition(12, "Consulta do Saldo"),
      ServiceDefinition(13, "Pagamento de contas"),
      ServiceDefinition(14, "Reclamações"),
      ServiceDefinition(15, "Atendimento humano"),
      ServiceDefinition(16, "Token de proposta") ]
  }

  /** The identifiers ascend; the fallback "Atendimento humano" is service 15. */
  lemma DefaultServicesTable()
    ensures forall k, l :: 0 <= k < l < 16 ==> DefaultServices()[k].id < DefaultServices()[l].id
    ensures DefaultServices()[14] == ServiceDefinition(15, "Atendimento humano")
  {
  }
}
