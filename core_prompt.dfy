/**
 * The copy of the prompt manager kept in the `internal/core` package. Its declarations, its
 * generators, its validator and its constructors are the same code as in `Prompt`, so this
 * module reuses `Prompt`'s types and functions; what is its own is its instructions text and
 * its service table, which names service 12 differently.
 */
module CorePrompt {
  import opened Wrappers
  import opened Models
  import Prompt
  import Text

  /** This package's classification instructions, left uninterpreted like `Prompt`'s. */
  const DefaultSystemPromptContent: Prompt.NonEmptyString

  /** `NewPromptManager` of this package: its own instructions and the registry's own fallback. */
  function NewPromptManager(registry: ServiceRegistry): (pm: Prompt.PromptManager)
    ensures pm.systemPrompt == DefaultSystemPromptContent
    ensures pm.serviceRegistry == registry && pm.fallbackService == registry.GetFallbackService()
    ensures registry.Valid() ==> pm.Valid()
  {
    Prompt.PromptManager(DefaultSystemPromptContent, registry, registry.GetFallbackService())
  }

  /** `NewPromptManagerWithConfig` of this package: the same defaults, with its own instructions. */
  method NewPromptManagerWithConfig(config: Prompt.PromptConfig, registry: ServiceRegistry) returns (pm: Prompt.PromptManager)
    ensures pm.serviceRegistry == registry
    ensures pm.systemPrompt == if config.systemPromptTemplate == "" then DefaultSystemPromptContent
                               else config.systemPromptTemplate
    ensures pm.fallbackService == match registry.GetServiceByID(config.fallbackServiceId)
                                  case Some(s) => s
                                  case None => registry.GetFallbackService()
    ensures registry.Valid() ==> pm.Valid()
  {
    pm := Prompt.Configure(config, registry, DefaultSystemPromptContent);
  }

  /**
   * The default manager of this package rejects the empty intent in both generators and builds
   * its non-"mistral" prompts on this package's instructions.
   */
  lemma DefaultManagerPrompts(registry: ServiceRegistry, userIntent: string, modelName: string)
    ensures NewPromptManager(registry).GenerateClassificationPrompt(userIntent).Failure? <==> userIntent == ""
    ensures NewPromptManager(registry).GenerateModelSpecificPrompt(userIntent, modelName).Failure? <==> userIntent == ""
    ensures userIntent != "" ==>
      Text.HasPrefix(NewPromptManager(registry).GenerateClassificationPrompt(userIntent).value, DefaultSystemPromptContent)
    ensures userIntent != "" && !Text.Contains(modelName, Prompt.MistralFamily) ==>
      Text.HasPrefix(NewPromptManager(registry).GenerateModelSpecificPrompt(userIntent, modelName).value, DefaultSystemPromptContent)
  {
    if userIntent != "" {
      Prompt.ClassificationPromptFrame(NewPromptManager(registry), userIntent);
      Prompt.ModelSpecificPromptFrame(NewPromptManager(registry), userIntent, modelName);
    }
  }

  /** The service table of this package (nothing in the core reads it). */
  function DefaultServices(): (r: seq<ServiceDefinition>)
    ensures |r| == 16 && forall k :: 0 <= k < |r| ==> r[k].id == k + 1
  {
    [ ServiceDefinition(1, "Consulta Limite / Vencimento do cartão / Melhor dia de compra"),
      ServiceDefinition(2, "Segunda via de boleto de acordo"),
      ServiceDefinition(3, "Segunda via de Fatura"),
      ServiceDefinition(4, "Status de Entrega do Cartão"),
      ServiceDefinition(5, "Status de cartão"),
      ServiceDefinition(6, "Solicitação de aumento de limite"),
      ServiceDefinition(7, "Cancelamento de cartão"),
      ServiceDefinition(8, "Telefones de seguradoras"),
      ServiceDefinition(9, "Desbloqueio de Cartão"),
      ServiceDefinition(10, "Esqueceu senha / Troca de senha"),
      ServiceDefinition(11, "Perda e roubo"),
      ServiceDefinition(12, "Consulta do Saldo Conta do Mais"),
      ServiceDefinition(13, "Pagamento de contas"),
      ServiceDefinition(14, "Reclamações"),
      ServiceDefinition(15, "Atendimento humano"),
      ServiceDefinition(16, "Token de proposta") ]
  }

  /** The identifiers ascend; entry 12 is "Consulta do Saldo Conta do Mais". */
  lemma DefaultServicesTable()
    ensures forall k, l :: 0 <= k < l < 16 ==> DefaultServices()[k].id < DefaultServices()[l].id
    ensures DefaultServices()[11] == ServiceDefinition(12, "Consulta do Saldo Conta do Mais")
    ensures DefaultServices()[14] == ServiceDefinition(15, "Atendimento humano")
  {
  }

  /** The two packages' tables agree on every entry except the name of service 12. */
  lemma TablesDifferOnlyAtTwelve()
    ensures |DefaultServices()| == |Prompt.DefaultServices()|
    ensures forall k :: 0 <= k < |DefaultServices()| && k != 11 ==> DefaultServices()[k] == Prompt.DefaultServices()[k]
    ensures DefaultServices()[11].id == Prompt.DefaultServices()[11].id
    ensures DefaultServices()[11].name != Prompt.DefaultServices()[11].name
  {
  }
}
