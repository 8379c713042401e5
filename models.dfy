/**
 * The records the core exchanges. Their Go package (`internal/model` and
 * `openrouter-integration/models`) is not part of this model: the shapes below are
 * the ones the core's code reads and writes.
 */
module Models {
  import opened Wrappers

  /** Go's `uint8`. */
  type UInt8 = n: int | 0 <= n < 256

  /** One customer-service category of the classification taxonomy. */
  datatype ServiceDefinition = ServiceDefinition(id: int, name: string)

  /** The decoded body of a find-service call. */
  datatype FindServiceRequest = FindServiceRequest(intent: string)

  /**
   * The classification the model returned. The identifier is a `uint8`: the core fills it
   * from the client's `uint8` field, an assignment Go allows only between identical types.
   */
  datatype ServiceData = ServiceData(serviceId: UInt8, serviceName: string)

  /** The result envelope of a find-service call; an empty `error` is an absent one. */
  datatype FindServiceResponse = FindServiceResponse(
    success: bool,
    data: Option<ServiceData>,
    error: string,
    diagnostics: seq<string>)

  /** The body of the health check. */
  datatype HealthResponse = HealthResponse(status: string)

  /**
   * The service registry, kept abstract: a finite map from identifier to definition and a
   * designated fallback definition.
   */
  datatype ServiceRegistry = ServiceRegistry(services: map<int, ServiceDefinition>, fallback: ServiceDefinition) {

    /** Every entry is filed under its own identifier, and the fallback is one of the entries. */
    predicate Valid() {
      && (forall id :: id in services ==> services[id].id == id)
      && fallback.id in services && services[fallback.id] == fallback
    }

    /** `GetServiceByID`: the definition filed under `id`, if any. */
    function GetServiceByID(id: int): (r: Option<ServiceDefinition>)
      ensures r.Some? <==> id in services
      ensures r.Some? ==> r.value == services[id] && r.value in services.Values
    {
      if id in services then Some(services[id]) else None
    }

    /** `GetFallbackService`: the designated fallback, one of the registered definitions. */
    function GetFallbackService(): (r: ServiceDefinition)
      ensures Valid() ==> r in services.Values
    {
      fallback
    }
  }
}
