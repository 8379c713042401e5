/**
 * The coherence checker of the core: sanity checks over a classification request and the
 * service data returned for it, reported as an ordered list of diagnostics.
 */
module Coherence {
  import opened Wrappers
  import opened Models
  import Text

  const RequestIsNil := "request is nil"
  const IntentIsEmpty := "request.intent is empty"
  const DataIsNil := "response data is nil"
  const ServiceIdNotPositive := "response.service_id must be > 0"
  const ServiceNameIsEmpty := "response.service_name is empty"
  const PotentialMismatch := "potential mismatch: intent may not relate to returned service name"

  /** The stem of "seguro"/"seguradora" (insurance) that the topic heuristic looks for. */
  const InsuranceStem := "segur"

  /** The checks, one per diagnostic. */
  datatype Check = RequestNil | IntentEmpty | DataNil | NonPositiveId | NameEmpty | Mismatch

  /** The checks in the order the checker runs them. */
  const Checks: seq<Check> := [RequestNil, IntentEmpty, DataNil, NonPositiveId, NameEmpty, Mismatch]

  /** Position of a check in `Checks`. */
  function Rank(c: Check): nat {
    match c
    case RequestNil => 0
    case IntentEmpty => 1
    case DataNil => 2
    case NonPositiveId => 3
    case NameEmpty => 4
    case Mismatch => 5
  }

  function Message(c: Check): string {
    match c
    case RequestNil => RequestIsNil
    case IntentEmpty => IntentIsEmpty
    case DataNil => DataIsNil
    case NonPositiveId => ServiceIdNotPositive
    case NameEmpty => ServiceNameIsEmpty
    case Mismatch => PotentialMismatch
  }

  /** The heuristic: the lower-cased name mentions insurance while the lower-cased intent does not. */
  predicate TopicMismatch(intent: string, name: string) {
    !Text.Contains(Text.ToLower(intent), InsuranceStem) && Text.Contains(Text.ToLower(name), InsuranceStem)
  }

  /**
   * Whether check `c` reports, each condition stated on its own: a nil request stops every
   * other check, and nil data stops every check on the data.
   */
  predicate Fires(c: Check, req: Option<FindServiceRequest>, data: Option<ServiceData>) {
    match c
    case RequestNil => req.None?
    case IntentEmpty => req.Some? && req.value.intent == ""
    case DataNil => req.Some? && data.None?
    case NonPositiveId => req.Some? && data.Some? && data.value.serviceId <= 0
    case NameEmpty => req.Some? && data.Some? && data.value.serviceName == ""
    case Mismatch =>
      && req.Some? && data.Some?
      && req.value.intent != "" && data.value.serviceName != ""
      && TopicMismatch(req.value.intent, data.value.serviceName)
  }

  /** The checks of `cs` that fire, in their order in `cs`. */
  function Fired(cs: seq<Check>, req: Option<FindServiceRequest>, data: Option<ServiceData>): seq<Check> {
    if cs == [] then []
    else (if Fires(cs[0], req, data) then [cs[0]] else []) + Fired(cs[1..], req, data)
  }

  function Messages(cs: seq<Check>): (r: seq<string>)
    ensures |r| == |cs| && forall k :: 0 <= k < |cs| ==> r[k] == Message(cs[k])
  {
    seq(|cs|, k requires 0 <= k < |cs| => Message(cs[k]))
  }

  /** Reference definition of the checker's output: the messages of the checks that fire, in check order. */
  function Diagnostics(req: Option<FindServiceRequest>, data: Option<ServiceData>): seq<string> {
    Messages(Fired(Checks, req, data))
  }
  /** The check `c` alone, if it fires. */
  function Select(c: Check, req: Option<FindServiceRequest>, data: Option<ServiceData>): seq<Check> {
    if Fires(c, req, data) then [c] else []
  }

  /** Filtering a list splits off its first check. */
  lemma FiredCons(c: Check, cs: seq<Check>, req: Option<FindServiceRequest>, data: Option<ServiceData>)
    ensures Fired([c] + cs, req, data) == Select(c, req, data) + Fired(cs, req, data)
  {
    assert ([c] + cs)[1..] == cs;
  }

  /** Filtering the check list keeps each check in its own place. */
  lemma FiredByCheck(req: Option<FindServiceRequest>, data: Option<ServiceData>)
    ensures Fired(Checks, req, data)
         == Select(RequestNil, req, data) + (Select(IntentEmpty, req, data) + (Select(DataNil, req, data)
          + (Select(NonPositiveId, req, data) + (Select(NameEmpty, req, data) + Select(Mismatch, req, data)))))
  {
    var c5 := [Mismatch];
    var c4 := [NameEmpty] + c5;
    var c3 := [NonPositiveId] + c4;
    var c2 := [DataNil] + c3;
    var c1 := [IntentEmpty] + c2;
    assert Checks == [RequestNil] + c1;
    FiredCons(Mismatch, [], req, data);
    assert c5 == [Mismatch] + [];
    assert Fired([], req, data) == [];
    assert Select(Mismatch, req, data) + [] == Select(Mismatch, req, data);
    FiredCons(NameEmpty, c5, req, data);
    FiredCons(NonPositiveId, c4, req, data);
    FiredCons(DataNil, c3, req, data);
    FiredCons(IntentEmpty, c2, req, data);
    FiredCons(RequestNil, c1, req, data);
  }

  lemma MessagesAppend(a: seq<Check>, b: seq<Check>)
    ensures Messages(a + b) == Messages(a) + Messages(b)
  {
  }

  /** The diagnostic of check `c`, if it fires. */
  function Report(c: Check, req: Option<FindServiceRequest>, data: Option<ServiceData>): seq<string> {
    if Fires(c, req, data) then [Message(c)] else []
  }

  lemma MessagesOfSelect(c: Check, req: Option<FindServiceRequest>, data: Option<ServiceData>)
    ensures Messages(Select(c, req, data)) == Report(c, req, data)
  {
  }

  /** Each check contributes its own message, if it fires, in its own place. */
  lemma DiagnosticsByCheck(req: Option<FindServiceRequest>, data: Option<ServiceData>)
    ensures Diagnostics(req, data)
         == Report(RequestNil, req, data) + (Report(IntentEmpty, req, data) + (Report(DataNil, req, data)
          + (Report(NonPositiveId, req, data) + (Report(NameEmpty, req, data) + Report(Mismatch, req, data)))))
  {
    FiredByCheck(req, data);
    var s0, s1, s2 := Select(RequestNil, req, data), Select(IntentEmpty, req, data), Select(DataNil, req, data);
    var s3, s4, s5 := Select(NonPositiveId, req, data), Select(NameEmpty, req, data), Select(Mismatch, req, data);
    MessagesOfSelect(RequestNil, req, data);
    MessagesOfSelect(IntentEmpty, req, data);
    MessagesOfSelect(DataNil, req, data);
    MessagesOfSelect(NonPositiveId, req, data);
    MessagesOfSelect(NameEmpty, req, data);
    MessagesOfSelect(Mismatch, req, data);
    MessagesAppend(s4, s5);
    MessagesAppend(s3, s4 + s5);
    MessagesAppend(s2, s3 + (s4 + s5));
    MessagesAppend(s1, s2 + (s3 + (s4 + s5)));
    MessagesAppend(s0, s1 + (s2 + (s3 + (s4 + s5))));
  }

  /**
   * `analyzeCoherence`: appends the diagnostics one check at a time, returning early on a
   * nil request or nil data; the list it builds is the reference `Diagnostics`.
   */
  method AnalyzeCoherence(req: Option<FindServiceRequest>, data: Option<ServiceData>) returns (issues: seq<string>)
    ensures issues == Diagnostics(req, data)
  {
    DiagnosticsByCheck(req, data);
    issues := [];
    if req.None? {
      issues := issues + [RequestIsNil];
      return;
    }

    if req.value.intent == "" {
      issues := issues + [IntentIsEmpty];
    }

    if data.None? {
      issues := issues + [DataIsNil];
      return;
    }

    if data.value.serviceId <= 0 {
      issues := issues + [ServiceIdNotPositive];
    }

    if data.value.serviceName == "" {
      issues := issues + [ServiceNameIsEmpty];
    }

    if req.value.intent != "" && data.value.serviceName != "" {
      var lowerIntent := Text.ToLower(req.value.intent);
      var lowerName := Text.ToLower(data.value.serviceName);
      if !Text.Contains(lowerIntent, InsuranceStem) && Text.Contains(lowerName, InsuranceStem) {
        issues := issues + [PotentialMismatch];
      }
    }
  }

  /** Distinct checks have distinct messages (their lengths already differ). */
  lemma MessageInjective(a: Check, b: Check)
    ensures Message(a) == Message(b) ==> a == b
  {
    assert |RequestIsNil| == 14 && |IntentIsEmpty| == 23 && |DataIsNil| == 20;
    assert |ServiceIdNotPositive| == 31 && |ServiceNameIsEmpty| == 30 && |PotentialMismatch| == 66;
  }

  /** Check `c`'s message is among check `d`'s report exactly when `d` is `c` and fires. */
  lemma ReportMembership(c: Check, d: Check, req: Option<FindServiceRequest>, data: Option<ServiceData>)
    ensures Message(c) in Report(d, req, data) <==> c == d && Fires(d, req, data)
  {
    MessageInjective(c, d);
  }

  /** A check's message appears in the output exactly when that check fires. */
  lemma MessageIffFires(c: Check, req: Option<FindServiceRequest>, data: Option<ServiceData>)
    ensures Message(c) in Diagnostics(req, data) <==> Fires(c, req, data)
  {
    DiagnosticsByCheck(req, data);
    ReportMembership(c, RequestNil, req, data);
    ReportMembership(c, IntentEmpty, req, data);
    ReportMembership(c, DataNil, req, data);
    ReportMembership(c, NonPositiveId, req, data);
    ReportMembership(c, NameEmpty, req, data);
    ReportMembership(c, Mismatch, req, data);
  }

  /** A nil request yields exactly "request is nil": no other check runs. */
  lemma NilRequest(data: Option<ServiceData>)
    ensures Diagnostics(None, data) == [RequestIsNil]
  {
    DiagnosticsByCheck(None, data);
  }

  /** An empty intent with nil data yields exactly the two messages, in this order. */
  lemma EmptyIntentNilData()
    ensures Diagnostics(Some(FindServiceRequest("")), None) == [IntentIsEmpty, DataIsNil]
  {
    DiagnosticsByCheck(Some(FindServiceRequest("")), None);
  }

  /** "service_id must be > 0" is reported exactly when both inputs are present and the identifier is 0. */
  lemma ServiceIdDiagnosticIff(req: Option<FindServiceRequest>, data: Option<ServiceData>)
    ensures ServiceIdNotPositive in Diagnostics(req, data) <==> req.Some? && data.Some? && data.value.serviceId == 0
  {
    MessageIffFires(NonPositiveId, req, data);
  }

  /**
   * The mismatch diagnostic is reported exactly when both strings are non-empty and only the
   * name mentions insurance; so it never comes with either "is empty" diagnostic.
   */
  lemma MismatchIff(req: Option<FindServiceRequest>, data: Option<ServiceData>)
    ensures PotentialMismatch in Diagnostics(req, data) <==>
      && req.Some? && data.Some?
      && req.value.intent != "" && data.value.serviceName != ""
      && !Text.Contains(Text.ToLower(req.value.intent), InsuranceStem)
      && Text.Contains(Text.ToLower(data.value.serviceName), InsuranceStem)
    ensures PotentialMismatch in Diagnostics(req, data) ==>
      IntentIsEmpty !in Diagnostics(req, data) && ServiceNameIsEmpty !in Diagnostics(req, data)
  {
    MessageIffFires(Mismatch, req, data);
    MessageIffFires(IntentEmpty, req, data);
    MessageIffFires(NameEmpty, req, data);
  }

  /** With a request present, at most three diagnostics are ever reported. */
  lemma AtMostThree(req: FindServiceRequest, data: Option<ServiceData>)
    ensures |Diagnostics(Some(req), data)| <= 3
  {
    DiagnosticsByCheck(Some(req), data);
  }

  /** Three diagnostics do occur: an empty intent with an unnamed service 0. */
  lemma ThreeReachable()
    ensures Diagnostics(Some(FindServiceRequest("")), Some(ServiceData(0, "")))
         == [IntentIsEmpty, ServiceIdNotPositive, ServiceNameIsEmpty]
  {
    var req, data := Some(FindServiceRequest("")), Some(ServiceData(0, ""));
    DiagnosticsByCheck(req, data);
    assert Report(RequestNil, req, data) == [] && Report(IntentEmpty, req, data) == [IntentIsEmpty];
    assert Report(DataNil, req, data) == [] && Report(NonPositiveId, req, data) == [ServiceIdNotPositive];
    assert Report(NameEmpty, req, data) == [ServiceNameIsEmpty] && Report(Mismatch, req, data) == [];
  }

  /** Ranks strictly increase along `cs`. */
  predicate RankIncreasing(cs: seq<Check>) {
    forall i, j :: 0 <= i < j < |cs| ==> Rank(cs[i]) < Rank(cs[j])
  }

  lemma ChecksRankIncreasing()
    ensures RankIncreasing(Checks)
  {
    assert Checks[0] == RequestNil && Checks[1] == IntentEmpty && Checks[2] == DataNil;
    assert Checks[3] == NonPositiveId && Checks[4] == NameEmpty && Checks[5] == Mismatch;
  }

  /** Filtering keeps only members of `cs`. */
  lemma {:induction false} FiredSubset(cs: seq<Check>, req: Option<FindServiceRequest>, data: Option<ServiceData>)
    ensures forall c :: c in Fired(cs, req, data) ==> c in cs
  {
    if cs != [] {
      FiredSubset(cs[1..], req, data);
    }
  }

  /** Filtering keeps the order of `cs`. */
  lemma {:induction false} FiredOrdered(cs: seq<Check>, req: Option<FindServiceRequest>, data: Option<ServiceData>)
    requires RankIncreasing(cs)
    ensures RankIncreasing(Fired(cs, req, data))
  {
    if cs != [] {
      FiredOrdered(cs[1..], req, data);
      FiredSubset(cs[1..], req, data);
      var rest := Fired(cs[1..], req, data);
      forall c | c in rest ensures Rank(cs[0]) < Rank(c) {
        var k :| 0 <= k < |cs[1..]| && cs[1..][k] == c;
        assert cs[k + 1] == c;
      }
    }
  }

  /** The output lists the diagnostics in check order: a later check's message never precedes an earlier one's. */
  lemma DiagnosticsInCheckOrder(req: Option<FindServiceRequest>, data: Option<ServiceData>, a: Check, b: Check, p: nat, q: nat)
    requires p < q < |Diagnostics(req, data)|
    requires Diagnostics(req, data)[p] == Message(a) && Diagnostics(req, data)[q] == Message(b)
    ensures Rank(a) < Rank(b)
  {
    var f := Fired(Checks, req, data);
    ChecksRankIncreasing();
    FiredOrdered(Checks, req, data);
    assert Diagnostics(req, data)[p] == Message(f[p]) && Diagnostics(req, data)[q] == Message(f[q]);
    MessageInjective(a, f[p]);
    MessageInjective(b, f[q]);
  }

  /** Present inputs yield no diagnostic exactly when the intent and name are set, the identifier is positive and the topics agree. */
  lemma NoDiagnosticsIff(req: FindServiceRequest, data: ServiceData)
    ensures Diagnostics(Some(req), Some(data)) == [] <==>
      && req.intent != "" && data.serviceId > 0 && data.serviceName != ""
      && !TopicMismatch(req.intent, data.serviceName)
  {
    DiagnosticsByCheck(Some(req), Some(data));
  }

  /**
   * The response the core builds from a classification: the data, the diagnostics, and
   * success exactly when there are none.
   */
  method RespondToClassification(req: FindServiceRequest, data: ServiceData) returns (resp: FindServiceResponse)
    ensures resp.data == Some(data) && resp.error == ""
    ensures resp.diagnostics == Diagnostics(Some(req), Some(data))
    ensures resp.success <==>
      && req.intent != "" && data.serviceId > 0 && data.serviceName != ""
      && !TopicMismatch(req.intent, data.serviceName)
  {
    var diagnostics := AnalyzeCoherence(Some(req), Some(data));
    NoDiagnosticsIff(req, data);
    resp := FindServiceResponse(|diagnostics| == 0, Some(data), "", diagnostics);
  }
}
