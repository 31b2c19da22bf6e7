/** The telemetry events the detectors read and the findings they emit
    (internal/types/event.go, internal/analyzer/detector.go). */
module Events {

  datatype Option<+T> = None | Some(value: T)

  /** The event kinds the detectors distinguish. */
  datatype EventType = PromptEvent | ToolCallEvent | OtherEvent

  /** `argsKey` stands for the canonical form of the call's JSON arguments. */
  datatype ToolCall = ToolCall(toolName: string, argsKey: string, success: bool, retryCount: int)

  /** `tokens` stands for the lower-cased word tokens of the prompt's content. */
  datatype Prompt = Prompt(tokens: set<string>)

  /** `timestamp` counts nanoseconds. */
  datatype Event = Event(
    id: string, sessionId: string, agentId: string, tenantId: string, kind: EventType, timestamp: int,
    toolCall: Option<ToolCall>, prompt: Option<Prompt>)
  {
    predicate IsToolCall() { kind == ToolCallEvent && toolCall.Some? }
    predicate IsPrompt() { kind == PromptEvent && prompt.Some? }
  }

  datatype Severity = Warning | Error

  /** The identifiers the detectors build; the constructor also names the detector. */
  datatype FindingId =
    | LoopId(session: string, number: nat)
    | StormId(session: string, tool: string, number: nat)
    | RateId(session: string, tool: string)
    | DriftId(session: string)

  /** The values the message and evidence texts are rendered from. */
  datatype Evidence =
    | LoopEvidence(tools: seq<string>, reps: nat, position: nat)
    | StormEvidence(argsKey: string, failures: nat, maxRetryCount: int)
    | RateEvidence(total: nat, failed: nat, rate: real)
    | DriftEvidence(drifted: nat, subsequent: nat, average: real, minimum: real)

  datatype Finding = Finding(
    id: FindingId, sessionId: string, agentId: string, tenantId: string, timestamp: int,
    severity: Severity, confidence: real, eventIds: seq<string>, evidence: Evidence)

  /** The events of one session, in order. */
  function OfSession(es: seq<Event>, session: string): (r: seq<Event>)
    ensures forall e <- r :: e.sessionId == session
  {
    if es == [] then []
    else OfSession(es[..|es| - 1], session) + if es[|es| - 1].sessionId == session then [es[|es| - 1]] else []
  }

  /** The findings of one session, in order. */
  function FindingsOf(fs: seq<Finding>, session: string): seq<Finding> {
    if fs == [] then []
    else FindingsOf(fs[..|fs| - 1], session) + if fs[|fs| - 1].sessionId == session then [fs[|fs| - 1]] else []
  }

  lemma {:induction false} OfSessionConcat(a: seq<Event>, b: seq<Event>, session: string)
    ensures OfSession(a + b, session) == OfSession(a, session) + OfSession(b, session)
  {
    if b == [] {
      assert a + b == a;
    } else {
      assert (a + b)[..|a + b| - 1] == a + b[..|b| - 1];
      OfSessionConcat(a, b[..|b| - 1], session);
    }
  }

  lemma {:induction false} FindingsOfConcat(a: seq<Finding>, b: seq<Finding>, session: string)
    ensures FindingsOf(a + b, session) == FindingsOf(a, session) + FindingsOf(b, session)
  {
    if b == [] {
      assert a + b == a;
    } else {
      assert (a + b)[..|a + b| - 1] == a + b[..|b| - 1];
      FindingsOfConcat(a, b[..|b| - 1], session);
    }
  }

  lemma OfSessionSnoc(es: seq<Event>, e: Event, session: string)
    ensures OfSession(es + [e], session) == OfSession(es, session) + if e.sessionId == session then [e] else []
  {
    assert (es + [e])[..|es + [e]| - 1] == es;
  }

  /** When all findings carry one session's identity, that session gets all and the others none. */
  lemma {:induction false} FindingsOfOne(fs: seq<Finding>, owner: string, session: string)
    requires forall f <- fs :: f.sessionId == owner
    ensures FindingsOf(fs, session) == if owner == session then fs else []
  {
    if fs != [] {
      FindingsOfOne(fs[..|fs| - 1], owner, session);
      assert fs[|fs| - 1] in fs && fs == fs[..|fs| - 1] + [fs[|fs| - 1]];
    }
  }

  function Min(a: real, b: real): real { if a <= b then a else b }

  /** Rounds a non-negative value to two decimal places, halves up. */
  function Round2(x: real): (r: real)
    ensures x - 0.005 < r <= x + 0.005
    ensures 0.0 <= x <= 1.0 ==> 0.0 <= r <= 1.0
  {
    (x * 100.0 + 0.5).Floor as real / 100.0
  }

  /** The value nearest to `x` among those with two decimal places, halves up. */
  predicate IsRounded(r: real, x: real) {
    x - 0.005 < r <= x + 0.005 && (r * 100.0).Floor as real == r * 100.0
  }

  lemma Round2IsRounded(x: real)
    ensures IsRounded(Round2(x), x)
  {
  }
}
