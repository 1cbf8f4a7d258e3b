/** Stage 5-8 attempt identity and the registry of attempts. */
module Attempts {
  import opened Common

  const PAYPAL: string := "paypal"
  const PAYPAL_ATTEMPT_PREFIX: string := "paypal-order:"

  predicate IsProvider(source: string) {
    source == "razorpay" || source == "synthetic" || source == PAYPAL
  }

  datatype EventType = PaymentAuthorized | PaymentCaptured | PaymentFailed | OrderApproved | Other(name: string)

  /** The fields of a canonical event that decide its pipeline role. */
  datatype Event = Event(
    id: nat, source: string, kind: EventType, paymentId: string, orderId: Option<string>)

  datatype IdentityError = UnsupportedProvider | InvalidIdentity | NotRegistered | ProviderConflict

  // ---------------------------------------------------------------------------
  // Keys
  // ---------------------------------------------------------------------------

  predicate IsAlphanumeric(c: char) {
    'A' <= c <= 'Z' || 'a' <= c <= 'z' || '0' <= c <= '9'
  }

  /** ^[A-Za-z0-9][A-Za-z0-9_-]{0,127}$ as a full match. */
  predicate IsPayPalIdentifier(s: string) {
    && 1 <= |s| <= 128
    && IsAlphanumeric(s[0])
    && forall i :: 0 <= i < |s| ==> IsAlphanumeric(s[i]) || s[i] == '_' || s[i] == '-'
  }

  function PayPalAttemptId(orderId: string): string {
    PAYPAL_ATTEMPT_PREFIX + orderId
  }

  /** The order behind a PayPal attempt key; None for every other key. */
  function PayPalOrderId(key: string): Option<string> {
    if PAYPAL_ATTEMPT_PREFIX <= key && key != PAYPAL_ATTEMPT_PREFIX
    then Some(key[|PAYPAL_ATTEMPT_PREFIX|..]) else None
  }

  datatype AttemptRef = AttemptRef(source: string, key: string, reference: string) {
    /** The checks of the constructor, which mirror the table's CHECK constraints. */
    predicate Valid() {
      && IsProvider(source)
      && if source == PAYPAL then IsPayPalIdentifier(reference) && key == PayPalAttemptId(reference)
         else reference != "" && key == reference && !(PAYPAL_ATTEMPT_PREFIX <= key)
    }
  }

  function MakeRef(source: string, key: string, reference: string): Result<AttemptRef, IdentityError> {
    var ref := AttemptRef(source, key, reference);
    if !IsProvider(source) then Err(UnsupportedProvider)
    else if ref.Valid() then Ok(ref) else Err(InvalidIdentity)
  }

  function ForKey(source: string, key: string): Result<AttemptRef, IdentityError> {
    var order := PayPalOrderId(key);
    MakeRef(source, key, if source != PAYPAL then key else if order.Some? then order.value else "")
  }

  function ForTriggerEvent(e: Event): Result<AttemptRef, IdentityError> {
    if e.kind != (if e.source == PAYPAL then OrderApproved else PaymentAuthorized) then Err(InvalidIdentity)
    else if e.source == PAYPAL then MakeRef(PAYPAL, PayPalAttemptId(e.paymentId), e.paymentId)
    else MakeRef(e.source, e.paymentId, e.paymentId)
  }

  datatype PipelineRole = Trigger | Terminal

  datatype PipelineAttempt = PipelineAttempt(role: PipelineRole, ref: AttemptRef)

  predicate IsTerminal(kind: EventType) {
    kind == PaymentCaptured || kind == PaymentFailed
  }

  function CandidateRole(e: Event): Option<(PipelineRole, string)> {
    if e.source == PAYPAL then
      if e.kind == OrderApproved && e.paymentId != "" then Some((Trigger, PayPalAttemptId(e.paymentId)))
      else if IsTerminal(e.kind) && e.orderId.Some? && e.orderId.value != "" then
        Some((Terminal, PayPalAttemptId(e.orderId.value)))
      else None
    else if e.kind == PaymentAuthorized then Some((Trigger, e.paymentId))
    else if IsTerminal(e.kind) then Some((Terminal, e.paymentId))
    else None
  }

  predicate InPayPalNamespace(e: Event) {
    e.source != PAYPAL && PayPalOrderId(e.paymentId).Some?
  }

  predicate IsRefused(e: Event) {
    || InPayPalNamespace(e)
    || (CandidateRole(e).Some? && ForKey(e.source, CandidateRole(e).value.1).Err?)
  }

  /** resolve_pipeline_attempt; the inner Result is what a raised exception would be. */
  function ResolvePipelineAttempt(e: Event): Result<Option<PipelineAttempt>, IdentityError> {
    if IsRefused(e) || CandidateRole(e).None? then Ok(None)
    else
      var (role, key) := CandidateRole(e).value;
      match ForKey(e.source, key)
      case Ok(ref) => Ok(Some(PipelineAttempt(role, ref)))
      case Err(error) => Err(error)
  }

  // ---------------------------------------------------------------------------
  // Identity
  // ---------------------------------------------------------------------------

  /** The code point of an ASCII digit, capital or small letter. */
  predicate IsLetterOrDigit(n: int) {
    48 <= n <= 57 || 65 <= n <= 90 || 97 <= n <= 122
  }

  /** The identities there are: three providers, PayPal's keys built from its order ids, the others their own keys. */
  lemma IdentityMeaning(ref: AttemptRef)
    ensures ref.Valid() <==>
              || (ref.source == "paypal" && ref.key == "paypal-order:" + ref.reference && 1 <= |ref.reference| <= 128
                  && IsLetterOrDigit(ref.reference[0] as int)
                  && forall i :: 0 <= i < |ref.reference| ==>
                       || IsLetterOrDigit(ref.reference[i] as int)
                       || ref.reference[i] as int == 45 || ref.reference[i] as int == 95)
              || ((ref.source == "razorpay" || ref.source == "synthetic") && ref.key == ref.reference
                  && ref.reference != "" && !("paypal-order:" <= ref.key))
  {
    assert forall c: char :: IsAlphanumeric(c) <==> IsLetterOrDigit(c as int);
    assert '-' as int == 45 && '_' as int == 95;
  }

  lemma PayPalKeyRoundTrip(orderId: string)
    ensures PayPalOrderId(PayPalAttemptId(orderId)) == if orderId == "" then None else Some(orderId)
  {
    assert PayPalAttemptId(orderId)[|PAYPAL_ATTEMPT_PREFIX|..] == orderId;
  }

  lemma PayPalOrderIdRoundTrip(key: string)
    requires PayPalOrderId(key).Some?
    ensures PayPalAttemptId(PayPalOrderId(key).value) == key
  {
  }

  /** A key belongs to PayPal or to another provider, never to both. */
  lemma NamespacesDisjoint(a: AttemptRef, b: AttemptRef)
    requires a.Valid() && b.Valid() && a.key == b.key
    ensures a.source == PAYPAL <==> b.source == PAYPAL
    ensures a.source == b.source ==> a == b
  {
    PayPalKeyRoundTrip(a.reference);
    PayPalKeyRoundTrip(b.reference);
  }

  /** for_key recovers exactly the valid attempt with the provider and the key, when there is one. */
  lemma ForKeyIsExact(source: string, key: string, ref: AttemptRef)
    ensures ForKey(source, key) == Ok(ref) <==> ref.Valid() && ref.source == source && ref.key == key
  {
    if ref.Valid() && ref.source == source && ref.key == key {
      PayPalKeyRoundTrip(ref.reference);
    }
  }

  predicate IsOneOfThree(source: string) {
    source == "razorpay" || source == "synthetic" || source == "paypal"
  }

  /** Which error for_key and for_trigger_event raise: an unknown provider's, or that of an impossible identity. */
  lemma IdentityErrors(source: string, key: string, e: Event)
    ensures ForKey(source, key) == Err(UnsupportedProvider) <==> !IsOneOfThree(source)
    ensures ForKey(source, key) == Err(InvalidIdentity) <==>
              IsOneOfThree(source) && forall ref: AttemptRef :: !(ref.Valid() && ref.source == source && ref.key == key)
    ensures var announced := if e.source == "paypal" then e.kind == OrderApproved else e.kind == PaymentAuthorized;
            && (ForTriggerEvent(e) == Err(UnsupportedProvider) <==> announced && !IsOneOfThree(e.source))
            && (ForTriggerEvent(e) == Err(InvalidIdentity) <==>
                  || !announced
                  || (IsOneOfThree(e.source)
                      && forall ref: AttemptRef :: !(ref.Valid() && ref.source == e.source && ref.reference == e.paymentId)))
  {
    forall ref: AttemptRef
      ensures ForKey(source, key) == Ok(ref) <==> ref.Valid() && ref.source == source && ref.key == key
    {
      ForKeyIsExact(source, key, ref);
    }
    if ForKey(source, key).Ok? {
      var ref := ForKey(source, key).value;
      assert ref.Valid() && ref.source == source && ref.key == key;
    }
    if ForTriggerEvent(e).Ok? {
      var ref := ForTriggerEvent(e).value;
      assert ref.Valid() && ref.source == e.source && ref.reference == e.paymentId;
    }
  }

  /** resolve_pipeline_attempt never raises, and gives a trigger role exactly where for_trigger_event succeeds. */
  lemma ResolutionAgreesWithTrigger(e: Event, ref: AttemptRef)
    ensures ResolvePipelineAttempt(e).Ok?
    ensures ForTriggerEvent(e) == Ok(ref) <==> ResolvePipelineAttempt(e) == Ok(Some(PipelineAttempt(Trigger, ref)))
  {
    PayPalKeyRoundTrip(e.paymentId);
    if InPayPalNamespace(e) {
      PayPalOrderIdRoundTrip(e.paymentId);
      assert PAYPAL_ATTEMPT_PREFIX <= e.paymentId;
    }
  }

  predicate SameOrder(trigger: Event, terminal: Event) {
    && trigger.source == terminal.source
    && if trigger.source == PAYPAL then terminal.orderId == Some(trigger.paymentId)
       else terminal.paymentId == trigger.paymentId
  }

  /** The trigger and the terminal event of one order or payment name the same attempt, and no other's do. */
  lemma OneAttemptPerOrder(trigger: Event, terminal: Event, ref: AttemptRef)
    requires ResolvePipelineAttempt(trigger) == Ok(Some(PipelineAttempt(Trigger, ref)))
    requires IsTerminal(terminal.kind)
    ensures ResolvePipelineAttempt(terminal) == Ok(Some(PipelineAttempt(Terminal, ref)))
            <==> SameOrder(trigger, terminal)
  {
    PayPalKeyRoundTrip(trigger.paymentId);
    if terminal.source == PAYPAL && terminal.orderId.Some? {
      PayPalKeyRoundTrip(terminal.orderId.value);
    }
    ForKeyIsExact(terminal.source, ref.key, ref);
  }

  // ---------------------------------------------------------------------------
  // The registry
  // ---------------------------------------------------------------------------

  datatype Registration = Registration(source: string, reference: string, trigger: nat)

  type Registry = map<string, Registration>

  /** require: the attempt must be registered under exactly this identity. */
  function Require(registry: Registry, ref: AttemptRef): Result<Registration, IdentityError> {
    if ref.key !in registry then Err(NotRegistered)
    else
      var row := registry[ref.key];
      if row.source != ref.source || row.reference != ref.reference then Err(ProviderConflict) else Ok(row)
  }

  /** The registered row answers for its own provider and reference only. */
  lemma RequireMeaning(registry: Registry, ref: AttemptRef)
    ensures Require(registry, ref) == Err(NotRegistered) <==> ref.key !in registry
    ensures Require(registry, ref) == Err(ProviderConflict) <==>
              ref.key in registry && !(registry[ref.key].source == ref.source && registry[ref.key].reference == ref.reference)
    ensures Require(registry, ref).Ok? ==> Require(registry, ref) == Ok(registry[ref.key])
  {
  }

  /** The registry after INSERT ... ON CONFLICT (payment_attempt_id) DO NOTHING. */
  function Registered(registry: Registry, e: Event): Registry {
    match ForTriggerEvent(e)
    case Err(_) => registry
    case Ok(ref) =>
      if ref.key in registry then registry else registry[ref.key := Registration(ref.source, ref.reference, e.id)]
  }

  class PaymentAttemptRepository {
    var registry: Registry

    constructor ()
      ensures registry == map[]
    {
      registry := map[];
    }

    method Register(e: Event) returns (r: Result<Registration, IdentityError>)
      modifies this
      ensures registry == Registered(old(registry), e)
      ensures match ForTriggerEvent(e)
              case Err(error) => r == Err(error)
              case Ok(ref) => r == Require(registry, ref)
                              && (r.Err? ==> r == Err(ProviderConflict) && ref.key in old(registry))
                              && (ref.key !in old(registry) ==> r == Ok(Registration(ref.source, ref.reference, e.id)))
    {
      var made := ForTriggerEvent(e);
      if made.Err? {
        return Err(made.error);
      }
      var ref := made.value;
      if ref.key !in registry {
        registry := registry[ref.key := Registration(ref.source, ref.reference, e.id)];
      }
      r := Require(registry, ref);
    }
  }

  function RegisterAll(registry: Registry, events: seq<Event>): Registry {
    if events == [] then registry else Registered(RegisterAll(registry, events[..|events| - 1]), events[|events| - 1])
  }

  predicate NamesKey(e: Event, key: string) {
    ForTriggerEvent(e).Ok? && ForTriggerEvent(e).value.key == key
  }

  /** The first event that names a key decides its row for ever; a key no event names has none. */
  lemma {:induction false} FirstRegistrationWins(events: seq<Event>, key: string, first: nat)
    requires first <= |events| && forall i :: 0 <= i < first ==> !NamesKey(events[i], key)
    requires first < |events| ==> NamesKey(events[first], key)
    ensures first == |events| ==> key !in RegisterAll(map[], events)
    ensures first < |events| ==>
              var ref := ForTriggerEvent(events[first]).value;
              && key in RegisterAll(map[], events)
              && RegisterAll(map[], events)[key] == Registration(ref.source, ref.reference, events[first].id)
  {
    if events != [] {
      var n := |events| - 1;
      FirstRegistrationWins(events[..n], key, if first == |events| then n else first);
    }
  }
}
