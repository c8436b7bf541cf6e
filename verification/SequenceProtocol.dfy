/** The account sequence against the chain, as a state machine: every way the wallet's
    broadcasts, foreign transactions and late deliveries can interleave. */
module SequenceProtocol {
  /** Where the one broadcast that holds the mutex stands. */
  datatype Phase = Idle | Chosen(seqNo: nat) | Simulated(seqNo: nat)

  datatype State = State(
    // the broadcaster's own fields
    cachedSequence: nat, sequenceValid: bool, phase: Phase,
    // the chain: the next sequence it accepts, and sends whose answer got lost
    next: nat, inFlight: set<nat>,
    // the wallet's accepted transactions, and what has been counted
    accepted: seq<nat>, mismatches: nat, divergences: nat,
    // no foreign transaction and no lost answer since the last acknowledged broadcast
    quiet: bool)

  datatype Event =
    | Foreign                // somebody else spends a sequence of this account
    | Deliver(seqNo: nat)    // a send whose answer was lost arrives after all
    | UseCached | Query      // the start of a broadcast
    | LocalFailure           // building, signing or fee calculation fails
    | SimulateRefused | SimulateOk
    | Refused | AcceptedTx | AnswerLost

  predicate Enabled(s: State, e: Event) {
    match e
    case Foreign => true
    case Deliver(q) => q in s.inFlight && q == s.next
    case UseCached => s.phase.Idle? && s.sequenceValid
    case Query => s.phase.Idle? && !s.sequenceValid
    case LocalFailure => !s.phase.Idle?
    case SimulateRefused => s.phase.Chosen?
    case SimulateOk => s.phase.Chosen? && s.phase.seqNo == s.next
    case Refused => s.phase.Simulated?
    case AcceptedTx => s.phase.Simulated? && s.phase.seqNo == s.next
    case AnswerLost => s.phase.Simulated?
  }

  /** A refusal counts as a mismatch when the sequence was the wrong one. */
  function Refusal(s: State): State
    requires !s.phase.Idle?
  {
    s.(sequenceValid := false, phase := Idle, mismatches := s.mismatches + if s.phase.seqNo != s.next then 1 else 0)
  }

  function Apply(s: State, e: Event): State
    requires Enabled(s, e)
  {
    match e
    case Foreign => s.(next := s.next + 1, divergences := s.divergences + 1, quiet := false)
    case Deliver(q) => s.(next := s.next + 1, divergences := s.divergences + 1, accepted := s.accepted + [q], inFlight := s.inFlight - {q})
    case UseCached => s.(phase := Chosen(s.cachedSequence))
    case Query => s.(phase := Chosen(s.next))
    case LocalFailure => s.(phase := Idle)
    case SimulateRefused => Refusal(s)
    case SimulateOk => s.(phase := Simulated(s.phase.seqNo))
    case Refused => Refusal(s)
    case AcceptedTx => s.(phase := Idle, cachedSequence := s.phase.seqNo + 1, sequenceValid := true,
                          next := s.next + 1, accepted := s.accepted + [s.phase.seqNo], quiet := true)
    case AnswerLost => s.(phase := Idle, inFlight := s.inFlight + {s.phase.seqNo}, quiet := false)
  }

  predicate IsInit(s: State) {
    && !s.sequenceValid && s.phase.Idle? && s.inFlight == {} && s.accepted == []
    && s.mismatches == 0 && s.divergences == 0
  }

  predicate ValidRun(s: State, events: seq<Event>)
    decreases |events|
  {
    events == [] || (Enabled(s, events[0]) && ValidRun(Apply(s, events[0]), events[1..]))
  }

  function After(s: State, events: seq<Event>): State
    requires ValidRun(s, events)
    decreases |events|
  {
    if events == [] then s else After(Apply(s, events[0]), events[1..])
  }

  predicate Reachable(init: State, events: seq<Event>, s: State) {
    IsInit(init) && ValidRun(init, events) && After(init, events) == s
  }

  // ----- the invariant -----

  predicate StrictlyIncreasing(a: seq<nat>) {
    forall i, j :: 0 <= i < j < |a| ==> a[i] < a[j]
  }

  /** A sequence that the wallet would send and that the chain no longer waits for. */
  predicate Diverged(s: State) {
    if s.phase.Idle? then s.sequenceValid && s.cachedSequence != s.next else s.phase.seqNo != s.next
  }

  predicate Inv(s: State) {
    && (s.sequenceValid ==> s.cachedSequence <= s.next)
    && (!s.phase.Idle? ==> s.phase.seqNo <= s.next && (s.sequenceValid ==> s.phase.seqNo == s.cachedSequence))
    && (forall q :: q in s.inFlight ==> q <= s.next)
    && (forall i :: 0 <= i < |s.accepted| ==> s.accepted[i] < s.next)
    && StrictlyIncreasing(s.accepted)
    && (s.sequenceValid && s.quiet ==> s.cachedSequence == s.next && forall q :: q in s.inFlight ==> q < s.next)
    && s.mismatches + (if Diverged(s) then 1 else 0) <= s.divergences
  }

  lemma StepKeepsInv(s: State, e: Event)
    requires Inv(s) && Enabled(s, e)
    ensures Inv(Apply(s, e)) && Apply(s, e).next >= s.next
  {
  }

  lemma {:induction false} RunKeepsInv(s: State, events: seq<Event>)
    requires Inv(s) && ValidRun(s, events)
    ensures Inv(After(s, events)) && After(s, events).next >= s.next
    decreases |events|
  {
    if events != [] {
      StepKeepsInv(s, events[0]);
      RunKeepsInv(Apply(s, events[0]), events[1..]);
    }
  }

  /** How often others moved the chain since the last acknowledged broadcast: foreign
      transactions and late deliveries. */
  function MovesSince(events: seq<Event>): nat {
    if events == [] then 0
    else
      var before, e := events[..|events| - 1], events[|events| - 1];
      if e.AcceptedTx? then 0 else MovesSince(before) + if e.Foreign? || e.Deliver? then 1 else 0
  }

  lemma {:induction false} RunKeepsLag(s: State, past: seq<Event>, events: seq<Event>)
    requires ValidRun(s, events) && (s.sequenceValid ==> s.next == s.cachedSequence + MovesSince(past))
    ensures var t := After(s, events);
            t.sequenceValid ==> t.next == t.cachedSequence + MovesSince(past + events)
    decreases |events|
  {
    if events == [] {
      assert past + events == past;
    } else {
      assert (past + [events[0]])[..|past|] == past;
      RunKeepsLag(Apply(s, events[0]), past + [events[0]], events[1..]);
      assert past + [events[0]] + events[1..] == past + events;
    }
  }

  /** Over every run: a valid cache is behind the chain by exactly the moves of others since
      the last acknowledged broadcast. So it never runs ahead, it is exact if and only if
      there were none, and there were none if nobody else sent and no answer got lost. */
  lemma CacheNeverAhead(init: State, events: seq<Event>, s: State)
    requires Reachable(init, events, s) && s.sequenceValid
    ensures s.next == s.cachedSequence + MovesSince(events)
    ensures s.cachedSequence <= s.next
    ensures s.cachedSequence == s.next <==> MovesSince(events) == 0
    ensures s.quiet ==> s.cachedSequence == s.next
  {
    RunKeepsInv(init, events);
    RunKeepsLag(init, [], events);
    assert [] + events == events;
  }

  /** Over every run: no two accepted transactions of the wallet share a sequence. */
  lemma SequencesNeverReused(init: State, events: seq<Event>, s: State, i: nat, j: nat)
    requires Reachable(init, events, s) && i < j < |s.accepted|
    ensures s.accepted[i] < s.accepted[j] < s.next
  {
    RunKeepsInv(init, events);
  }

  /** Over every run: each move of the chain that no acknowledged broadcast made costs at
      most one refusal for a wrong sequence. */
  lemma OneRefusalPerDivergence(init: State, events: seq<Event>, s: State)
    requires Reachable(init, events, s)
    ensures s.mismatches <= s.divergences
  {
    RunKeepsInv(init, events);
  }

  // ----- after a refusal, and after a lost answer -----

  predicate WalletOnly(events: seq<Event>) {
    forall i :: 0 <= i < |events| ==> !events[i].Foreign? && !events[i].Deliver?
  }

  lemma WalletOnlyEarlier(a: seq<Event>, b: seq<Event>)
    requires a <= b
    ensures WalletOnly(b) ==> WalletOnly(a)
  {
    assert forall i :: 0 <= i < |a| ==> a[i] == b[i];
  }

  /** In step with the chain: the next broadcast cannot be refused for its sequence. */
  predicate InStep(s: State) {
    (s.sequenceValid ==> s.cachedSequence == s.next) && (!s.phase.Idle? ==> s.phase.seqNo == s.next)
  }

  lemma {:induction false} InStepUntilDisturbed(s: State, events: seq<Event>)
    requires Inv(s) && InStep(s) && ValidRun(s, events) && WalletOnly(events)
    ensures After(s, events).mismatches == s.mismatches && InStep(After(s, events))
    decreases |events|
  {
    if events != [] {
      StepKeepsInv(s, events[0]);
      assert !events[0].Foreign? && !events[0].Deliver?;
      InStepUntilDisturbed(Apply(s, events[0]), events[1..]);
    }
  }

  /** A refusal makes the next broadcast query again, and then, while nobody else moves the
      chain, no further refusal is about the sequence. */
  lemma RefusalResynchronises(s: State, e: Event, events: seq<Event>)
    requires Inv(s) && Enabled(s, e) && (e.SimulateRefused? || e.Refused?)
    requires ValidRun(Apply(s, e), events) && WalletOnly(events)
    ensures !Enabled(Apply(s, e), UseCached) && Enabled(Apply(s, e), Query)
    ensures After(Apply(s, e), events).mismatches == Apply(s, e).mismatches
  {
    StepKeepsInv(s, e);
    InStepUntilDisturbed(Apply(s, e), events);
  }

  /** A lost answer leaves the cache alone. If the transaction did arrive, the cache is one
      behind and the next broadcast is refused once; if not, it is still exact. */
  lemma LostAnswer(s: State)
    requires Inv(s) && s.phase.Simulated? && s.phase.seqNo == s.next && s.sequenceValid
    ensures var lost := Apply(s, AnswerLost);
            && lost.sequenceValid && lost.cachedSequence == s.cachedSequence == lost.next
            && Enabled(lost, Deliver(s.phase.seqNo))
            && var late := Apply(lost, Deliver(s.phase.seqNo));
               late.cachedSequence + 1 == late.next && Diverged(late)
               && Enabled(late, UseCached) && !Enabled(Apply(late, UseCached), SimulateOk)
  {
  }
}
