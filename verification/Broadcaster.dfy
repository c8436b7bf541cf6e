/** The broadcaster: one transaction at a time under its mutex, with a cached sequence.
    Every call is a run of the sequence protocol. */
module Broadcaster {
  import opened Options
  import opened SequenceProtocol

  datatype Error = NoMessages | QueryFailed | BuildFailed | SimulateFailed | FeeFailed | AnswerWasLost | TxRefused

  datatype TxResult = Ok | Code | Transport

  /** A signed transaction; its messages are opaque. */
  datatype Tx = Tx(messages: seq<string>, account: nat, sequence: nat)

  /** What the services answer during one broadcast: whether the account query, building and
      signing, the simulation, and the fee and second signing succeed, whether the broadcast
      is answered, and whether the chain has no other reason to refuse the transaction. */
  datatype Services = Services(accountFound: bool, built: bool, simulates: bool, priced: bool, answered: bool, willing: bool)

  /** The sequence a broadcast uses, and the one the chain waits for when it simulates and
      when it receives the transaction. */
  datatype Moments = Moments(sequence: nat, atSimulate: nat, atBroadcast: nat)

  /** The first step that fails decides the error; none means success. */
  function FirstFailure(messages: seq<string>, env: Services, cacheValid: bool, at: Moments): Option<Error> {
    if messages == [] then Some(NoMessages)
    else if !cacheValid && !env.accountFound then Some(QueryFailed)
    else if !env.built then Some(BuildFailed)
    else if !env.simulates || at.sequence != at.atSimulate then Some(SimulateFailed)
    else if !env.priced then Some(FeeFailed)
    else if !env.answered then Some(AnswerWasLost)
    else if !env.willing || at.sequence != at.atBroadcast then Some(TxRefused)
    else None
  }

  /** The broadcaster's side of a protocol state. */
  datatype Wallet = Wallet(cachedSequence: nat, sequenceValid: bool, phase: Phase)

  /** The chain's side of a protocol state, with the history that the properties speak of. */
  datatype ChainView = ChainView(next: nat, inFlight: set<nat>, accepted: seq<nat>, mismatches: nat, divergences: nat, quiet: bool)

  function Join(w: Wallet, c: ChainView): State {
    State(w.cachedSequence, w.sequenceValid, w.phase, c.next, c.inFlight, c.accepted, c.mismatches, c.divergences, c.quiet)
  }

  lemma {:induction false} RunConcat(s: State, a: seq<Event>, b: seq<Event>)
    requires ValidRun(s, a) && ValidRun(After(s, a), b)
    ensures ValidRun(s, a + b) && After(s, a + b) == After(After(s, a), b)
    decreases |a|
  {
    if a == [] {
      assert a + b == b;
    } else {
      assert (a + b)[1..] == a[1..] + b;
      RunConcat(Apply(s, a[0]), a[1..], b);
    }
  }

  lemma RunSnoc(s: State, a: seq<Event>, e: Event)
    requires ValidRun(s, a) && Enabled(After(s, a), e)
    ensures ValidRun(s, a + [e]) && After(s, a + [e]) == Apply(After(s, a), e)
  {
    assert [e][1..] == [];
    assert ValidRun(After(s, a), [e]) && After(After(s, a), [e]) == Apply(After(s, a), e);
    RunConcat(s, a, [e]);
  }

  /** Some answer of the environment that the broadcaster cannot foresee. */
  method Environment() returns (b: bool) {
    b := *;
  }

  class Chain {
    const accountNumber: nat
    var next: nat
    // every transaction handed over for broadcasting
    var handed: seq<Tx>
    ghost var view: ChainView

    ghost predicate Valid()
      reads this
    {
      view.next == next
    }

    constructor (accountNumber: nat, next: nat)
      ensures Valid() && view == ChainView(next, {}, [], 0, 0, true) && this.accountNumber == accountNumber && handed == []
    {
      this.accountNumber := accountNumber;
      this.next := next;
      handed := [];
      view := ChainView(next, {}, [], 0, 0, true);
    }

    /** What happens between two calls of the broadcaster: foreign transactions and late
        deliveries, any number of them. */
    method Drift(ghost w: Wallet) returns (ghost events: seq<Event>)
      requires Valid()
      modifies this`next, this`view
      ensures Valid() && next == old(next) + |events|
      ensures forall i :: 0 <= i < |events| ==> events[i].Foreign? || events[i].Deliver?
      ensures ValidRun(Join(w, old(view)), events) && After(Join(w, old(view)), events) == Join(w, view)
    {
      events := [];
      var more := Environment();
      var steps: nat := *;
      while more && steps > 0
        invariant Valid() && next == old(next) + |events|
        invariant forall i :: 0 <= i < |events| ==> events[i].Foreign? || events[i].Deliver?
        invariant ValidRun(Join(w, old(view)), events) && After(Join(w, old(view)), events) == Join(w, view)
        decreases steps
      {
        ghost var s := Join(w, view);
        ghost var late: bool := *;
        ghost var e := if late && next in view.inFlight then Deliver(next) else Foreign;
        RunSnoc(Join(w, old(view)), events, e);
        events := events + [e];
        ghost var t := Apply(s, e);
        next := next + 1;
        view := ChainView(t.next, t.inFlight, t.accepted, t.mismatches, t.divergences, t.quiet);
        steps := steps - 1;
        more := Environment();
      }
    }

    method Account(found: bool) returns (account: Option<(nat, nat)>)
      ensures account == if found then Some((next, accountNumber)) else None
    {
      account := if found then Some((next, accountNumber)) else None;
    }

    /** Simulation succeeds only with the sequence the chain waits for. */
    method Simulate(tx: Tx, simulates: bool) returns (ok: bool)
      requires tx.account == accountNumber
      ensures ok <==> simulates && tx.sequence == next
    {
      ok := simulates && tx.sequence == next;
    }

    /** A broadcast is accepted, refused, or its answer gets lost. */
    method BroadcastTx(tx: Tx, answered: bool, willing: bool) returns (res: TxResult)
      requires Valid() && tx.account == accountNumber
      modifies this
      ensures Valid() && handed == old(handed) + [tx]
      ensures res == if !answered then Transport else if willing && tx.sequence == old(next) then Ok else Code
      ensures res == Ok ==>
                view == old(view).(next := old(next) + 1, accepted := old(view).accepted + [tx.sequence], quiet := true)
      ensures res == Code ==> view == old(view).(mismatches := old(view).mismatches + if tx.sequence != old(next) then 1 else 0)
      ensures res == Transport ==> view == old(view).(inFlight := old(view).inFlight + {tx.sequence}, quiet := false)
    {
      handed := handed + [tx];
      if !answered {
        view := view.(inFlight := view.inFlight + {tx.sequence}, quiet := false);
        return Transport;
      }
      if willing && tx.sequence == next {
        next := next + 1;
        view := view.(next := next, accepted := view.accepted + [tx.sequence], quiet := true);
        return Ok;
      }
      view := view.(mismatches := view.mismatches + if tx.sequence != next then 1 else 0);
      return Code;
    }

    /** The simulation's refusal, counted when it was about the sequence. */
    ghost method CountRefusal(sequence: nat)
      requires Valid()
      modifies this`view
      ensures Valid() && view == old(view).(mismatches := old(view).mismatches + if sequence != next then 1 else 0)
    {
      view := view.(mismatches := view.mismatches + if sequence != next then 1 else 0);
    }
  }

  class Broadcaster {
    var cachedSequence: nat
    var sequenceValid: bool
    var accountNumber: nat
    const chain: Chain
    // every event since the broadcaster was made, and the state it was made in
    ghost var history: seq<Event>
    ghost const first: State

    /** The fields and the chain are where the history leads. */
    ghost predicate Alive()
      reads this, chain
    {
      Valid() && IsInit(first) && ValidRun(first, history) && After(first, history) == View(Idle)
    }

    /** A valid cache also holds the right account number. */
    ghost predicate Valid()
      reads this, chain
    {
      chain.Valid() && (sequenceValid ==> accountNumber == chain.accountNumber)
    }

    constructor (chain: Chain)
      requires chain.Valid() && chain.view == ChainView(chain.next, {}, [], 0, 0, true)
      ensures this.chain == chain && !sequenceValid && Alive()
    {
      this.chain := chain;
      cachedSequence, accountNumber := 0, 0;
      sequenceValid := false;
      first := Join(Wallet(0, false, Idle), chain.view);
      history := [];
    }

    ghost function View(phase: Phase): State
      reads this, chain
    {
      Join(Wallet(cachedSequence, sequenceValid, phase), chain.view)
    }

    /** Cached sequence and account number if valid, else the chain's. */
    method ChooseSequence(found: bool, ghost s0: State) returns (account: Option<(nat, nat)>, ghost events: seq<Event>)
      requires Valid() && s0 == View(Idle)
      modifies chain`next, chain`view
      ensures Valid() && ValidRun(s0, events)
      ensures After(s0, events) == View(if account.Some? then Chosen(account.value.0) else Idle)
      ensures account.Some? <==> sequenceValid || found
      ensures account.Some? ==>
                && account.value.1 == chain.accountNumber
                && account.value.0 == (if sequenceValid then cachedSequence else chain.next)
      ensures WalletOnly(events) ==> chain.next == old(chain.next)
    {
      events := [];
      if sequenceValid {
        RunSnoc(s0, events, UseCached);
        assert events + [UseCached] == [UseCached];
        return Some((cachedSequence, accountNumber)), [UseCached];
      }
      events := chain.Drift(Wallet(cachedSequence, sequenceValid, Idle));
      ghost var drift := events;
      account := chain.Account(found);
      if account.Some? {
        RunSnoc(s0, events, Query);
        events := events + [Query];
      }
      assert drift != [] ==> events[0] == drift[0];
    }

    /** Whatever others do to the chain until the broadcaster's next request. */
    method Wait(ghost phase: Phase, ghost s0: State, ghost before: seq<Event>) returns (ghost events: seq<Event>)
      requires Valid() && ValidRun(s0, before) && After(s0, before) == View(phase)
      modifies chain`next, chain`view
      ensures Valid() && ValidRun(s0, events) && After(s0, events) == View(phase)
      ensures before <= events && (WalletOnly(events) ==> chain.next == old(chain.next))
    {
      ghost var drift := chain.Drift(Wallet(cachedSequence, sequenceValid, phase));
      RunConcat(s0, before, drift);
      events := before + drift;
      assert drift != [] ==> events[|before|] == drift[0];
    }

    /** Simulate the transaction; a refusal invalidates the cache. */
    method SimulateTx(tx: Tx, simulates: bool, ghost s0: State, ghost before: seq<Event>)
      returns (ok: bool, ghost events: seq<Event>, ghost atSimulate: nat)
      requires Valid() && tx.account == chain.accountNumber
      requires ValidRun(s0, before) && After(s0, before) == View(Chosen(tx.sequence))
      modifies this`sequenceValid, chain`next, chain`view
      ensures Valid() && ValidRun(s0, events) && After(s0, events) == View(if ok then Simulated(tx.sequence) else Idle)
      ensures ok <==> simulates && tx.sequence == atSimulate
      ensures sequenceValid == (ok && old(sequenceValid))
      ensures before <= events && (WalletOnly(events) ==> chain.next == old(chain.next))
      ensures atSimulate == chain.next
    {
      events := Wait(Chosen(tx.sequence), s0, before);
      WalletOnlyEarlier(events, events + [if simulates && tx.sequence == chain.next then SimulateOk else SimulateRefused]);
      atSimulate := chain.next;
      ok := chain.Simulate(tx, simulates);
      if ok {
        RunSnoc(s0, events, SimulateOk);
        events := events + [SimulateOk];
      } else {
        RunSnoc(s0, events, SimulateRefused);
        events := events + [SimulateRefused];
        chain.CountRefusal(tx.sequence);
        sequenceValid := false;
      }
    }

    /** Send the transaction and record what the answer says about the sequence. */
    method SendTx(tx: Tx, env: Services, ghost s0: State, ghost before: seq<Event>)
      returns (res: TxResult, ghost events: seq<Event>, ghost atBroadcast: nat)
      requires Valid() && tx.account == chain.accountNumber
      requires ValidRun(s0, before) && After(s0, before) == View(Simulated(tx.sequence))
      modifies this`cachedSequence, this`sequenceValid, this`accountNumber, chain
      ensures Valid() && ValidRun(s0, events) && After(s0, events) == View(Idle)
      ensures chain.handed == old(chain.handed) + [tx]
      ensures res == if !env.answered then Transport else if env.willing && tx.sequence == atBroadcast then Ok else Code
      ensures res == Ok ==>
                && sequenceValid && cachedSequence == tx.sequence + 1 == chain.next
                && chain.view.accepted != [] && chain.view.accepted[|chain.view.accepted| - 1] == tx.sequence
      ensures res == Code ==> !sequenceValid
      ensures res == Transport ==> sequenceValid == old(sequenceValid) && cachedSequence == old(cachedSequence)
      ensures before <= events && (WalletOnly(events) ==> atBroadcast == old(chain.next))
    {
      events := Wait(Simulated(tx.sequence), s0, before);
      ghost var waited := events;
      atBroadcast := chain.next;
      res := chain.BroadcastTx(tx, env.answered, env.willing);
      if res == Transport {
        RunSnoc(s0, events, AnswerLost);
        events := events + [AnswerLost];
      } else if res == Code {
        RunSnoc(s0, events, Refused);
        events := events + [Refused];
        sequenceValid := false;
      } else {
        RunSnoc(s0, events, AcceptedTx);
        events := events + [AcceptedTx];
        cachedSequence := tx.sequence + 1;
        accountNumber := tx.account;
        sequenceValid := true;
      }
      WalletOnlyEarlier(waited, events);
    }

    /** One broadcast. Its effect is a run of the protocol that starts and ends idle. The
        first step that fails decides the error; one transaction with the messages is handed
        to the chain exactly when everything before succeeds; each exit leaves the cache as
        stated. */
    method Broadcast(messages: seq<string>, env: Services) returns (err: Option<Error>, ghost events: seq<Event>, ghost at: Moments)
      requires Alive()
      modifies this, chain
      ensures Alive() && history == old(history) + events
      ensures ValidRun(old(View(Idle)), events) && After(old(View(Idle)), events) == View(Idle)
      ensures err == FirstFailure(messages, env, old(sequenceValid), at)
      ensures old(sequenceValid) ==> at.sequence == old(cachedSequence)
      ensures WalletOnly(events) ==>
                && at.atSimulate == at.atBroadcast == old(chain.next)
                && (!old(sequenceValid) ==> at.sequence == old(chain.next))
      ensures chain.handed == old(chain.handed)
                + if err.None? || err.value in {AnswerWasLost, TxRefused} then [Tx(messages, chain.accountNumber, at.sequence)] else []
      ensures err.None? ==>
                && sequenceValid && cachedSequence == at.sequence + 1 == chain.next
                && chain.view.accepted != [] && chain.view.accepted[|chain.view.accepted| - 1] == at.sequence
      ensures err in {Some(SimulateFailed), Some(TxRefused)} ==> !sequenceValid
      ensures err.Some? && err.value !in {SimulateFailed, TxRefused} ==>
                sequenceValid == old(sequenceValid) && cachedSequence == old(cachedSequence)
    {
      ghost var past := history;
      err, events, at := BroadcastLocked(messages, env);
      RunConcat(first, past, events);
      history := past + events;
    }

    method BroadcastLocked(messages: seq<string>, env: Services) returns (err: Option<Error>, ghost events: seq<Event>, ghost at: Moments)
      requires Valid()
      modifies this`cachedSequence, this`sequenceValid, this`accountNumber, chain
      ensures Valid()
      ensures ValidRun(old(View(Idle)), events) && After(old(View(Idle)), events) == View(Idle)
      ensures err == FirstFailure(messages, env, old(sequenceValid), at)
      ensures old(sequenceValid) ==> at.sequence == old(cachedSequence)
      ensures WalletOnly(events) ==>
                && at.atSimulate == at.atBroadcast == old(chain.next)
                && (!old(sequenceValid) ==> at.sequence == old(chain.next))
      ensures chain.handed == old(chain.handed)
                + if err.None? || err.value in {AnswerWasLost, TxRefused} then [Tx(messages, chain.accountNumber, at.sequence)] else []
      ensures err.None? ==>
                && sequenceValid && cachedSequence == at.sequence + 1 == chain.next
                && chain.view.accepted != [] && chain.view.accepted[|chain.view.accepted| - 1] == at.sequence
      ensures err in {Some(SimulateFailed), Some(TxRefused)} ==> !sequenceValid
      ensures err.Some? && err.value !in {SimulateFailed, TxRefused} ==>
                sequenceValid == old(sequenceValid) && cachedSequence == old(cachedSequence)
    {
      events := [];
      at := Moments(if sequenceValid then cachedSequence else chain.next, chain.next, chain.next);
      if |messages| == 0 {
        return Some(NoMessages), events, at;
      }
      ghost var s0 := View(Idle);
      var chosen;
      chosen, events := ChooseSequence(env.accountFound, s0);
      if chosen.None? {
        return Some(QueryFailed), events, at;
      }
      var tx := Tx(messages, chosen.value.1, chosen.value.0);
      at := Moments(tx.sequence, chain.next, chain.next);
      if !env.built {
        WalletOnlyEarlier(events, events + [LocalFailure]);
        RunSnoc(s0, events, LocalFailure);
        events := events + [LocalFailure];
        return Some(BuildFailed), events, at;
      }
      ghost var atSimulate, atBroadcast;
      var simulated;
      simulated, events, atSimulate := SimulateTx(tx, env.simulates, s0, events);
      at := Moments(tx.sequence, atSimulate, atSimulate);
      if !simulated {
        return Some(SimulateFailed), events, at;
      }
      if !env.priced {
        WalletOnlyEarlier(events, events + [LocalFailure]);
        RunSnoc(s0, events, LocalFailure);
        events := events + [LocalFailure];
        return Some(FeeFailed), events, at;
      }
      var res;
      res, events, atBroadcast := SendTx(tx, env, s0, events);
      at := Moments(tx.sequence, atSimulate, atBroadcast);
      err := if res == Ok then None else if res == Code then Some(TxRefused) else Some(AnswerWasLost);
    }
  }

  /** A broadcast succeeds exactly when there is something to send, every service answers
      favourably, and the sequence is the one the chain waits for both times. */
  lemma SucceedsIff(messages: seq<string>, env: Services, cacheValid: bool, at: Moments)
    ensures FirstFailure(messages, env, cacheValid, at).None? <==>
              && messages != [] && (cacheValid || env.accountFound) && env.built
              && env.simulates && env.priced && env.answered && env.willing
              && at.atSimulate == at.sequence == at.atBroadcast
  {
  }

  /** The cache, read off a broadcaster at any moment between two calls. */
  lemma BroadcasterNeverAhead(b: Broadcaster)
    requires b.Alive() && b.sequenceValid
    ensures b.cachedSequence + MovesSince(b.history) == b.chain.next && b.accountNumber == b.chain.accountNumber
    ensures b.chain.view.quiet ==> b.cachedSequence == b.chain.next
  {
    CacheNeverAhead(b.first, b.history, b.View(Idle));
  }
}
