/** The timer-evicting cache under every interleaving of Get, Set, firing timers and the
    callbacks that wait for the mutex. Each event is one critical section, or a timer
    leaving the runtime's control. */
module CacheProtocol {
  import opened Options

  datatype Entry<V> = Entry(data: V, timer: nat)

  /** A timer deletes one key. Once fired, its callback waits for the mutex and can no
      longer be stopped. */
  datatype Timer = Armed(key: string) | Fired(key: string) | Done(key: string)

  datatype Cache<V> = Cache(entries: map<string, Entry<V>>, timers: seq<Timer>)

  datatype Event<V> = Set(key: string, data: V) | Fire(timer: nat) | Callback(timer: nat)

  predicate Enabled<V>(c: Cache<V>, e: Event<V>) {
    match e
    case Set(_, _) => true
    case Fire(t) => t < |c.timers| && c.timers[t].Armed?
    case Callback(t) => t < |c.timers| && c.timers[t].Fired?
  }

  /** Stopping works only on a timer that has not fired. */
  function Stop(timers: seq<Timer>, t: nat): (r: seq<Timer>)
    requires t < |timers|
    ensures |r| == |timers|
  {
    if timers[t].Armed? then timers[t := Done(timers[t].key)] else timers
  }

  function Apply<V>(c: Cache<V>, e: Event<V>): Cache<V>
    requires TimersExist(c) && Enabled(c, e)
  {
    match e
    case Set(k, v) =>
      var stopped := if k in c.entries then Stop(c.timers, c.entries[k].timer) else c.timers;
      Cache(c.entries[k := Entry(v, |c.timers|)], stopped + [Armed(k)])
    case Fire(t) => c.(timers := c.timers[t := Fired(c.timers[t].key)])
    case Callback(t) => Cache(c.entries - {c.timers[t].key}, c.timers[t := Done(c.timers[t].key)])
  }

  function Get<V>(c: Cache<V>, k: string): Option<V> {
    if k in c.entries then Some(c.entries[k].data) else None
  }

  predicate TimersExist<V>(c: Cache<V>) {
    forall k :: k in c.entries ==> c.entries[k].timer < |c.timers|
  }

  function EmptyCache<V>(): Cache<V> {
    Cache(map[], [])
  }

  // ----- runs, with what was set last -----

  predicate ValidRun<V>(c: Cache<V>, events: seq<Event<V>>)
    decreases |events|
  {
    events == [] || (TimersExist(c) && Enabled(c, events[0]) && ValidRun(Apply(c, events[0]), events[1..]))
  }

  function After<V>(c: Cache<V>, events: seq<Event<V>>): Cache<V>
    requires ValidRun(c, events)
    decreases |events|
  {
    if events == [] then c else After(Apply(c, events[0]), events[1..])
  }

  /** The data of the last Set of the key, independent of timers. */
  function LastSet<V>(events: seq<Event<V>>, k: string): Option<V> {
    if events == [] then None
    else
      var e := events[|events| - 1];
      if e.Set? && e.key == k then Some(e.data) else LastSet(events[..|events| - 1], k)
  }

  /** Every entry's own timer deletes the entry's key and has not run yet. */
  predicate OwnTimersPending<V>(c: Cache<V>) {
    forall k :: k in c.entries ==>
      && c.entries[k].timer < |c.timers|
      && (c.timers[c.entries[k].timer] == Armed(k) || c.timers[c.entries[k].timer] == Fired(k))
  }

  /** Two keys never share a timer, so stopping one leaves the others alone. */
  lemma StepKeepsTimers<V>(c: Cache<V>, e: Event<V>)
    requires OwnTimersPending(c) && Enabled(c, e)
    ensures TimersExist(c) && OwnTimersPending(Apply(c, e))
  {
    var d := Apply(c, e);
    forall k | k in d.entries
      ensures d.entries[k].timer < |d.timers|
      ensures d.timers[d.entries[k].timer] == Armed(k) || d.timers[d.entries[k].timer] == Fired(k)
    {
      if !(e.Set? && e.key == k) {
        assert k in c.entries && d.entries[k] == c.entries[k];
      }
    }
  }

  ghost predicate Holds<V>(c: Cache<V>, past: seq<Event<V>>) {
    forall k :: k in c.entries ==> LastSet(past, k) == Some(c.entries[k].data)
  }

  lemma StepKeepsLatest<V>(c: Cache<V>, past: seq<Event<V>>, e: Event<V>)
    requires OwnTimersPending(c) && TimersExist(c) && Enabled(c, e) && Holds(c, past)
    ensures Holds(Apply(c, e), past + [e])
  {
    var d := Apply(c, e);
    assert (past + [e])[..|past|] == past;
    forall k | k in d.entries
      ensures LastSet(past + [e], k) == Some(d.entries[k].data)
    {
      if !(e.Set? && e.key == k) {
        assert k in c.entries && d.entries[k] == c.entries[k];
      }
    }
  }

  lemma {:induction false} RunKeeps<V>(c: Cache<V>, past: seq<Event<V>>, events: seq<Event<V>>)
    requires OwnTimersPending(c) && Holds(c, past) && ValidRun(c, events)
    ensures OwnTimersPending(After(c, events)) && Holds(After(c, events), past + events)
    decreases |events|
  {
    if events == [] {
      assert past + events == past;
    } else {
      StepKeepsTimers(c, events[0]);
      StepKeepsLatest(c, past, events[0]);
      RunKeeps(Apply(c, events[0]), past + [events[0]], events[1..]);
      assert past + [events[0]] + events[1..] == past + events;
    }
  }

  /** Over every interleaving: Get answers with the latest Set of the key or misses, and a
      present entry's own timer is still to run. */
  lemma GetIsLatestOrMiss<V>(events: seq<Event<V>>, k: string)
    requires ValidRun(EmptyCache<V>(), events)
    ensures var c := After(EmptyCache<V>(), events);
            && (Get(c, k).Some? ==> Get(c, k) == LastSet(events, k))
            && (k in c.entries ==> c.entries[k].timer < |c.timers| && !c.timers[c.entries[k].timer].Done?)
  {
    RunKeeps(EmptyCache<V>(), [], events);
    assert [] + events == events;
  }

  // ----- when Get hits -----

  /** The keys of the timers, one for each Set so far. */
  function SetKeys<V>(events: seq<Event<V>>): seq<string> {
    if events == [] then []
    else
      var e := events[|events| - 1];
      SetKeys(events[..|events| - 1]) + if e.Set? then [e.key] else []
  }

  /** Whether the last event that touched the key was a Set and not a callback. */
  predicate StillSet<V>(events: seq<Event<V>>, k: string) {
    if events == [] then false
    else
      var past, e := events[..|events| - 1], events[|events| - 1];
      match e
      case Set(key, _) => key == k || StillSet(past, k)
      case Fire(_) => StillSet(past, k)
      case Callback(t) => !(t < |SetKeys(past)| && SetKeys(past)[t] == k) && StillSet(past, k)
  }

  ghost predicate Tracks<V>(c: Cache<V>, past: seq<Event<V>>) {
    && |c.timers| == |SetKeys(past)|
    && (forall t :: 0 <= t < |c.timers| ==> c.timers[t].key == SetKeys(past)[t])
    && (forall k :: k in c.entries <==> StillSet(past, k))
  }

  lemma StepTracks<V>(c: Cache<V>, past: seq<Event<V>>, e: Event<V>)
    requires TimersExist(c) && Enabled(c, e) && Tracks(c, past)
    ensures Tracks(Apply(c, e), past + [e])
  {
    var d := Apply(c, e);
    assert (past + [e])[..|past|] == past;
    assert forall t :: 0 <= t < |c.timers| ==> d.timers[t].key == c.timers[t].key;
  }

  lemma {:induction false} RunTracks<V>(c: Cache<V>, past: seq<Event<V>>, events: seq<Event<V>>)
    requires Tracks(c, past) && ValidRun(c, events)
    ensures Tracks(After(c, events), past + events)
    decreases |events|
  {
    if events == [] {
      assert past + events == past;
    } else {
      StepTracks(c, past, events[0]);
      RunTracks(Apply(c, events[0]), past + [events[0]], events[1..]);
      assert past + [events[0]] + events[1..] == past + events;
    }
  }

  /** Over every interleaving, what Get answers is determined by the Sets and callbacks
      alone: the data of the last Set, unless a callback of the key has run since. */
  lemma GetAnswers<V>(events: seq<Event<V>>, k: string)
    requires ValidRun(EmptyCache<V>(), events)
    ensures Get(After(EmptyCache<V>(), events), k) == if StillSet(events, k) then LastSet(events, k) else None
  {
    RunTracks(EmptyCache<V>(), [], events);
    assert [] + events == events;
    GetIsLatestOrMiss(events, k);
  }

  /** When no timer is pending, nothing is left in the cache: every entry is evicted. */
  lemma QuiescentIsEmpty<V>(events: seq<Event<V>>)
    requires ValidRun(EmptyCache<V>(), events)
    requires forall t :: 0 <= t < |After(EmptyCache<V>(), events).timers| ==> After(EmptyCache<V>(), events).timers[t].Done?
    ensures After(EmptyCache<V>(), events).entries == map[]
  {
    RunKeeps(EmptyCache<V>(), [], events);
    var c := After(EmptyCache<V>(), events);
    assert forall k :: k !in c.entries;
  }

  // ----- when an entry is lost early -----

  /** A pending timer of the key that is not the entry's own. */
  predicate StaleTimer<V>(c: Cache<V>, k: string, t: nat) {
    t < |c.timers| && c.timers[t].key == k && !c.timers[t].Done? && (k in c.entries ==> c.entries[k].timer != t)
  }

  predicate NoStaleTimer<V>(c: Cache<V>, k: string) {
    forall t :: 0 <= t < |c.timers| ==> !StaleTimer(c, k, t)
  }

  /** A Set leaves a stale timer behind exactly when a callback of the key was already
      waiting, or an older stale timer was pending: stopping cannot reach those. */
  lemma SetLeavesStaleIff<V>(c: Cache<V>, k: string, v: V)
    requires OwnTimersPending(c) && TimersExist(c)
    ensures NoStaleTimer(Apply(c, Set(k, v)), k)
       <==> forall t :: 0 <= t < |c.timers| && c.timers[t].key == k && !c.timers[t].Done? ==>
              c.timers[t].Armed? && k in c.entries && c.entries[k].timer == t
  {
    var d := Apply(c, Set(k, v));
    assert forall t :: 0 <= t < |c.timers| ==> d.timers[t].key == c.timers[t].key;
    forall t | 0 <= t < |c.timers|
      ensures StaleTimer(d, k, t) <==> c.timers[t].key == k && !c.timers[t].Done? && !(c.timers[t].Armed? && k in c.entries && c.entries[k].timer == t)
    {
    }
    assert !StaleTimer(d, k, |c.timers|);
    if NoStaleTimer(d, k) {
      forall t | 0 <= t < |c.timers|
        ensures !StaleTimer(d, k, t)
      {
      }
    }
  }

  /** Without a stale timer, only the entry's own callback can remove it: it is not lost
      before its time, whatever the other keys do. */
  lemma EntryStaysUntilOwnCallback<V>(c: Cache<V>, k: string, e: Event<V>)
    requires OwnTimersPending(c) && TimersExist(c) && Enabled(c, e)
    requires k in c.entries && NoStaleTimer(c, k) && !(e.Set? && e.key == k)
    ensures k in Apply(c, e).entries <==> e != Callback(c.entries[k].timer)
    ensures k in Apply(c, e).entries ==> Apply(c, e).entries[k] == c.entries[k] && NoStaleTimer(Apply(c, e), k)
  {
    var d := Apply(c, e);
    if e.Callback? {
      assert !StaleTimer(c, k, e.timer);
    }
    if k in d.entries {
      forall t | 0 <= t < |d.timers|
        ensures !StaleTimer(d, k, t)
      {
        assert t < |c.timers| ==> !StaleTimer(c, k, t);
      }
    }
  }

  /** Other keys' business, as seen from one entry: no Set of its key. */
  predicate WithoutSet<V>(events: seq<Event<V>>, k: string) {
    forall i :: 0 <= i < |events| ==> !(events[i].Set? && events[i].key == k)
  }

  /** The callback of timer t is not among the events. */
  predicate NeverRuns<V>(events: seq<Event<V>>, t: nat) {
    forall i :: 0 <= i < |events| ==> !(events[i].Callback? && events[i].timer == t)
  }

  lemma {:induction false} AbsentStaysAbsent<V>(c: Cache<V>, k: string, events: seq<Event<V>>)
    requires OwnTimersPending(c) && ValidRun(c, events) && k !in c.entries && WithoutSet(events, k)
    ensures k !in After(c, events).entries
    decreases |events|
  {
    if events != [] {
      assert !(events[0].Set? && events[0].key == k);
      StepKeepsTimers(c, events[0]);
      AbsentStaysAbsent(Apply(c, events[0]), k, events[1..]);
    }
  }

  /** The whole life of an entry that no stale timer threatens: over every run it is there
      exactly until its own callback. */
  lemma {:induction false} EntryLivesUntilOwnCallback<V>(c: Cache<V>, k: string, events: seq<Event<V>>)
    requires OwnTimersPending(c) && ValidRun(c, events) && WithoutSet(events, k)
    requires k in c.entries && NoStaleTimer(c, k)
    ensures k in After(c, events).entries <==> NeverRuns(events, c.entries[k].timer)
    ensures k in After(c, events).entries ==> After(c, events).entries[k] == c.entries[k]
    decreases |events|
  {
    if events != [] {
      var d := Apply(c, events[0]);
      assert !(events[0].Set? && events[0].key == k);
      StepKeepsTimers(c, events[0]);
      EntryStaysUntilOwnCallback(c, k, events[0]);
      if k in d.entries {
        EntryLivesUntilOwnCallback(d, k, events[1..]);
        assert events == [events[0]] + events[1..];
      } else {
        AbsentStaysAbsent(d, k, events[1..]);
      }
    }
  }

  /** The entry of k is gone after the events, though it was not replaced and its own
      callback has not run. */
  predicate LostEarly<V>(c: Cache<V>, k: string, events: seq<Event<V>>)
    requires k in c.entries
  {
    && ValidRun(c, events) && WithoutSet(events, k)
    && NeverRuns(events, c.entries[k].timer)
    && k !in After(c, events).entries
  }

  /** A stale timer can always run before the entry's own. */
  lemma StaleTimerStrikes<V>(c: Cache<V>, k: string, t: nat) returns (events: seq<Event<V>>)
    requires OwnTimersPending(c) && TimersExist(c) && k in c.entries && StaleTimer(c, k, t)
    ensures LostEarly(c, k, events)
  {
    var strike: Event<V> := Callback(t);
    assert [strike][1..] == [];
    if c.timers[t].Fired? {
      events := [strike];
      assert After(Apply(c, strike), []) == Apply(c, strike);
    } else {
      var fire: Event<V> := Fire(t);
      var d := Apply(c, fire);
      events := [fire, strike];
      assert events[1..] == [strike];
      StepKeepsTimers(c, fire);
      assert Enabled(d, strike) && ValidRun(Apply(d, strike), []) && ValidRun(d, [strike]);
      assert After(Apply(d, strike), []) == Apply(d, strike) && After(d, [strike]) == Apply(d, strike);
    }
  }

  /** An entry can be lost before its time exactly when a stale timer of its key, armed or
      fired, is pending. */
  lemma LostEarlyIff<V>(c: Cache<V>, k: string)
    requires OwnTimersPending(c) && TimersExist(c) && k in c.entries
    ensures (exists events: seq<Event<V>> :: LostEarly(c, k, events)) <==> !NoStaleTimer(c, k)
  {
    if NoStaleTimer(c, k) {
      forall events: seq<Event<V>> | ValidRun(c, events) && WithoutSet(events, k)
        ensures !LostEarly(c, k, events)
      {
        EntryLivesUntilOwnCallback(c, k, events);
      }
    } else {
      var t :| 0 <= t < |c.timers| && StaleTimer(c, k, t);
      var events := StaleTimerStrikes(c, k, t);
    }
  }

  /** The early miss: whenever the entry's callback already waits while Set replaces the
      entry, that callback deletes the new one, whose own timer stays armed. */
  lemma StaleCallbackDropsNewEntry<V>(c: Cache<V>, k: string, v: V)
    requires OwnTimersPending(c) && TimersExist(c) && k in c.entries
    requires c.timers[c.entries[k].timer] == Fired(k)
    ensures var t := c.entries[k].timer;
            var d := Apply(c, Set(k, v));
            && Get(d, k) == Some(v) && Enabled(d, Callback(t))
            && var e := Apply(d, Event<V>.Callback(t));
               Get(e, k) == None && e.timers[|c.timers|] == Armed(k)
  {
  }
}
