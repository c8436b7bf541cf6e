/** The in-memory cache as the code keeps it: a map of entries, each with its own timer. */
module MemoryCache {
  import opened Options
  import opened CacheProtocol

  class InMemoryCache<V> {
    var cache: map<string, Entry<V>>
    var timers: seq<Timer>

    function View(): Cache<V>
      reads this
    {
      Cache(cache, timers)
    }

    ghost predicate Valid()
      reads this
    {
      OwnTimersPending(View()) && TimersExist(View())
    }

    constructor ()
      ensures Valid() && View() == EmptyCache<V>()
    {
      cache, timers := map[], [];
    }

    method Get(key: string) returns (data: Option<V>)
      ensures data == CacheProtocol.Get(View(), key)
    {
      if key !in cache {
        return None;
      }
      var entry := cache[key];
      data := Some(entry.data);
    }

    /** Stops the previous timer if it has not fired yet; a fired one is out of reach. */
    method StopTimer(t: nat)
      requires t < |timers|
      modifies this`timers
      ensures timers == Stop(old(timers), t)
    {
      if timers[t].Armed? {
        timers := timers[t := Done(timers[t].key)];
      }
    }

    method Set(key: string, data: V)
      requires Valid()
      modifies this
      ensures View() == Apply(old(View()), CacheProtocol.Set(key, data))
      ensures Valid()
    {
      StepKeepsTimers(View(), CacheProtocol.Set(key, data));
      if key in cache {
        var entry := cache[key];
        StopTimer(entry.timer);
      }
      var timer := |timers|;
      timers := timers + [Armed(key)];
      cache := cache[key := Entry(data, timer)];
    }

    /** A timer's time is up: its callback starts and waits for the mutex. */
    method Expire(t: nat)
      requires Valid() && t < |timers| && timers[t].Armed?
      modifies this
      ensures View() == Apply(old(View()), Event<V>.Fire(t))
      ensures Valid()
    {
      StepKeepsTimers(View(), Event<V>.Fire(t));
      timers := timers[t := Fired(timers[t].key)];
    }

    /** The callback holds the mutex: it deletes the key, whoever's entry stands there. */
    method RunCallback(t: nat)
      requires Valid() && t < |timers| && timers[t].Fired?
      modifies this
      ensures View() == Apply(old(View()), Event<V>.Callback(t))
      ensures Valid()
    {
      StepKeepsTimers(View(), Event<V>.Callback(t));
      cache := cache - {timers[t].key};
      timers := timers[t := Done(timers[t].key)];
    }
  }
}
