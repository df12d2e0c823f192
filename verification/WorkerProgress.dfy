/** What the decode worker gets done: it takes in every chunk it has room for as long as it is active,
    and what it has taken in is handled, in order, by steps that are always possible. */
module WorkerProgress {
  import opened Options
  import opened WorkerProtocol

  /** In every run, a chunk is taken in exactly if it is not empty, the worker is active and has seen no
      steady carrier, and fewer than eight chunks wait; of a longer one, the first 1024 samples. */
  lemma SubmitAccepts(states: seq<System>, events: seq<Event>, n: nat)
    requires IsRun(states, events) && n < |events| && events[n].Submit?
    ensures var s, samples := states[n], events[n].samples;
            var first := if |samples| <= 1024 then samples else samples[..1024];
            states[n + 1].accepted ==
              if samples != [] && s.w.active && !s.w.birdie && |s.accepted| - |s.taken| < 8 then s.accepted + [first] else s.accepted
    ensures states[n + 1].taken == states[n].taken && states[n + 1].handled == states[n].handled
  {
    hide IsInit, ChunkIn, Shaped, Enqueued;
    assert Next(states[n], events[n]) == Some(states[n + 1]);
    QueueIsFifo(states, events, n);
  }

  /** A start that succeeds leaves an active worker with an empty queue and a thread of its own. */
  lemma StartWorks(states: seq<System>, events: seq<Event>, n: nat)
    requires IsRun(states, events) && n < |events| && events[n] == Creates(true, true)
    ensures var s := states[n + 1];
            && s.w.active && !s.w.birdie && s.w.running && s.control == Idle
            && s.accepted == [] && s.taken == [] && s.handled == []
            && s.w.thread == |states[n].threads| && s.threads == states[n].threads + [Top]
  {
    hide IsInit, ChunkIn, Shaped;
    RunKeeps(states, events, n);
    RunKeeps(states, events, n + 1);
    assert Next(states[n], events[n]) == Some(states[n + 1]);
    NothingAccepted(states[n], states, events, n);
  }

  lemma NothingAccepted(s: System, states: seq<System>, events: seq<Event>, n: nat)
    requires IsRun(states, events) && n <= |events| && s == states[n] && s.control == Creating
    ensures s.accepted == [] && s.taken == [] && s.handled == []
    decreases n
  {
    if 0 < n {
      assert Next(states[n - 1], events[n - 1]) == Some(states[n - 1 + 1]);
      if states[n - 1].control == Creating {
        NothingAccepted(states[n - 1], states, events, n - 1);
        hide ChunkIn, Shaped, IsInit;
        RunKeeps(states, events, n - 1);
      }
    }
  }

  /** An active worker stays active until a stop begins or a steady carrier is reported, and both end it. */
  lemma ActiveUntil(states: seq<System>, events: seq<Event>, n: nat)
    requires IsRun(states, events) && n < |events| && states[n].w.active
    ensures states[n + 1].w.active <==> !events[n].StopBegins? && !(events[n].Reports? && events[n].birdie)
  {
    hide IsInit, ChunkIn, Shaped, Truncated;
    assert Next(states[n], events[n]) == Some(states[n + 1]);
    RunKeeps(states, events, n);
  }

  /** How many steps a thread is away from having handled a chunk. */
  function StepsToHandle(p: Place): nat {
    match p
    case Using(chunk, d) => 1
    case Holding(chunk) => 2
    case Top => 3
    case Reporting => 4
    case Gone => 5
  }

  /** While the worker is active, a chunk that was taken in does not stay: the next step of its thread is
      possible, and either handles the oldest chunk that is left, or comes nearer to it. */
  lemma ChunksProgress(states: seq<System>, events: seq<Event>, n: nat)
    requires IsRun(states, events) && n <= |events| && states[n].w.active
    requires |states[n].handled| < |states[n].accepted|
    ensures Shaped(states[n].w)
    ensures var s, t := states[n], states[n].w.thread;
            && t < |s.threads|
            && var next := Next(s, ThreadStep(s.threads[t], t, false));
            && next.Some? && next.value.w.active && next.value.accepted == s.accepted
            && if s.threads[t].Using? then next.value.handled == s.handled + [s.accepted[|s.handled|]]
               else next.value.handled == s.handled && t < |next.value.threads|
                    && StepsToHandle(next.value.threads[t]) < StepsToHandle(s.threads[t])
  {
    hide IsInit, ChunkIn;
    RunKeeps(states, events, n);
    QueueIsFifo(states, events, n);
  }
}
