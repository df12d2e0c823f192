/** The decode worker as interleaved steps of one controlling thread and the threads it starts.
    A step is one section under the lock, or one stretch outside it. */
module WorkerProtocol {
  import opened Options

  const DEPTH := 8
  const CHUNK := 1024

  type Sample = (real, real)
  type Chunk = seq<Sample>

  /** The fields under the lock. A slot keeps what was last copied into it and its length. */
  datatype Shared = Shared(slots: seq<Chunk>, lens: seq<int>, read: int, write: int, count: int,
                           stop: bool, active: bool, birdie: bool, running: bool, thread: nat, decoder: Option<nat>)

  // ---------------------------------------------------------------- sections under the lock

  predicate Shaped(w: Shared) {
    && |w.slots| == DEPTH && |w.lens| == DEPTH && 0 <= w.read < DEPTH && 0 <= w.write < DEPTH
    && forall i :: 0 <= i < DEPTH ==> |w.slots[i]| == CHUNK && 0 <= w.lens[i] <= CHUNK
  }

  function Truncated(samples: Chunk): (chunk: Chunk)
    ensures |chunk| <= CHUNK
  {
    if |samples| > CHUNK then samples[..CHUNK] else samples
  }

  predicate Accepts(w: Shared, samples: Chunk) {
    samples != [] && w.active && !w.birdie && w.count < DEPTH
  }

  /** `decode_worker_submit_iq` where it accepts: the samples overwrite the front of a slot. */
  function Enqueued(w: Shared, samples: Chunk): (v: Shared)
    requires Shaped(w)
    ensures Shaped(v)
  {
    var chunk := Truncated(samples);
    w.(slots := w.slots[w.write := chunk + w.slots[w.write][|chunk|..]], lens := w.lens[w.write := |chunk|],
       write := (w.write + 1) % DEPTH, count := w.count + 1)
  }

  /** The chunk in slot `i`. */
  function ChunkIn(w: Shared, i: int): Chunk
    requires Shaped(w) && 0 <= i < DEPTH
  {
    w.slots[i][..w.lens[i]]
  }

  function Dequeued(w: Shared): (v: Shared)
    requires Shaped(w)
    ensures Shaped(v)
  {
    w.(read := (w.read + 1) % DEPTH, count := w.count - 1)
  }

  /** The first section of `decode_worker_stop`. */
  function Stopped(w: Shared): Shared {
    w.(stop := true, active := false, running := false)
  }

  /** The last section of `decode_worker_stop`. */
  function Cleared(w: Shared): Shared {
    w.(decoder := None, stop := false, birdie := false, write := 0, read := 0, count := 0, thread := 0)
  }

  /** The section of `decode_worker_start`, when decoder `d` and thread `t` could be made. */
  function Started(w: Shared, d: nat, t: nat): Shared {
    w.(decoder := Some(d), birdie := false, stop := false, active := true, write := 0, read := 0, count := 0,
       running := true, thread := t)
  }

  /** The same when the thread could not be created: the decoder is destroyed again. */
  function NotStarted(w: Shared): Shared {
    w.(decoder := None, birdie := false, stop := false, active := false, write := 0, read := 0, count := 0, running := false)
  }

  function Birdie(w: Shared): Shared {
    w.(birdie := true, active := false)
  }

  // ---------------------------------------------------------------- the system

  /** Where the controller is: between calls, waiting in a join, or about to enter the last section
      of a stop or that of a start. */
  datatype Control = Idle | Joining(t: nat, restart: bool) | Clearing(restart: bool) | Creating

  /** Where a thread is: at the top of its loop, holding a chunk outside the lock, using the
      decoder on it, about to report, or gone. */
  datatype Place = Top | Holding(chunk: Chunk) | Using(chunk: Chunk, d: nat) | Reporting | Gone

  datatype System = System(w: Shared, control: Control, threads: seq<Place>, joined: set<nat>, decoders: nat, alive: set<nat>,
                           accepted: seq<Chunk>, taken: seq<Chunk>, handled: seq<Chunk>)

  datatype Event =
    | Submit(samples: Chunk) | StopBegins(restart: bool) | Joins | Clears | Creates(decoderMade: bool, threadMade: bool)
    | Takes(t: nat) | Checks(t: nat) | Handles(t: nat) | Reports(t: nat, birdie: bool)

  /** What an event makes of the system, none if it cannot happen there. */
  function Next(s: System, e: Event): Option<System>
    requires Shaped(s.w)
  {
    match e
    case Submit(samples) =>
      if s.control != Idle then None
      else if !Accepts(s.w, samples) then Some(s)
      else Some(s.(w := Enqueued(s.w, samples), accepted := s.accepted + [Truncated(samples)]))
    case StopBegins(restart) =>
      if s.control != Idle then None
      else Some(s.(w := Stopped(s.w), control := if s.w.running then Joining(s.w.thread, restart) else Clearing(restart)))
    case Joins =>
      if s.control.Joining? && s.control.t < |s.threads| && s.threads[s.control.t] == Gone
      then Some(s.(control := Clearing(s.control.restart), joined := s.joined + {s.control.t})) else None
    case Clears =>
      if !s.control.Clearing? then None
      else Some(s.(w := Cleared(s.w), control := if s.control.restart then Creating else Idle,
                   alive := if s.w.decoder.Some? then s.alive - {s.w.decoder.value} else s.alive,
                   accepted := [], taken := [], handled := []))
    case Creates(decoderMade, threadMade) =>
      if s.control != Creating then None
      else if !decoderMade then Some(s.(control := Idle))
      else if !threadMade then Some(s.(w := NotStarted(s.w), control := Idle, decoders := s.decoders + 1))
      else Some(s.(w := Started(s.w, s.decoders, |s.threads|), control := Idle, threads := s.threads + [Top],
                   decoders := s.decoders + 1, alive := s.alive + {s.decoders}))
    case Takes(t) =>
      if !(t < |s.threads| && s.threads[t] == Top) then None
      else if s.w.stop then Some(s.(threads := s.threads[t := Gone]))
      else if !s.w.active || s.w.decoder.None? then Some(s)
      else if s.w.count == 0 then None
      else
        var chunk := ChunkIn(s.w, s.w.read);
        Some(s.(w := Dequeued(s.w), threads := s.threads[t := Holding(chunk)], taken := s.taken + [chunk]))
    case Checks(t) =>
      if !(t < |s.threads| && s.threads[t].Holding?) then None
      else if s.threads[t].chunk == [] || s.w.decoder.None? then Some(s.(threads := s.threads[t := Top]))
      else Some(s.(threads := s.threads[t := Using(s.threads[t].chunk, s.w.decoder.value)]))
    case Handles(t) =>
      if !(t < |s.threads| && s.threads[t].Using?) then None
      else Some(s.(threads := s.threads[t := Reporting], handled := s.handled + [s.threads[t].chunk]))
    case Reports(t, birdie) =>
      if !(t < |s.threads| && s.threads[t] == Reporting) then None
      else Some(s.(threads := s.threads[t := Top], w := if birdie then Birdie(s.w) else s.w))
  }

  // ---------------------------------------------------------------- the queue

  /** The slot `k` places behind slot `i`. */
  function Slot(i: int, k: nat): (slot: int)
    ensures 0 <= slot < DEPTH
  {
    (i + k) % DEPTH
  }

  /** The `n` chunks waiting from slot `i` on, round the ring. */
  function Waiting(w: Shared, i: int, n: nat): (chunks: seq<Chunk>)
    requires Shaped(w) && 0 <= i < DEPTH
    ensures |chunks| == n
    decreases n
  {
    if n == 0 then [] else [ChunkIn(w, i)] + Waiting(w, (i + 1) % DEPTH, n - 1)
  }

  /** Positions run round the ring, and what was accepted is what was taken and what waits. */
  ghost predicate QueueOk(w: Shared, accepted: seq<Chunk>, taken: seq<Chunk>)
    requires Shaped(w)
  {
    && 0 <= w.count <= DEPTH && w.write == Slot(w.read, w.count)
    && accepted == taken + Waiting(w, w.read, w.count)
    && forall k :: 0 <= k < |accepted| ==> accepted[k] != []
  }

  lemma SlotNext(i: int, k: nat)
    requires 0 <= i < DEPTH
    ensures Slot((i + 1) % DEPTH, k) == Slot(i, k + 1) && Slot(i, 0) == i
  {
    var next := (i + 1) % DEPTH;
    assert next == i + 1 || next == i + 1 - DEPTH;
    RoundOnce(i + 1 + k);
  }

  lemma RoundOnce(n: int)
    ensures (n - DEPTH) % DEPTH == n % DEPTH
  {
  }

  lemma {:induction false} WaitingSame(w: Shared, v: Shared, i: int, n: nat)
    requires Shaped(w) && Shaped(v) && 0 <= i < DEPTH
    requires forall k :: 0 <= k < n ==> ChunkIn(w, Slot(i, k)) == ChunkIn(v, Slot(i, k))
    ensures Waiting(v, i, n) == Waiting(w, i, n)
    decreases n
  {
    hide ChunkIn, Shaped, Slot;
    if 0 < n {
      SlotNext(i, 0);
      assert ChunkIn(w, Slot(i, 0)) == ChunkIn(v, Slot(i, 0));
      var j := (i + 1) % DEPTH;
      forall k | 0 <= k < n - 1 ensures ChunkIn(w, Slot(j, k)) == ChunkIn(v, Slot(j, k)) {
        SlotNext(i, k);
        assert ChunkIn(w, Slot(i, k + 1)) == ChunkIn(v, Slot(i, k + 1));
      }
      WaitingSame(w, v, j, n - 1);
    }
  }

  lemma {:induction false} WaitingSnoc(w: Shared, i: int, n: nat)
    requires Shaped(w) && 0 <= i < DEPTH
    ensures Waiting(w, i, n + 1) == Waiting(w, i, n) + [ChunkIn(w, Slot(i, n))]
    decreases n
  {
    hide ChunkIn, Shaped, Slot;
    if 0 < n {
      SlotNext(i, n - 1);
      WaitingSnoc(w, (i + 1) % DEPTH, n - 1);
      assert [ChunkIn(w, i)] + (Waiting(w, (i + 1) % DEPTH, n - 1) + [ChunkIn(w, Slot(i, n))])
          == [ChunkIn(w, i)] + Waiting(w, (i + 1) % DEPTH, n - 1) + [ChunkIn(w, Slot(i, n))];
    } else {
      SlotNext(i, 0);
    }
  }

  lemma SlotFilled(w: Shared, samples: Chunk, i: int)
    requires Shaped(w) && 0 <= i < DEPTH
    ensures ChunkIn(Enqueued(w, samples), i) == if i == w.write then Truncated(samples) else ChunkIn(w, i)
  {
    var chunk := Truncated(samples);
    assert (chunk + w.slots[w.write][|chunk|..])[..|chunk|] == chunk;
  }

  lemma NotYetWritten(read: int, count: int, k: nat)
    requires 0 <= read < DEPTH && k < count < DEPTH
    ensures Slot(read, k) != Slot(read, count)
  {
  }

  lemma Positions(w: Shared)
    requires Shaped(w)
    ensures 0 <= w.read < DEPTH && 0 <= w.write < DEPTH
  {
  }

  lemma EnqueuedCounts(w: Shared, samples: Chunk)
    requires Shaped(w) && 0 <= w.count && w.write == Slot(w.read, w.count)
    ensures var v := Enqueued(w, samples);
            v.read == w.read && v.count == w.count + 1 && v.write == Slot(v.read, v.count)
  {
  }

  lemma WaitingGrows(w: Shared, samples: Chunk)
    requires Shaped(w) && 0 <= w.count < DEPTH && w.write == Slot(w.read, w.count)
    ensures 0 <= w.read
    ensures Waiting(Enqueued(w, samples), w.read, w.count + 1) == Waiting(w, w.read, w.count) + [Truncated(samples)]
  {
    hide ChunkIn, Shaped, Enqueued, Slot, Truncated;
    var v := Enqueued(w, samples);
    Positions(w);
    forall k | 0 <= k < w.count ensures ChunkIn(w, Slot(w.read, k)) == ChunkIn(v, Slot(w.read, k)) {
      NotYetWritten(w.read, w.count, k);
      SlotFilled(w, samples, Slot(w.read, k));
    }
    WaitingSame(w, v, w.read, w.count);
    WaitingSnoc(v, w.read, w.count);
    SlotFilled(w, samples, w.write);
  }

  /** A chunk that fits is put behind those waiting, and none of them is overwritten. */
  lemma SubmitKeepsQueue(w: Shared, accepted: seq<Chunk>, taken: seq<Chunk>, samples: Chunk)
    requires Shaped(w) && QueueOk(w, accepted, taken) && Accepts(w, samples)
    ensures QueueOk(Enqueued(w, samples), accepted + [Truncated(samples)], taken)
  {
    hide ChunkIn, Shaped, Enqueued, Slot, Waiting;
    Positions(w);
    EnqueuedCounts(w, samples);
    WaitingGrows(w, samples);
    var more := [Truncated(samples)];
    assert taken + (Waiting(w, w.read, w.count) + more) == accepted + more;
    assert more[0] != [];
  }

  lemma SlotsKept(w: Shared, n: nat)
    requires Shaped(w) && 0 < w.count && w.write == Slot(w.read, w.count)
    ensures Waiting(Dequeued(w), Dequeued(w).read, n) == Waiting(w, (w.read + 1) % DEPTH, n)
    ensures Dequeued(w).write == Slot(Dequeued(w).read, Dequeued(w).count)
  {
    var v := Dequeued(w);
    forall k | 0 <= k < n ensures ChunkIn(w, Slot(v.read, k)) == ChunkIn(v, Slot(v.read, k)) {
    }
    WaitingSame(w, v, v.read, n);
  }

  /** Taking takes the oldest chunk that was accepted and not yet taken. */
  lemma TakeKeepsQueue(w: Shared, accepted: seq<Chunk>, taken: seq<Chunk>)
    requires Shaped(w) && QueueOk(w, accepted, taken) && 0 < w.count
    ensures var chunk := ChunkIn(w, w.read); chunk != [] && QueueOk(Dequeued(w), accepted, taken + [chunk])
  {
    hide ChunkIn, Shaped, Slot;
    Positions(w);
    var chunk, rest := ChunkIn(w, w.read), Waiting(w, (w.read + 1) % DEPTH, w.count - 1);
    SlotsKept(w, w.count - 1);
    assert taken + ([chunk] + rest) == taken + [chunk] + rest;
    assert accepted[|taken|] == chunk;
  }

  // ---------------------------------------------------------------- what holds in every state

  /** The thread that is running or being joined. */
  function Current(s: System): Option<nat> {
    if s.w.running then Some(s.w.thread) else if s.control.Joining? then Some(s.control.t) else None
  }

  /** Every other thread is gone and has been joined, this one not yet. */
  ghost predicate ThreadsOk(s: System) {
    && (Current(s).Some? ==> Current(s).value < |s.threads|)
    && (forall t :: 0 <= t < |s.threads| ==> (t in s.joined <==> Current(s) != Some(t)))
    && (forall t :: 0 <= t < |s.threads| && t in s.joined ==> s.threads[t] == Gone)
    && (forall t :: t in s.joined ==> t < |s.threads|)
  }

  ghost predicate FlagsOk(s: System) {
    && (s.w.running ==> s.control == Idle && !s.w.stop && Current(s).value < |s.threads| && s.threads[s.w.thread] != Gone)
    && (s.control.Joining? ==> s.w.stop && s.w.decoder.Some?)
    && (s.w.running ==> s.w.decoder.Some?)
    && (s.w.active ==> s.w.running)
    && (s.control == Creating ==> s.w.count == 0 && s.w.decoder.None?)
  }

  /** The decoders in existence: the worker's own, if it has one. */
  ghost predicate DecodersOk(s: System) {
    && s.alive == (if s.w.decoder.Some? then {s.w.decoder.value} else {})
    && (forall d :: d in s.alive ==> d < s.decoders)
  }

  /** The chunk a thread has taken and not yet handled. */
  function InHand(p: Place): seq<Chunk> {
    match p
    case Holding(chunk) => [chunk]
    case Using(chunk, d) => [chunk]
    case _ => []
  }

  function CurrentPlace(s: System): Place {
    if Current(s).Some? && Current(s).value < |s.threads| then s.threads[Current(s).value] else Gone
  }

  ghost predicate FlowOk(s: System) {
    && s.taken == s.handled + InHand(CurrentPlace(s))
    && (CurrentPlace(s).Holding? ==> CurrentPlace(s).chunk != [])
    && (CurrentPlace(s).Using? ==> s.w.decoder == Some(CurrentPlace(s).d))
  }

  ghost predicate Inv(s: System) {
    Shaped(s.w) && QueueOk(s.w, s.accepted, s.taken) && ThreadsOk(s) && FlagsOk(s) && DecodersOk(s) && FlowOk(s)
  }

  /** A worker that has never been started; what its slots hold does not matter. */
  ghost predicate IsInit(s: System) {
    && Shaped(s.w) && s.w.read == 0 && s.w.write == 0 && s.w.count == 0 && s.w.decoder == None
    && !s.w.stop && !s.w.active && !s.w.birdie && !s.w.running
    && s.control == Idle && s.threads == [] && s.joined == {} && s.alive == {}
    && s.accepted == [] && s.taken == [] && s.handled == []
  }

  lemma InitHolds(s: System)
    requires IsInit(s)
    ensures Inv(s)
  {
  }

  lemma SubmitKeeps(s: System, samples: Chunk)
    requires Inv(s) && Next(s, Submit(samples)).Some?
    ensures Inv(Next(s, Submit(samples)).value)
  {
    hide QueueOk, Truncated, ChunkIn, Shaped;
    if Accepts(s.w, samples) {
      SubmitKeepsQueue(s.w, s.accepted, s.taken, samples);
    }
  }

  lemma StopKeeps(s: System, restart: bool)
    requires Inv(s) && Next(s, StopBegins(restart)).Some?
    ensures Inv(Next(s, StopBegins(restart)).value)
  {
    hide ChunkIn;
    WaitingOfSame(s.w, Stopped(s.w));
  }

  lemma WaitingOfSame(w: Shared, v: Shared)
    requires Shaped(w) && 0 <= w.count && v.slots == w.slots && v.lens == w.lens && v.read == w.read && v.write == w.write && v.count == w.count
    ensures Shaped(v) && Waiting(v, v.read, v.count) == Waiting(w, w.read, w.count)
  {
    WaitingSame(w, v, w.read, w.count);
  }

  lemma JoinKeeps(s: System)
    requires Inv(s) && Next(s, Joins).Some?
    ensures Inv(Next(s, Joins).value)
  {
    hide QueueOk, Shaped;
  }

  lemma ClearKeeps(s: System)
    requires Inv(s) && Next(s, Clears).Some?
    ensures Inv(Next(s, Clears).value)
  {
  }

  lemma CreateKeeps(s: System, decoderMade: bool, threadMade: bool)
    requires Inv(s) && Next(s, Creates(decoderMade, threadMade)).Some?
    ensures Inv(Next(s, Creates(decoderMade, threadMade)).value)
  {
  }

  lemma TakeKeeps(s: System, t: nat)
    requires Inv(s) && Next(s, Takes(t)).Some?
    ensures Inv(Next(s, Takes(t)).value)
  {
    hide QueueOk, ChunkIn, Shaped;
    if !s.w.stop && s.w.active && s.w.decoder.Some? {
      CountSign(s.w, s.accepted, s.taken);
      TakeKeepsQueue(s.w, s.accepted, s.taken);
    }
  }

  lemma CountSign(w: Shared, accepted: seq<Chunk>, taken: seq<Chunk>)
    requires Shaped(w) && QueueOk(w, accepted, taken)
    ensures 0 <= w.count
  {
  }

  lemma CheckKeeps(s: System, t: nat)
    requires Inv(s) && Next(s, Checks(t)).Some?
    ensures Inv(Next(s, Checks(t)).value)
  {
    hide QueueOk, Shaped;
  }

  lemma HandleKeeps(s: System, t: nat)
    requires Inv(s) && Next(s, Handles(t)).Some?
    ensures Inv(Next(s, Handles(t)).value)
  {
    hide QueueOk, Shaped;
  }

  lemma ReportKeeps(s: System, t: nat, birdie: bool)
    requires Inv(s) && Next(s, Reports(t, birdie)).Some?
    ensures Inv(Next(s, Reports(t, birdie)).value)
  {
    WaitingOfSame(s.w, Birdie(s.w));
  }

  /** Every event keeps the invariant. */
  lemma NextKeeps(s: System, e: Event)
    requires Inv(s) && Next(s, e).Some?
    ensures Inv(Next(s, e).value)
  {
    hide *;
    match e
    case Submit(samples) => SubmitKeeps(s, samples);
    case StopBegins(restart) => StopKeeps(s, restart);
    case Joins => JoinKeeps(s);
    case Clears => ClearKeeps(s);
    case Creates(decoderMade, threadMade) => CreateKeeps(s, decoderMade, threadMade);
    case Takes(t) => TakeKeeps(s, t);
    case Checks(t) => CheckKeeps(s, t);
    case Handles(t) => HandleKeeps(s, t);
    case Reports(t, birdie) => ReportKeeps(s, t, birdie);
  }

  // ---------------------------------------------------------------- whole runs

  /** Events from the initial state on, each possible where it happens. */
  ghost predicate IsRun(states: seq<System>, events: seq<Event>) {
    && |states| == |events| + 1 && IsInit(states[0])
    && forall i :: 0 <= i < |events| ==> Shaped(states[i].w) && Next(states[i], events[i]) == Some(states[i + 1])
  }

  lemma {:induction false} RunKeeps(states: seq<System>, events: seq<Event>, n: nat)
    requires IsRun(states, events) && n <= |events|
    ensures Inv(states[n])
  {
    hide Inv, Next, IsInit, Shaped;
    if n == 0 {
      InitHolds(states[0]);
    } else {
      RunKeeps(states, events, n - 1);
      assert Next(states[n - 1], events[n - 1]) == Some(states[n - 1 + 1]);
      NextKeeps(states[n - 1], events[n - 1]);
    }
  }

  /** In every state of every interleaving: ring arithmetic, and first in, first out, at most once. */
  lemma QueueIsFifo(states: seq<System>, events: seq<Event>, n: nat)
    requires IsRun(states, events) && n <= |events|
    ensures var s := states[n];
            && 0 <= s.w.count <= DEPTH && s.w.write == (s.w.read + s.w.count) % DEPTH
            && s.handled <= s.taken <= s.accepted && |s.taken| <= |s.handled| + 1
            && |s.accepted| == |s.taken| + s.w.count
  {
    hide IsRun, IsInit, Shaped, ChunkIn;
    RunKeeps(states, events, n);
  }

  /** As long as a thread has not gone its decoder exists, outside the lock as well; no chunk it
      holds is lost. */
  lemma DecoderOutlivesUse(states: seq<System>, events: seq<Event>, n: nat, t: nat)
    requires IsRun(states, events) && n <= |events| && t < |states[n].threads|
    ensures Shaped(states[n].w)
    ensures var s := states[n];
            && (s.threads[t] != Gone ==> s.w.decoder.Some? && s.w.decoder.value in s.alive)
            && (s.threads[t].Using? ==> s.threads[t].d in s.alive && s.w.decoder == Some(s.threads[t].d))
            && (s.threads[t].Holding? ==> Next(s, Checks(t)).value.threads[t].Using?)
            && (s.control.Clearing? ==> s.threads[t] == Gone)
  {
    hide IsRun, IsInit, QueueOk;
    RunKeeps(states, events, n);
  }

  /** No thread is joined twice, and between calls every thread but the running one has been. */
  lemma JoinedOnce(states: seq<System>, events: seq<Event>, n: nat)
    requires IsRun(states, events) && n <= |events|
    ensures var s := states[n];
            && (n < |events| && events[n] == Joins ==>
                  s.control.Joining? && s.control.t !in s.joined && s.control.t in states[n + 1].joined)
            && (forall t :: 0 <= t < |s.threads| && s.control == Idle && !(s.w.running && s.w.thread == t) ==> t in s.joined)
  {
    hide IsInit, QueueOk;
    RunKeeps(states, events, n);
    if n < |events| {
      assert Next(states[n], events[n]) == Some(states[n + 1]);
    }
  }

  /** How many steps a thread has left once it has been told to stop. */
  function StepsLeft(p: Place): nat {
    match p
    case Gone => 0
    case Top => 1
    case Reporting => 2
    case Using(chunk, d) => 3
    case Holding(chunk) => 4
  }

  function ThreadStep(p: Place, t: nat, birdie: bool): Event {
    match p
    case Top => Takes(t)
    case Holding(chunk) => Checks(t)
    case Using(chunk, d) => Handles(t)
    case _ => Reports(t, birdie)
  }

  /** A join cannot hang: the joined thread is gone, or its next step is possible, takes it nearer
      to its end, and leaves the controller waiting for it. */
  lemma JoinEnds(states: seq<System>, events: seq<Event>, n: nat, birdie: bool)
    requires IsRun(states, events) && n <= |events| && states[n].control.Joining?
    ensures Shaped(states[n].w)
    ensures var s, t := states[n], states[n].control.t;
            && t < |s.threads|
            && (s.threads[t] == Gone ==> Next(s, Joins).Some?)
            && (s.threads[t] != Gone ==>
                  var next := Next(s, ThreadStep(s.threads[t], t, birdie));
                  next.Some? && next.value.control == s.control && StepsLeft(next.value.threads[t]) < StepsLeft(s.threads[t]))
  {
    hide IsRun, IsInit, QueueOk;
    RunKeeps(states, events, n);
  }
}
