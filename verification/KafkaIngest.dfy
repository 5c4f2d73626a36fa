/**
  The Kafka to event-store consumer of `cache-indexer/src/kafka_ingest.rs`: batch, flush, then commit
  asynchronously. One partition is a log; the process may die at any point, and a restart resumes from
  whatever offset the broker holds. An event is known by its offset.
 */
module KafkaIngest {

  const BATCH_SIZE: nat := 50
  const MAX_COMMIT_AGE: nat := 30

  datatype Message<E> = Event(event: E) | Unparseable | NoPayload

  type Log<E> = seq<Message<E>>

  datatype Poll = Received | Error | Timeout

  /** A failing insert may still store any part of the batch. */
  datatype Flush = Inserted | Failed(stored: set<nat>)

  /** One turn of the loop: what the poll gave, the clock, and how a flush and a commit would go. */
  datatype Turn = Turn(poll: Poll, now: int, flush: Flush, commitAccepted: bool)

  /** The broker and the store, which outlive the process, then the process itself. */
  datatype State = State(
    committed: nat, inFlight: set<nat>, store: seq<nat>, restarts: nat,
    running: bool, position: nat, batch: seq<nat>, lastCommit: int)

  datatype Step =
    | Loop(turn: Turn)
    | CommitLands(offset: nat)
    | CommitLost(offset: nat)
    | Crash
    | Restart(now: int)

  // ----- one turn of the loop -----

  function Kept(batch: seq<nat>, keep: set<nat>): seq<nat> {
    if batch == [] then []
    else if batch[0] in keep then [batch[0]] + Kept(batch[1..], keep)
    else Kept(batch[1..], keep)
  }

  /** `flush_batch`, then clear, then commit the position; any error ends the process. */
  function FlushAndCommit(s: State, t: Turn): State {
    match t.flush
    case Failed(keep) => s.(store := s.store + Kept(s.batch, keep), running := false)
    case Inserted =>
      var flushed := s.(store := s.store + s.batch, batch := []);
      if t.commitAccepted then flushed.(inFlight := s.inFlight + {s.position}, lastCommit := t.now)
      else flushed.(running := false)
  }

  function Polled<E>(log: Log<E>, s: State, t: Turn): State {
    match t.poll
    case Received =>
      if s.position >= |log| then s
      else
        var read := s.(position := s.position + 1);
        if !log[s.position].Event? then read
        else
          var pushed := read.(batch := s.batch + [s.position]);
          if |pushed.batch| >= BATCH_SIZE then FlushAndCommit(pushed, t) else pushed
    case Error => s
    case Timeout => if s.batch != [] then FlushAndCommit(s, t) else s
  }

  function Turned<E>(log: Log<E>, s: State, t: Turn): State {
    var polled := Polled(log, s, t);
    if polled.running && t.now - polled.lastCommit > MAX_COMMIT_AGE && polled.batch != [] then FlushAndCommit(polled, t)
    else polled
  }

  predicate IsEvent<E>(log: Log<E>, o: nat) { o < |log| && log[o].Event? }

  predicate Healthy(t: Turn) { t.flush.Inserted? && t.commitAccepted }

  /** The events waiting once the poll of this turn is done. */
  function Waiting<E>(log: Log<E>, s: State, t: Turn): seq<nat> {
    if t.poll.Received? && IsEvent(log, s.position) then s.batch + [s.position] else s.batch
  }

  /** A turn must store what waits: it is a full batch, the poll ran dry, or the last commit is too old. */
  predicate Due<E>(log: Log<E>, s: State, t: Turn) {
    var waiting := Waiting(log, s, t);
    && waiting != []
    && (|| (waiting != s.batch && |waiting| >= 50)
        || t.poll.Timeout?
        || t.now - s.lastCommit > 30)
  }

  /**
    What every turn does, whatever the batch before it: it stores exactly when storing is due; a turn that
    stores and stays up hands the position after it, and nothing else, to the broker; every other turn
    hands over nothing.
   */
  lemma TurnCommits<E>(log: Log<E>, s: State, t: Turn)
    requires s.running
    ensures var r := Turned(log, s, t);
            && r.position == s.position + (if t.poll.Received? && s.position < |log| then 1 else 0)
            && (Due(log, s, t) && t.flush.Inserted? ==> r.store == s.store + Waiting(log, s, t) && r.batch == [])
            && (Due(log, s, t) && t.flush.Failed? ==> r.store == s.store + Kept(Waiting(log, s, t), t.flush.stored) && r.batch == Waiting(log, s, t))
            && (!Due(log, s, t) ==> r.store == s.store && r.batch == Waiting(log, s, t) && r.running)
            && (r.running <==> Due(log, s, t) ==> Healthy(t))
            && (r.running && |r.store| > |s.store| <==> Due(log, s, t) && Healthy(t))
            && r.inFlight == s.inFlight + (if r.running && |r.store| > |s.store| then {r.position} else {})
            && r.lastCommit == (if r.running && |r.store| > |s.store| then t.now else s.lastCommit)
            && r.committed == s.committed && r.restarts == s.restarts
  {
    var polled := Polled(log, s, t);
    assert |s.batch + [s.position]| == |s.batch| + 1;
  }

  function Session<E>(log: Log<E>, s: State, turns: seq<Turn>): State {
    if turns == [] then s
    else
      var before := Session(log, s, turns[..|turns| - 1]);
      if before.running then Turned(log, before, turns[|turns| - 1]) else before
  }

  lemma {:induction false} SessionStops<E>(log: Log<E>, s: State, turns: seq<Turn>, n: nat)
    requires n <= |turns| && !Session(log, s, turns[..n]).running
    ensures Session(log, s, turns) == Session(log, s, turns[..n])
    decreases |turns|
  {
    if n == |turns| {
      assert turns[..n] == turns;
    } else {
      var front := turns[..|turns| - 1];
      assert front[..n] == turns[..n];
      SessionStops(log, s, front, n);
    }
  }

  /** `run`: the loop over its local batch and commit time computes `Session`. */
  method Run<E>(log: Log<E>, s: State, turns: seq<Turn>) returns (r: State)
    requires s.running
    ensures r == Session(log, s, turns)
  {
    hide Turned;
    var batch: seq<nat>, lastCommit: int, position: nat := s.batch, s.lastCommit, s.position;
    var store: seq<nat>, inFlight: set<nat> := s.store, s.inFlight;
    for i := 0 to |turns|
      invariant Session(log, s, turns[..i]) ==
        s.(batch := batch, lastCommit := lastCommit, position := position, store := store, inFlight := inFlight)
    {
      ghost var here := Session(log, s, turns[..i]);
      assert turns[..i + 1][..i] == turns[..i];
      assert Session(log, s, turns[..i + 1]) == Turned(log, here, turns[i]);
      TurnCommits(log, here, turns[i]);
      var t := turns[i];
      var due := false;
      match t.poll {
        case Received =>
          if position < |log| {
            if log[position].Event? {
              batch := batch + [position];
              due := |batch| >= BATCH_SIZE;
            }
            position := position + 1;
          }
        case Error =>
        case Timeout =>
          due := batch != [];
      }
      if due || (t.now - lastCommit > MAX_COMMIT_AGE && batch != []) {
        var whole;
        store, whole := FlushBatch(store, batch, t.flush);
        if whole {
          batch := [];
        }
        if !whole || !t.commitAccepted {
          SessionStops(log, s, turns, i + 1);
          return s.(batch := batch, lastCommit := lastCommit, position := position, store := store,
                    inFlight := inFlight, running := false);
        }
        inFlight := inFlight + {position};
        lastCommit := t.now;
      }
    }
    assert turns[..|turns|] == turns;
    return s.(batch := batch, lastCommit := lastCommit, position := position, store := store, inFlight := inFlight);
  }

  method FlushBatch(store: seq<nat>, batch: seq<nat>, outcome: Flush) returns (store': seq<nat>, whole: bool)
    ensures whole == outcome.Inserted?
    ensures store' == store + if whole then batch else Kept(batch, outcome.stored)
  {
    match outcome
    case Inserted =>
      return store + batch, true;
    case Failed(keep) =>
      store' := store;
      for i := 0 to |batch|
        invariant store' + Kept(batch[i..], keep) == store + Kept(batch, keep)
      {
        assert batch[i..][1..] == batch[i + 1..];
        if batch[i] in keep {
          store' := store' + [batch[i]];
        }
      }
      return store', false;
  }

  // ----- whole runs -----

  function Next<E>(log: Log<E>, s: State, step: Step): State {
    match step
    case Loop(t) => if s.running then Turned(log, s, t) else s
    case CommitLands(o) => if o in s.inFlight then s.(committed := o, inFlight := s.inFlight - {o}) else s
    case CommitLost(o) => s.(inFlight := s.inFlight - {o})
    case Crash => s.(running := false)
    case Restart(now) =>
      if s.running then s
      else s.(running := true, position := s.committed, batch := [], lastCommit := now, restarts := s.restarts + 1)
  }

  function Runs<E>(log: Log<E>, s: State, steps: seq<Step>): State {
    if steps == [] then s else Next(log, Runs(log, s, steps[..|steps| - 1]), steps[|steps| - 1])
  }

  function Start(now: int): State {
    State(0, {}, [], 0, true, 0, [], now)
  }

  // ----- what is kept -----

  /** The offsets of the parseable messages in `[lo, hi)`, in order. */
  function Events<E>(log: Log<E>, lo: nat, hi: nat): seq<nat>
    requires lo <= hi <= |log|
    decreases hi
  {
    if lo == hi then []
    else if log[hi - 1].Event? then Events(log, lo, hi - 1) + [hi - 1]
    else Events(log, lo, hi - 1)
  }

  lemma {:induction false} EventsAre<E>(log: Log<E>, lo: nat, hi: nat)
    requires lo <= hi <= |log|
    ensures forall o: nat :: o in Events(log, lo, hi) <==> lo <= o < hi && log[o].Event?
    ensures forall o: nat :: multiset(Events(log, lo, hi))[o] <= 1
    decreases hi
  {
    if lo < hi {
      EventsAre(log, lo, hi - 1);
    }
  }

  lemma {:induction false} EventsConcat<E>(log: Log<E>, lo: nat, mid: nat, hi: nat)
    requires lo <= mid <= hi <= |log|
    ensures Events(log, lo, hi) == Events(log, lo, mid) + Events(log, mid, hi)
    decreases hi
  {
    if mid < hi {
      EventsConcat(log, lo, mid, hi - 1);
    }
  }

  /** Every parseable message below `o` is in the store. */
  predicate Covered<E>(log: Log<E>, store: seq<nat>, o: nat) {
    forall i: nat :: i < o && IsEvent(log, i) ==> i in store
  }

  /** Where the pending batch begins. */
  function BatchStart(s: State): nat { if s.batch == [] then s.position else s.batch[0] }

  /** While running, the batch is exactly what was read and is not yet stored. */
  predicate BatchPending<E>(log: Log<E>, s: State) {
    && BatchStart(s) <= s.position <= |log|
    && s.batch == Events(log, BatchStart(s), s.position)
    && Covered(log, s.store, BatchStart(s))
  }

  /** Every offset the broker holds or may yet hold is safe to resume from. */
  ghost predicate CommitsCovered<E>(log: Log<E>, s: State) {
    && s.committed <= |log| && Covered(log, s.store, s.committed)
    && forall o :: o in s.inFlight ==> o <= |log| && Covered(log, s.store, o)
  }

  /** How often the store may hold `o`: once for each earlier life, and once more for this one if flushed. */
  function Allowed(s: State, o: nat): nat {
    s.restarts + if !s.running || o < BatchStart(s) then 1 else 0
  }

  ghost predicate StoreBounded<E>(log: Log<E>, s: State) {
    && (forall o :: o in s.store ==> IsEvent(log, o))
    && (forall o: nat :: multiset(s.store)[o] <= Allowed(s, o))
  }

  ghost predicate Inv<E>(log: Log<E>, s: State) {
    && CommitsCovered(log, s) && StoreBounded(log, s)
    && (s.running ==> BatchPending(log, s))
    && (s.running && s.restarts == 0 ==> s.store == Events(log, 0, BatchStart(s)))
  }

  lemma {:induction false} KeptAre(batch: seq<nat>, keep: set<nat>)
    ensures forall o :: o in Kept(batch, keep) ==> o in batch
    ensures forall o: nat :: multiset(Kept(batch, keep))[o] <= multiset(batch)[o]
  {
    if batch != [] {
      KeptAre(batch[1..], keep);
      assert batch == [batch[0]] + batch[1..];
    }
  }

  /** Storing part of the batch, each event at most once. */
  lemma StorePart<E>(log: Log<E>, s: State, part: seq<nat>)
    requires Inv(log, s) && s.running
    requires forall o :: o in part ==> o in s.batch
    requires forall o: nat :: multiset(part)[o] <= multiset(s.batch)[o]
    ensures CommitsCovered(log, s.(store := s.store + part))
    ensures forall o :: o in s.store + part ==> IsEvent(log, o)
    ensures forall o: nat :: multiset(s.store + part)[o] <= s.restarts + if o < s.position then 1 else 0
  {
    var start := BatchStart(s);
    EventsAre(log, start, s.position);
    forall o: nat
      ensures multiset(s.store + part)[o] <= s.restarts + if o < s.position then 1 else 0
    {
      assert multiset(s.store + part)[o] == multiset(s.store)[o] + multiset(part)[o];
      if o < start || o >= s.position {
        assert o !in s.batch;
      }
    }
  }

  lemma FlushKeepsInv<E>(log: Log<E>, s: State, t: Turn)
    requires Inv(log, s) && s.running
    ensures Inv(log, FlushAndCommit(s, t))
  {
    var start := BatchStart(s);
    EventsAre(log, start, s.position);
    match t.flush
    case Failed(keep) =>
      KeptAre(s.batch, keep);
      StorePart(log, s, Kept(s.batch, keep));
    case Inserted =>
      StorePart(log, s, s.batch);
      assert Covered(log, s.store + s.batch, s.position);
      EventsConcat(log, 0, start, s.position);
  }

  lemma PollKeepsInv<E>(log: Log<E>, s: State)
    requires Inv(log, s) && s.running && s.position < |log|
    ensures var read := s.(position := s.position + 1);
            Inv(log, if log[s.position].Event? then read.(batch := s.batch + [s.position]) else read)
  {
    var start := BatchStart(s);
    EventsAre(log, start, s.position);
    assert s.batch == [] ==> Events(log, s.position, s.position) == [];
  }

  lemma TurnKeepsInv<E>(log: Log<E>, s: State, t: Turn)
    requires Inv(log, s) && s.running && |s.batch| < BATCH_SIZE
    ensures Inv(log, Turned(log, s, t))
    ensures Turned(log, s, t).running ==> |Turned(log, s, t).batch| < BATCH_SIZE
  {
    hide Inv;
    if t.poll.Received? && s.position < |log| {
      PollKeepsInv(log, s);
      if log[s.position].Event? && |s.batch| + 1 >= BATCH_SIZE {
        FlushKeepsInv(log, s.(position := s.position + 1, batch := s.batch + [s.position]), t);
      }
    } else if t.poll.Timeout? {
      FlushKeepsInv(log, s, t);
    }
    if Polled(log, s, t).running {
      FlushKeepsInv(log, Polled(log, s, t), t);
    }
  }

  lemma StepKeepsInv<E>(log: Log<E>, s: State, step: Step)
    requires Inv(log, s) && (s.running ==> |s.batch| < BATCH_SIZE)
    ensures Inv(log, Next(log, s, step)) && (Next(log, s, step).running ==> |Next(log, s, step).batch| < BATCH_SIZE)
  {
    match step
    case Loop(t) => if s.running { TurnKeepsInv(log, s, t); }
    case CommitLands(o) =>
    case CommitLost(o) =>
    case Crash =>
    case Restart(now) =>
  }

  lemma {:induction false} RunsKeepInv<E>(log: Log<E>, now: int, steps: seq<Step>)
    ensures var s := Runs(log, Start(now), steps); Inv(log, s) && (s.running ==> |s.batch| < BATCH_SIZE)
  {
    if steps != [] {
      RunsKeepInv(log, now, steps[..|steps| - 1]);
      StepKeepsInv(log, Runs(log, Start(now), steps[..|steps| - 1]), steps[|steps| - 1]);
    }
  }

  /**
    At-least-once delivery, for every run with crashes, failed flushes and lost, late or reordered
    commits: nothing below the committed offset is missing, nothing is stored more than once per life
    of the process, and a process that never restarted holds exactly the events it read, in order,
    apart from a pending batch shorter than 50.
   */
  lemma AtLeastOnce<E>(log: Log<E>, now: int, steps: seq<Step>)
    ensures var s := Runs(log, Start(now), steps);
            && (forall o: nat :: o < s.committed && IsEvent(log, o) ==> o in s.store)
            && (forall o :: o in s.store ==> IsEvent(log, o))
            && (forall o: nat :: multiset(s.store)[o] <= s.restarts + 1)
            && (s.running && s.restarts == 0 ==>
                s.position <= |log| && s.store + s.batch == Events(log, 0, s.position) && |s.batch| < 50)
  {
    var s := Runs(log, Start(now), steps);
    RunsKeepInv(log, now, steps);
    if s.running {
      EventsConcat(log, 0, BatchStart(s), s.position);
    }
  }

  // ----- when a batch is stored and what is then committed -----

  lemma {:induction false} RunsConcat<E>(log: Log<E>, s: State, a: seq<Step>, b: seq<Step>)
    ensures Runs(log, s, a + b) == Runs(log, Runs(log, s, a), b)
  {
    if b == [] {
      assert a + b == a;
    } else {
      assert (a + b)[..|a + b| - 1] == a + b[..|b| - 1];
      RunsConcat(log, s, a, b[..|b| - 1]);
    }
  }

  /** Nothing of the store or the broker's offset is below `p`, now or in what is about to be stored. */
  predicate Past(s: State, p: nat) {
    s.committed >= p && (s.running ==> s.position >= p && forall o :: o in s.batch ==> o >= p)
  }

  /** A commit of an older offset does not land. */
  predicate NotBack(step: Step, p: nat) { step.CommitLands? ==> step.offset >= p }

  ghost predicate StoresFrom(before: seq<nat>, after: seq<nat>, p: nat) {
    before <= after && forall i :: |before| <= i < |after| ==> after[i] >= p
  }

  lemma PastTurn<E>(log: Log<E>, s: State, t: Turn, p: nat)
    requires Past(s, p) && s.running
    ensures Past(Turned(log, s, t), p) && StoresFrom(s.store, Turned(log, s, t).store, p)
  {
    hide Turned;
    TurnCommits(log, s, t);
    var r, waiting := Turned(log, s, t), Waiting(log, s, t);
    assert forall o :: o in waiting ==> o >= p;
    var added := r.store[|s.store|..];
    if t.flush.Failed? {
      KeptAre(waiting, t.flush.stored);
    }
    assert forall o :: o in added ==> o in waiting;
    assert forall i :: |s.store| <= i < |r.store| ==> r.store[i] in added;
  }

  lemma {:induction false} PastRuns<E>(log: Log<E>, s: State, more: seq<Step>, p: nat)
    requires Past(s, p) && forall step :: step in more ==> NotBack(step, p)
    ensures Past(Runs(log, s, more), p) && StoresFrom(s.store, Runs(log, s, more).store, p)
  {
    hide Turned;
    if more != [] {
      var front, last := more[..|more| - 1], more[|more| - 1];
      PastRuns(log, s, front, p);
      var before := Runs(log, s, front);
      assert last in more;
      if last.Loop? && before.running {
        PastTurn(log, before, last.turn, p);
      }
    }
  }

  /**
    What a commit is for: after any turn of any run that stores and stays up, once its commit lands, a
    crash and a restart resume at the position it reached, and as long as no older commit lands late, no
    event before that position is ever stored again.
   */
  lemma CommittedIsDone<E>(log: Log<E>, now: int, steps: seq<Step>, t: Turn, later: int, more: seq<Step>)
    requires var s := Runs(log, Start(now), steps); s.running && Due(log, s, t) && Healthy(t)
    ensures var p := Runs(log, Start(now), steps + [Loop(t)]).position;
            var back := [Loop(t), CommitLands(p), Crash, Restart(later)];
            var r := Runs(log, Start(now), steps + back);
            && r.running && r.position == r.committed == p && r.batch == []
            && ((forall step :: step in more ==> NotBack(step, p)) ==>
                StoresFrom(r.store, Runs(log, Start(now), steps + back + more).store, p))
  {
    var s := Runs(log, Start(now), steps);
    TurnCommits(log, s, t);
    var one := Turned(log, s, t);
    assert (steps + [Loop(t)])[..|steps|] == steps;
    var p := one.position;
    var back := [Loop(t), CommitLands(p), Crash, Restart(later)];
    RunsConcat(log, Start(now), steps, back);
    RunsConcat(log, Start(now), steps + back, more);
    FourSteps(log, s, back);
    if forall step :: step in more ==> NotBack(step, p) {
      PastRuns(log, Runs(log, Start(now), steps + back), more, p);
    }
  }

  lemma FourSteps<E>(log: Log<E>, s: State, steps: seq<Step>)
    requires |steps| == 4
    ensures Runs(log, s, steps) == Next(log, Next(log, Next(log, Next(log, s, steps[0]), steps[1]), steps[2]), steps[3])
  {
    hide Next;
    assert steps[..3][..2] == steps[..2] && steps[..2][..1] == steps[..1] && steps[..1][..0] == [];
    assert Runs(log, s, steps[..1]) == Next(log, s, steps[0]);
    assert Runs(log, s, steps[..2]) == Next(log, Runs(log, s, steps[..1]), steps[1]);
    assert Runs(log, s, steps[..3]) == Next(log, Runs(log, s, steps[..2]), steps[2]);
  }

  /** An older commit that lands late does move a restart back, and the events from there on are stored again. */
  lemma LateCommitRewinds<E>(log: Log<E>, s: State, o: nat, later: int)
    requires o in s.inFlight
    ensures var r := Next(log, Next(log, Next(log, s, CommitLands(o)), Crash), Restart(later));
            r.running && r.position == r.committed == o
  {
  }

  // ----- once failures stop -----

  /** Nothing fails: any poll at any clock, and commits that land or are lost at any time. */
  predicate Calm(step: Step) {
    match step
    case Loop(t) => Healthy(t)
    case CommitLands(_) => true
    case CommitLost(_) => true
    case _ => false
  }

  /** How many messages the steps ask for. */
  function Reads(steps: seq<Step>): nat {
    if steps == [] then 0
    else
      var last := steps[|steps| - 1];
      Reads(steps[..|steps| - 1]) + if last.Loop? && last.turn.poll.Received? then 1 else 0
  }

  lemma CalmStep<E>(log: Log<E>, s: State, step: Step)
    requires s.running && s.position <= |log| && Calm(step)
    ensures var r := Next(log, s, step);
            && r.running
            && r.position == s.position + if step.Loop? && step.turn.poll.Received? && s.position < |log| then 1 else 0
  {
  }

  lemma {:induction false} CalmReads<E>(log: Log<E>, s: State, rest: seq<Step>)
    requires s.running && s.position <= |log| && forall step :: step in rest ==> Calm(step)
    ensures var r := Runs(log, s, rest);
            r.running && r.position == if s.position + Reads(rest) <= |log| then s.position + Reads(rest) else |log|
  {
    hide Next, Calm;
    if rest != [] {
      var front := rest[..|rest| - 1];
      CalmReads(log, s, front);
      CalmStep(log, Runs(log, s, front), rest[|rest| - 1]);
    }
  }

  lemma IdleEmpties<E>(log: Log<E>, s: State, idle: Turn)
    requires s.running && Healthy(idle) && idle.poll.Timeout?
    ensures var r := Turned(log, s, idle); r.running && r.batch == [] && r.position == s.position
  {
  }

  /**
    From any moment of any run, if the process is up and failures stop: every continuation that polls
    often enough to read the rest of the log, with any clock and any fate of commits, then one idle
    poll, stores every event there is and leaves nothing pending.
   */
  lemma Delivered<E>(log: Log<E>, now: int, steps: seq<Step>, rest: seq<Step>, idle: Turn)
    requires forall step :: step in rest ==> Calm(step)
    requires Healthy(idle) && idle.poll.Timeout?
    ensures var s, r := Runs(log, Start(now), steps), Runs(log, Start(now), steps + rest + [Loop(idle)]);
            s.running && s.position + Reads(rest) >= |log| ==>
              && r.running && r.position == |log| && r.batch == []
              && (forall o: nat :: IsEvent(log, o) ==> o in r.store)
              && (forall o: nat :: multiset(r.store)[o] <= r.restarts + 1)
  {
    hide Reads, Calm, Turned;
    var s := Runs(log, Start(now), steps);
    if s.running && s.position + Reads(rest) >= |log| {
      RunsKeepInv(log, now, steps);
      CalmReads(log, s, rest);
      RunsConcat(log, Start(now), steps, rest);
      var all := steps + rest + [Loop(idle)];
      assert all[..|all| - 1] == steps + rest;
      IdleEmpties(log, Runs(log, Start(now), steps + rest), idle);
      RunsKeepInv(log, now, all);
      AtLeastOnce(log, now, all);
    }
  }
}
