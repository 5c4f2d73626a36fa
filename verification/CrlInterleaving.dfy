/**
  The revocation list of `proxy/src/agent_crl.rs` with its store calls taken one by one. A pull is a
  read of the hash, a read of the number and a locked merge; a revoke goes on with a locked append, a
  write of the entry and a write of the number. Tasks on any nodes interleave freely and any store call
  may fail. What `AgentCrl` proves of whole operations holds again when they do not overlap.
 */
module CrlInterleaving {
  import opened Text
  import opened AgentCrl

  datatype Operation = Lookup | Withdraw(revocation: Revocation, fingerprint: string)

  /** How far a task has come. */
  datatype Phase =
    | Begun
    | Fetched(remote: map<string, CrlEntry>)
    | Counted(remote: map<string, CrlEntry>, number: nat)
    | Current
    | Listed(entry: CrlEntry, number: nat)
    | Stored(number: nat)

  datatype Task = Task(node: nat, operation: Operation, phase: Phase)

  datatype State = State(nodes: map<nat, Node>, shared: Shared, tasks: map<nat, Task>)

  datatype Move = Begin(task: nat, node: nat, operation: Operation) | Advance(task: nat, ok: bool, order: seq<string>)

  function At(s: State, t: nat, task: Task): State { s.(tasks := s.tasks[t := task]) }

  function Over(s: State, t: nat): State { s.(tasks := s.tasks - {t}) }

  /** A pull is done: a lookup answers, a revoke goes on. */
  function PullDone(s: State, t: nat, task: Task): State {
    if task.operation.Lookup? then Over(s, t) else At(s, t, task.(phase := Current))
  }

  function Replaced(s: State, n: nat, node: Node): State { s.(nodes := s.nodes[n := node]) }

  /** One store call, or one stretch under the lock, of task `t`. */
  ghost function Advanced(s: State, t: nat, ok: bool, order: seq<string>): State
    requires t in s.tasks && s.tasks[t].node in s.nodes
  {
    var task := s.tasks[t];
    var node := s.nodes[task.node];
    match task.phase
    case Begun => if ok then At(s, t, task.(phase := Fetched(s.shared.entries))) else PullDone(s, t, task)
    case Fetched(remote) =>
      var number := if ok && s.shared.number.Some? then Max(s.shared.number.value, 1) else 1;
      At(s, t, task.(phase := Counted(remote, number)))
    case Counted(remote, number) =>
      if !IsListing(order, remote.Keys) then s
      else PullDone(Replaced(s, task.node, Node(Merged(node.entries, remote, order), Max(node.number, number))), t, task)
    case Current =>
      if task.operation.Lookup? || Has(node.entries, task.operation.fingerprint) then Over(s, t)
      else
        var entry := EntryFor(task.operation.revocation, task.operation.fingerprint);
        var after := Node(node.entries + [entry], node.number + 1);
        At(Replaced(s, task.node, after), t, task.(phase := Listed(entry, after.number)))
    case Listed(entry, number) =>
      if ok then At(s.(shared := s.shared.(entries := s.shared.entries[entry.fingerprint := entry])), t, task.(phase := Stored(number)))
      else Over(s, t)
    case Stored(number) => if ok then Over(s.(shared := s.shared.(number := Some(number))), t) else Over(s, t)
  }

  ghost predicate Next(s: State, move: Move, s': State) {
    match move
    case Begin(t, n, operation) =>
      && t !in s.tasks && n in s.nodes
      && (operation.Withdraw? ==> Target(operation.revocation) == Some(operation.fingerprint))
      && s' == At(s, t, Task(n, operation, Begun))
    case Advance(t, ok, order) =>
      && t in s.tasks && s.tasks[t].node in s.nodes && s' == Advanced(s, t, ok, order)
  }

  ghost predicate StepAt(states: seq<State>, moves: seq<Move>, i: nat) {
    i < |moves| && i + 1 < |states| && Next(states[i], moves[i], states[i + 1])
  }

  ghost predicate Run(states: seq<State>, moves: seq<Move>) {
    && |states| == |moves| + 1
    && states[0].tasks == map[] && Starts(Cluster(states[0].nodes, states[0].shared))
    && forall i :: 0 <= i < |moves| ==> StepAt(states, moves, i)
  }

  // ----- what every interleaving keeps -----

  /** Nothing is taken away: entries are only appended, a node's number only rises, hash keys stay. */
  ghost predicate Grown(s: State, s': State) {
    && (forall n :: n in s.nodes ==>
          n in s'.nodes && s.nodes[n].entries <= s'.nodes[n].entries && s.nodes[n].number <= s'.nodes[n].number)
    && (forall f :: f in s.shared.entries ==> f in s'.shared.entries)
  }

  lemma StepGrows(s: State, move: Move, s': State)
    requires Next(s, move, s')
    ensures Grown(s, s')
  {
    hide Has, EntryFor, Target, Merged;
    if move.Advance? {
      var task := s.tasks[move.task];
      if task.phase.Counted? && IsListing(move.order, task.phase.remote.Keys) {
        MergedHolds(s.nodes[task.node].entries, task.phase.remote, move.order);
      }
    }
  }

  /** In every run, whatever overlaps or fails, nothing recorded is ever taken away. */
  lemma {:induction false} NothingTaken(states: seq<State>, moves: seq<Move>, i: nat, j: nat)
    requires Run(states, moves) && i <= j <= |moves|
    ensures Grown(states[i], states[j])
    decreases j
  {
    hide Next;
    if i < j {
      NothingTaken(states, moves, i, j - 1);
      assert StepAt(states, moves, j - 1);
      StepGrows(states[j - 1], moves[j - 1], states[j]);
    }
  }

  // ----- where entries come from -----

  /** Some revocation begun among the first `i` moves asks for this very entry. */
  ghost predicate AskedFor(moves: seq<Move>, i: nat, e: CrlEntry) {
    exists k: nat :: AskedAt(moves, k, e) && k < i
  }

  predicate AskedAt(moves: seq<Move>, k: nat, e: CrlEntry) {
    && k < |moves| && moves[k].Begin? && moves[k].operation.Withdraw?
    && Target(moves[k].operation.revocation) == Some(e.fingerprint)
    && e == EntryFor(moves[k].operation.revocation, e.fingerprint)
  }

  ghost predicate HashSound(entries: map<string, CrlEntry>, moves: seq<Move>, i: nat) {
    forall f :: f in entries ==> entries[f].fingerprint == f && AskedFor(moves, i, entries[f])
  }

  ghost predicate NodeSound(node: Node, moves: seq<Move>, i: nat) {
    Distinct(node.entries) && forall e :: e in node.entries ==> AskedFor(moves, i, e)
  }

  ghost predicate TaskSound(task: Task, moves: seq<Move>, i: nat) {
    && (task.operation.Withdraw? ==>
          && Target(task.operation.revocation) == Some(task.operation.fingerprint)
          && AskedFor(moves, i, EntryFor(task.operation.revocation, task.operation.fingerprint)))
    && match task.phase
       case Fetched(remote) => HashSound(remote, moves, i)
       case Counted(remote, _) => HashSound(remote, moves, i)
       case Listed(entry, _) => AskedFor(moves, i, entry)
       case _ => true
  }

  ghost predicate Sound(s: State, moves: seq<Move>, i: nat) {
    && HashSound(s.shared.entries, moves, i)
    && (forall n :: n in s.nodes ==> NodeSound(s.nodes[n], moves, i))
    && (forall t :: t in s.tasks ==> TaskSound(s.tasks[t], moves, i))
  }

  lemma AskedLater(moves: seq<Move>, i: nat, e: CrlEntry)
    requires AskedFor(moves, i, e)
    ensures AskedFor(moves, i + 1, e)
  {
    hide AskedAt;
    var k: nat :| AskedAt(moves, k, e) && k < i;
    assert AskedAt(moves, k, e) && k < i + 1;
  }

  lemma SoundLater(s: State, moves: seq<Move>, i: nat)
    requires Sound(s, moves, i)
    ensures Sound(s, moves, i + 1)
  {
    hide AskedFor, Target, EntryFor, Distinct;
    forall e | AskedFor(moves, i, e)
      ensures AskedFor(moves, i + 1, e)
    {
      AskedLater(moves, i, e);
    }
  }

  lemma {:induction false} MergedSound(node: Node, remote: map<string, CrlEntry>, order: seq<string>, moves: seq<Move>, i: nat)
    requires NodeSound(node, moves, i) && HashSound(remote, moves, i) && forall k :: k in order ==> k in remote
    ensures NodeSound(Node(Merged(node.entries, remote, order), node.number), moves, i)
  {
    hide AskedFor;
    if order != [] {
      MergedSound(node, remote, order[..|order| - 1], moves, i);
    }
  }

  lemma AdvanceSound(s: State, t: nat, ok: bool, order: seq<string>, moves: seq<Move>, i: nat)
    requires Sound(s, moves, i) && t in s.tasks && s.tasks[t].node in s.nodes
    ensures Sound(Advanced(s, t, ok, order), moves, i)
  {
    hide AskedFor, Target, Cleaned, Lower, Merged;
    var task := s.tasks[t];
    var node := s.nodes[task.node];
    assert TaskSound(task, moves, i) && NodeSound(node, moves, i);
    if task.phase.Counted? && IsListing(order, task.phase.remote.Keys) {
      MergedSound(node, task.phase.remote, order, moves, i);
    }
  }

  /**
    In every run, whatever overlaps or fails, every list and the hash hold only entries some revocation
    asked for, each list holds a fingerprint at most once, and the hash keeps each entry under its own.
   */
  lemma {:induction false} NothingInvented(states: seq<State>, moves: seq<Move>, i: nat)
    requires Run(states, moves) && i <= |moves|
    ensures Sound(states[i], moves, i)
  {
    hide AskedFor, Advanced, TaskSound;
    if i > 0 {
      NothingInvented(states, moves, i - 1);
      assert StepAt(states, moves, i - 1);
      SoundLater(states[i - 1], moves, i - 1);
      match moves[i - 1]
      case Begin(t, n, operation) => BegunSound(moves, i - 1);
      case Advance(t, ok, order) => AdvanceSound(states[i - 1], t, ok, order, moves, i);
    }
  }

  lemma BegunSound(moves: seq<Move>, i: nat)
    requires i < |moves| && moves[i].Begin?
    requires moves[i].operation.Withdraw? ==> Target(moves[i].operation.revocation) == Some(moves[i].operation.fingerprint)
    ensures TaskSound(Task(moves[i].node, moves[i].operation, Begun), moves, i + 1)
  {
    hide Target;
    if moves[i].operation.Withdraw? {
      var e := EntryFor(moves[i].operation.revocation, moves[i].operation.fingerprint);
      assert AskedAt(moves, i, e) && i < i + 1;
    }
  }

  // ----- a stored revocation is seen by every pull that starts later -----

  /** Task `t` carries fingerprint `f` to node `n`, or has delivered it. */
  ghost predicate OnItsWay(s: State, t: nat, n: nat, f: string) {
    || (n in s.nodes && Has(s.nodes[n].entries, f))
    || (&& t in s.tasks && s.tasks[t].node == n
        && (s.tasks[t].phase.Fetched? || s.tasks[t].phase.Counted?)
        && f in s.tasks[t].phase.remote && s.tasks[t].phase.remote[f].fingerprint == f)
  }

  lemma StepKeepsHas(s: State, move: Move, s': State, n: nat, f: string)
    requires Next(s, move, s') && n in s.nodes && Has(s.nodes[n].entries, f)
    ensures n in s'.nodes && Has(s'.nodes[n].entries, f)
  {
    hide Next;
    StepGrows(s, move, s');
    HasLonger(s.nodes[n].entries, s'.nodes[n].entries, f);
  }

  lemma StepCarries(s: State, move: Move, s': State, t: nat, n: nat, f: string)
    requires Next(s, move, s') && OnItsWay(s, t, n, f)
    ensures OnItsWay(s', t, n, f)
  {
    hide Has, EntryFor, Target, Merged;
    if n in s.nodes && Has(s.nodes[n].entries, f) {
      StepKeepsHas(s, move, s', n, f);
    } else if move.Advance? && move.task == t && s.tasks[t].phase.Counted? && IsListing(move.order, s.tasks[t].phase.remote.Keys) {
      MergedHolds(s.nodes[n].entries, s.tasks[t].phase.remote, move.order);
    }
  }

  lemma {:induction false} Carried(states: seq<State>, moves: seq<Move>, i: nat, j: nat, t: nat, n: nat, f: string)
    requires Run(states, moves) && i <= j <= |moves| && OnItsWay(states[i], t, n, f)
    ensures OnItsWay(states[j], t, n, f)
    decreases j
  {
    hide Next, OnItsWay;
    if i < j {
      Carried(states, moves, i, j - 1, t, n, f);
      assert StepAt(states, moves, j - 1);
      StepCarries(states[j - 1], moves[j - 1], states[j], t, n, f);
    }
  }

  /**
    In every run, whatever overlaps or fails: once the entry for a fingerprint is in the hash, every pull
    on every node that reads the hash after that has the fingerprint on its node's list when it is over.
   */
  lemma StoredIsSeen(states: seq<State>, moves: seq<Move>, i: nat, j: nat, k: nat, f: string)
    requires Run(states, moves) && i <= j < k <= |moves|
    requires f in states[i].shared.entries
    requires moves[j].Advance? && moves[j].ok && moves[j].task in states[j].tasks && states[j].tasks[moves[j].task].phase.Begun?
    requires moves[j].task !in states[k].tasks
    ensures var n := states[j].tasks[moves[j].task].node; n in states[k].nodes && Has(states[k].nodes[n].entries, f)
  {
    hide Has, AskedFor, TaskSound, NodeSound;
    var t := moves[j].task;
    NothingTaken(states, moves, i, j);
    NothingInvented(states, moves, j);
    assert StepAt(states, moves, j);
    Carried(states, moves, j + 1, k, t, states[j].tasks[t].node, f);
  }

  // ----- operations that do not overlap are whole operations -----

  /** Tasks run one at a time and every store call succeeds. */
  ghost predicate OneAtATime(states: seq<State>, moves: seq<Move>) {
    && |states| == |moves| + 1
    && forall i :: 0 <= i < |moves| ==> Alone(states[i], moves[i])
  }

  ghost predicate Alone(s: State, move: Move) {
    match move
    case Begin(_, _, _) => s.tasks == map[]
    case Advance(t, ok, order) =>
      ok && (t in s.tasks && s.tasks[t].phase.Counted? ==> IsListing(order, s.tasks[t].phase.remote.Keys))
  }

  function Pulling(base: Cluster, n: nat, order: seq<string>): Node
    requires n in base.nodes && IsListing(order, base.shared.entries.Keys)
  {
    Pulled(base.nodes[n], base.shared, order)
  }

  /** What a task under way has changed since it found the cluster at `base`. */
  ghost predicate Progress(s: State, base: Cluster, task: Task, order: seq<string>) {
    && task.node in base.nodes
    && (task.operation.Withdraw? ==> Target(task.operation.revocation) == Some(task.operation.fingerprint))
    && match task.phase
       case Begun => Cluster(s.nodes, s.shared) == base
       case Fetched(remote) => Cluster(s.nodes, s.shared) == base && remote == base.shared.entries
       case Counted(remote, number) =>
         && Cluster(s.nodes, s.shared) == base && remote == base.shared.entries
         && number == Max(if base.shared.number.Some? then base.shared.number.value else 1, 1)
       case Current =>
         && task.operation.Withdraw? && IsListing(order, base.shared.entries.Keys)
         && s.nodes == base.nodes[task.node := Pulling(base, task.node, order)] && s.shared == base.shared
       case Listed(entry, number) => Withdrawing(s, base, task, order, entry, number) && s.shared == base.shared
       case Stored(number) =>
         exists entry :: Withdrawing(s, base, task, order, entry, number)
           && s.shared == base.shared.(entries := base.shared.entries[entry.fingerprint := entry])
  }

  ghost predicate Withdrawing(s: State, base: Cluster, task: Task, order: seq<string>, entry: CrlEntry, number: nat) {
    && task.operation.Withdraw? && task.node in base.nodes && IsListing(order, base.shared.entries.Keys)
    && var pulled := Pulling(base, task.node, order);
    && !Has(pulled.entries, task.operation.fingerprint)
    && entry == EntryFor(task.operation.revocation, task.operation.fingerprint)
    && number == pulled.number + 1
    && s.nodes == base.nodes[task.node := Node(pulled.entries + [entry], number)]
  }

  ghost predicate Mid(s: State, base: Cluster, order: seq<string>) {
    if s.tasks == map[] then Cluster(s.nodes, s.shared) == base
    else exists t :: t in s.tasks && s.tasks == map[t := s.tasks[t]] && Progress(s, base, s.tasks[t], order)
  }

  /** A task's move leaves the cluster where it was, or completes the task's whole operation. */
  lemma AloneMoves(s: State, t: nat, order: seq<string>, base: Cluster, listing: seq<string>)
    returns (listing': seq<string>, done: Option<AgentCrl.Step>, base': Cluster)
    requires t in s.tasks && s.tasks == map[t := s.tasks[t]] && s.tasks[t].node in s.nodes
    requires Progress(s, base, s.tasks[t], listing) && Alone(s, Advance(t, true, order))
    ensures Mid(Advanced(s, t, true, order), base', listing')
    ensures done.None? ==> base' == base
    ensures done.Some? ==> AgentCrl.Next(base, done.value, base')
  {
    hide Has, EntryFor, Target, Merged;
    var task, s' := s.tasks[t], Advanced(s, t, true, order);
    listing', done, base' := listing, None, base;
    match task.phase
    case Begun => assert s'.tasks == map[t := task.(phase := Fetched(s.shared.entries))];
    case Fetched(remote) => assert s'.tasks == map[t := s'.tasks[t]];
    case Counted(remote, number) =>
      listing' := order;
      if task.operation.Lookup? {
        done, base' := Some(AgentCrl.Pull(task.node, order)), Cluster(s'.nodes, s'.shared);
        assert s'.tasks == map[];
      } else {
        assert s'.tasks == map[t := task.(phase := Current)];
      }
    case Current =>
      if Has(s.nodes[task.node].entries, task.operation.fingerprint) {
        done, base' := Some(AgentCrl.Revoke(task.node, task.operation.revocation, listing)), Cluster(s'.nodes, s'.shared);
        assert s'.tasks == map[];
      } else {
        assert s'.tasks == map[t := s'.tasks[t]];
        assert s'.nodes == base.nodes[task.node := s'.nodes[task.node]];
      }
    case Listed(entry, number) => assert s'.tasks == map[t := task.(phase := Stored(number))];
    case Stored(number) =>
      done, base' := Some(AgentCrl.Revoke(task.node, task.operation.revocation, listing)), Cluster(s'.nodes, s'.shared);
      assert s'.tasks == map[];
      StoredCompletes(s, base, task, listing, number);
  }

  lemma StoredCompletes(s: State, base: Cluster, task: Task, listing: seq<string>, number: nat)
    requires task.phase == Stored(number) && Progress(s, base, task, listing)
    ensures task.operation.Withdraw? && IsListing(listing, base.shared.entries.Keys)
    ensures AgentCrl.Next(base, AgentCrl.Revoke(task.node, task.operation.revocation, listing),
                          Cluster(s.nodes, s.shared.(number := Some(number))))
  {
    hide Has, Target, Cleaned, Lower, Merged;
    var entry :| Withdrawing(s, base, task, listing, entry, number)
      && s.shared == base.shared.(entries := base.shared.entries[entry.fingerprint := entry]);
  }

  /** Every run of tasks one at a time is a run of whole revokes and pulls. */
  lemma {:induction false} Serialised(states: seq<State>, moves: seq<Move>, i: nat)
    returns (clusters: seq<Cluster>, steps: seq<AgentCrl.Step>, listing: seq<string>)
    requires Run(states, moves) && OneAtATime(states, moves) && i <= |moves|
    ensures AgentCrl.Run(clusters, steps) && Mid(states[i], clusters[|steps|], listing)
  {
    hide Mid, Alone, Advanced, AgentCrl.Next;
    if i == 0 {
      clusters, steps, listing := [Cluster(states[0].nodes, states[0].shared)], [], [];
      StartMid(states[0]);
    } else {
      clusters, steps, listing := Serialised(states, moves, i - 1);
      assert StepAt(states, moves, i - 1) && Alone(states[i - 1], moves[i - 1]);
      var done, base;
      listing, done, base := MidMoves(states[i - 1], moves[i - 1], states[i], clusters[|steps|], listing);
      if done.Some? {
        clusters, steps := RunLonger(clusters, steps, done.value, base);
      }
    }
  }

  lemma StartMid(s: State)
    requires s.tasks == map[]
    ensures Mid(s, Cluster(s.nodes, s.shared), [])
  {
  }

  lemma MidMoves(s: State, move: Move, s': State, base: Cluster, listing: seq<string>)
    returns (listing': seq<string>, done: Option<AgentCrl.Step>, base': Cluster)
    requires Next(s, move, s') && Alone(s, move) && Mid(s, base, listing)
    ensures Mid(s', base', listing')
    ensures done.None? ==> base' == base
    ensures done.Some? ==> AgentCrl.Next(base, done.value, base')
  {
    hide AgentCrl.Next, Target, EntryFor, Has, Advanced;
    if move.Begin? {
      listing', done, base' := listing, None, base;
      assert s'.tasks == map[move.task := s'.tasks[move.task]];
    } else {
      var t :| t in s.tasks && s.tasks == map[t := s.tasks[t]] && Progress(s, base, s.tasks[t], listing);
      assert move.task == t;
      listing', done, base' := AloneMoves(s, t, move.order, base, listing);
    }
  }

  lemma RunLonger(clusters: seq<Cluster>, steps: seq<AgentCrl.Step>, step: AgentCrl.Step, next: Cluster)
    returns (clusters': seq<Cluster>, steps': seq<AgentCrl.Step>)
    requires AgentCrl.Run(clusters, steps) && AgentCrl.Next(clusters[|steps|], step, next)
    ensures AgentCrl.Run(clusters', steps') && clusters'[|steps'|] == next
  {
    hide AgentCrl.Next;
    clusters', steps' := clusters + [next], steps + [step];
    forall i | 0 <= i < |steps'|
      ensures AgentCrl.StepAt(clusters', steps', i)
    {
      assert i < |steps| ==> AgentCrl.StepAt(clusters, steps, i);
    }
  }

  // ----- overlapping revokes break the numbering -----

  lemma Longer(states: seq<State>, moves: seq<Move>, move: Move, next: State)
    returns (states': seq<State>, moves': seq<Move>)
    requires Run(states, moves) && Next(states[|moves|], move, next)
    ensures Run(states', moves') && states'[|moves'|] == next
  {
    hide Next;
    states', moves' := states + [next], moves + [move];
    forall i | 0 <= i < |moves'|
      ensures StepAt(states', moves', i)
    {
      assert i < |moves| ==> StepAt(states, moves, i);
    }
  }

  /** Both tasks take their next move. */
  lemma BothMove(states: seq<State>, moves: seq<Move>, s: State, next: State)
    returns (states': seq<State>, moves': seq<Move>)
    requires Run(states, moves) && states[|moves|] == s
    requires 0 in s.tasks && 1 in s.tasks && s.tasks[0].node in s.nodes
    requires var mid := Advanced(s, 0, true, []);
             1 in mid.tasks && mid.tasks[1].node in mid.nodes && next == Advanced(mid, 1, true, [])
    ensures Run(states', moves') && states'[|moves'|] == next
  {
    hide Run, Advanced;
    var mid := Advanced(s, 0, true, []);
    states', moves' := Longer(states, moves, Advance(0, true, []), mid);
    states', moves' := Longer(states', moves', Advance(1, true, []), next);
  }

  function Empty(): map<nat, Node> { map[0 := Node([], 1), 1 := Node([], 1)] }

  function Both(r: Revocation, f: string, r': Revocation, f': string, phase: Phase, phase': Phase): map<nat, Task> {
    map[0 := Task(0, Withdraw(r, f), phase), 1 := Task(1, Withdraw(r', f'), phase')]
  }

  /** Two revokes that have each pulled before either has stored anything. */
  lemma BothPulled(r: Revocation, f: string, r': Revocation, f': string) returns (states: seq<State>, moves: seq<Move>)
    requires Target(r) == Some(f) && Target(r') == Some(f')
    ensures Run(states, moves)
    ensures states[|moves|] == State(Empty(), Shared(map[], None), Both(r, f, r', f', Current, Current))
  {
    hide Target, EntryFor;
    var none: map<string, CrlEntry> := map[];
    var nodes, shared := Empty(), Shared(none, None);
    states, moves := [State(nodes, shared, map[])], [];
    states, moves := Longer(states, moves, Begin(0, 0, Withdraw(r, f)), State(nodes, shared, map[0 := Task(0, Withdraw(r, f), Begun)]));
    var begun := State(nodes, shared, Both(r, f, r', f', Begun, Begun));
    states, moves := Longer(states, moves, Begin(1, 1, Withdraw(r', f')), begun);
    var fetched := State(nodes, shared, Both(r, f, r', f', Fetched(none), Fetched(none)));
    states, moves := BothMove(states, moves, begun, fetched);
    var counted := State(nodes, shared, Both(r, f, r', f', Counted(none, 1), Counted(none, 1)));
    states, moves := BothMove(states, moves, fetched, counted);
    states, moves := BothMove(states, moves, counted, State(nodes, shared, Both(r, f, r', f', Current, Current)));
  }

  lemma BothList(r: Revocation, f: string, r': Revocation, f': string)
    ensures var s := State(Empty(), Shared(map[], None), Both(r, f, r', f', Current, Current));
            var e, e' := EntryFor(r, f), EntryFor(r', f');
            Advanced(Advanced(s, 0, true, []), 1, true, []) ==
            State(map[0 := Node([e], 2), 1 := Node([e'], 2)], Shared(map[], None), Both(r, f, r', f', Listed(e, 2), Listed(e', 2)))
  {
    hide EntryFor;
    var s := State(Empty(), Shared(map[], None), Both(r, f, r', f', Current, Current));
    var e, e' := EntryFor(r, f), EntryFor(r', f');
    var none: seq<CrlEntry> := [];
    assert none + [e] == [e] && none + [e'] == [e'];
    var mid := Advanced(s, 0, true, []);
    assert mid.nodes == map[0 := Node([e], 2), 1 := Node([], 1)];
    assert mid.tasks == Both(r, f, r', f', Listed(e, 2), Current);
    var last := Advanced(mid, 1, true, []);
    assert last.nodes == map[0 := Node([e], 2), 1 := Node([e'], 2)];
  }

  /**
    Any two revocations of different fingerprints can overlap so that, with both over and nothing failed,
    two nodes show the same number and different lists, and the hash holds two entries under number 2.
   */
  lemma OverlapBreaksNumbering(r: Revocation, f: string, r': Revocation, f': string) returns (states: seq<State>, moves: seq<Move>)
    requires Target(r) == Some(f) && Target(r') == Some(f') && f != f'
    ensures Run(states, moves)
    ensures var s := states[|moves|];
            && s.tasks == map[] && 0 in s.nodes && 1 in s.nodes
            && s.nodes[0].number == s.nodes[1].number == 2
            && multiset(s.nodes[0].entries) != multiset(s.nodes[1].entries)
            && s.shared.number == Some(2) && s.shared.entries.Keys == {f, f'}
  {
    hide Target, Run;
    states, moves := BothPulled(r, f, r', f');
    var e, e' := EntryFor(r, f), EntryFor(r', f');
    var nodes := map[0 := Node([e], 2), 1 := Node([e'], 2)];
    var current := State(Empty(), Shared(map[], None), Both(r, f, r', f', Current, Current));
    var listed := State(nodes, Shared(map[], None), Both(r, f, r', f', Listed(e, 2), Listed(e', 2)));
    BothList(r, f, r', f');
    states, moves := BothMove(states, moves, current, listed);
    var stored := State(nodes, Shared(map[f := e, f' := e'], None), Both(r, f, r', f', Stored(2), Stored(2)));
    states, moves := BothMove(states, moves, listed, stored);
    states, moves := BothMove(states, moves, stored, State(nodes, Shared(map[f := e, f' := e'], Some(2)), map[]));
    assert multiset([e])[e] == 1 && multiset([e'])[e] == 0;
  }
}
