/**
  When the CRL number of `proxy/src/agent_crl.rs` identifies a list although tasks overlap: pulls may mix
  freely, as long as no task stands between its two reads while another is writing, and revocations
  exclude each other from their first read to their last write. And how each clause fails.
 */
module CrlOrder {
  import opened Text
  import opened AgentCrl
  import opened CrlInterleaving

  // ----- exactly when one step keeps the numbering -----

  /**
    A merge of a hash of the first `p` revocations under number `n` keeps the numbering if and only if
    the two reads agree, or the node is already ahead of where they differ.
   */
  lemma MergeKeepsNumbering(node: Node, remote: map<string, CrlEntry>, order: seq<string>, hist: seq<CrlEntry>, p: nat, n: nat)
    requires IsHistory(hist) && NodeHolds(node, hist) && p <= |hist| && EntriesHold(remote, hist[..p])
    requires IsListing(order, remote.Keys) && 1 <= n <= |hist| + 1
    ensures NodeHolds(Node(Merged(node.entries, remote, order), Max(node.number, n)), hist) <==>
            Max(node.number, n) == Max(node.number, p + 1)
  {
    hide Merged, EntriesHold, IsHistory, IsListing;
    MergedHoldsPrefix(node, remote, order, hist, p);
    var have, want := hist[..Max(node.number, p + 1) - 1], hist[..Max(node.number, n) - 1];
    assert |multiset(have)| == |have| && |multiset(want)| == |want|;
  }

  /** Appending a new entry keeps the numbering if and only if the node has the whole history. */
  lemma ListKeepsNumbering(node: Node, e: CrlEntry, hist: seq<CrlEntry>)
    requires NodeHolds(node, hist) && e !in hist
    ensures NodeHolds(Node(node.entries + [e], node.number + 1), hist + [e]) <==> node.number == |hist| + 1
  {
    var own, more := hist[..node.number - 1], (hist + [e])[..node.number];
    assert multiset(node.entries + [e]) == multiset(own) + multiset{e};
    if node.number == |hist| + 1 {
      assert own == hist && more == hist + [e];
    } else {
      assert more == hist[..node.number];
      assert e !in more;
      assert multiset(more)[e] == 0 && multiset(node.entries + [e])[e] >= 1;
    }
  }

  // ----- runs in which readers and writers keep apart -----

  predicate Reading(task: Task) { task.phase.Fetched? }

  predicate Writing(task: Task) { task.phase.Listed? || task.phase.Stored? }

  /** A revocation from its first read to its last write. */
  predicate Engaged(task: Task) { task.operation.Withdraw? && !task.phase.Begun? }

  predicate Apart(task: Task, other: Task) {
    !(Reading(task) && Writing(other)) && !(Engaged(task) && Engaged(other))
  }

  ghost predicate Orderly(s: State) {
    forall t, u :: t in s.tasks && u in s.tasks && t != u ==> Apart(s.tasks[t], s.tasks[u])
  }

  /** A store call succeeds, unless it is the first read of a lookup. */
  ghost predicate Sure(s: State, move: Move) {
    move.Advance? && move.task in s.tasks ==>
      var task := s.tasks[move.task];
      && (move.ok || (task.phase.Begun? && task.operation.Lookup?))
      && (task.phase.Counted? ==> IsListing(move.order, task.phase.remote.Keys))
  }

  ghost predicate OrderlyRun(states: seq<State>, moves: seq<Move>) {
    && CrlInterleaving.Run(states, moves)
    && (forall i :: 0 <= i < |states| ==> Orderly(states[i]))
    && (forall i :: 0 <= i < |moves| ==> Sure(states[i], moves[i]))
  }

  // ----- the invariant -----

  /** The entry a move adds to the history. */
  ghost function Appended(s: State, move: Move): seq<CrlEntry> {
    if move.Advance? && move.task in s.tasks && s.tasks[move.task].node in s.nodes then
      var task := s.tasks[move.task];
      if task.phase.Current? && task.operation.Withdraw? && !Has(s.nodes[task.node].entries, task.operation.fingerprint) then
        [EntryFor(task.operation.revocation, task.operation.fingerprint)]
      else []
    else []
  }

  ghost function HistoryOf(states: seq<State>, moves: seq<Move>, i: nat): seq<CrlEntry>
    requires i <= |moves| < |states|
  {
    if i == 0 then [] else HistoryOf(states, moves, i - 1) + Appended(states[i - 1], moves[i - 1])
  }

  /** What the store holds while a task writes: the history without its last entry, part by part. */
  ghost predicate TaskHolds(s: State, task: Task, hist: seq<CrlEntry>) {
    && task.node in s.nodes
    && (task.operation.Withdraw? ==> Target(task.operation.revocation) == Some(task.operation.fingerprint))
    && match task.phase
       case Begun => true
       case Fetched(remote) => EntriesHold(remote, hist)
       case Counted(remote, n) =>
         && 1 <= n <= |hist| + 1 && EntriesHold(remote, hist[..n - 1])
         && (task.operation.Withdraw? ==> n == |hist| + 1)
       case Current => task.operation.Withdraw? && s.nodes[task.node].number == |hist| + 1
       case Listed(e, n) =>
         && task.operation.Withdraw? && hist != [] && e == hist[|hist| - 1] && n == |hist| + 1
         && SharedHolds(s.shared, hist[..|hist| - 1])
       case Stored(n) =>
         && task.operation.Withdraw? && hist != [] && n == |hist| + 1
         && EntriesHold(s.shared.entries, hist) && s.shared.number == NumberOf(hist[..|hist| - 1])
  }

  ghost predicate OrderInv(s: State, hist: seq<CrlEntry>) {
    && IsHistory(hist)
    && (forall n :: n in s.nodes ==> NodeHolds(s.nodes[n], hist))
    && (forall t :: t in s.tasks ==> TaskHolds(s, s.tasks[t], hist))
    && ((forall t :: t in s.tasks ==> !Writing(s.tasks[t])) ==> SharedHolds(s.shared, hist))
  }

  /** No other task writes while `t` reads or is engaged. */
  lemma OthersQuiet(s: State, t: nat)
    requires Orderly(s) && t in s.tasks && (Reading(s.tasks[t]) || Engaged(s.tasks[t]))
    requires forall u :: u in s.tasks ==> Writing(s.tasks[u]) ==> Engaged(s.tasks[u])
    ensures forall u :: u in s.tasks && u != t ==> !Writing(s.tasks[u])
  {
    forall u | u in s.tasks && u != t
      ensures !Writing(s.tasks[u])
    {
      assert Apart(s.tasks[t], s.tasks[u]);
    }
  }

  lemma WritersEngaged(s: State, hist: seq<CrlEntry>)
    requires OrderInv(s, hist)
    ensures forall u :: u in s.tasks ==> Writing(s.tasks[u]) ==> Engaged(s.tasks[u])
  {
    forall u | u in s.tasks
      ensures Writing(s.tasks[u]) ==> Engaged(s.tasks[u])
    {
      assert TaskHolds(s, s.tasks[u], hist);
    }
  }

  lemma FetchKeeps(s: State, t: nat, order: seq<string>, hist: seq<CrlEntry>)
    requires OrderInv(s, hist) && Orderly(s) && t in s.tasks && s.tasks[t].phase.Begun? && s.tasks[t].node in s.nodes
    requires Orderly(Advanced(s, t, true, order))
    ensures OrderInv(Advanced(s, t, true, order), hist)
  {
    hide EntriesHold, IsHistory, NodeHolds, NumberOf, Target;
    var s' := Advanced(s, t, true, order);
    WritersEngaged(s, hist);
    assert Reading(s'.tasks[t]);
    forall u | u in s.tasks
      ensures !Writing(s.tasks[u])
    {
      if u != t { assert Apart(s'.tasks[t], s'.tasks[u]); }
    }
    forall u | u in s'.tasks
      ensures TaskHolds(s', s'.tasks[u], hist)
    {
      assert TaskHolds(s, s.tasks[u], hist);
    }
  }

  lemma MissedKeeps(s: State, t: nat, order: seq<string>, hist: seq<CrlEntry>)
    requires OrderInv(s, hist) && t in s.tasks && s.tasks[t].phase.Begun? && s.tasks[t].operation.Lookup? && s.tasks[t].node in s.nodes
    ensures OrderInv(Advanced(s, t, false, order), hist)
  {
    hide EntriesHold, IsHistory, NodeHolds, NumberOf, Target;
    GoneKeeps(s, t, hist);
  }

  /** A task that is over and was not writing is not missed. */
  lemma GoneKeeps(s: State, t: nat, hist: seq<CrlEntry>)
    requires OrderInv(s, hist) && t in s.tasks && !Writing(s.tasks[t])
    ensures OrderInv(Over(s, t), hist)
  {
    hide EntriesHold, IsHistory, NodeHolds, NumberOf, Target;
    var s' := Over(s, t);
    forall u | u in s'.tasks
      ensures TaskHolds(s', s'.tasks[u], hist)
    {
      assert TaskHolds(s, s.tasks[u], hist);
    }
    if forall u :: u in s'.tasks ==> !Writing(s'.tasks[u]) {
      assert forall u :: u in s.tasks && u != t ==> s'.tasks[u] == s.tasks[u];
    }
  }

  lemma CountKeeps(s: State, t: nat, order: seq<string>, hist: seq<CrlEntry>)
    requires OrderInv(s, hist) && Orderly(s) && t in s.tasks && s.tasks[t].phase.Fetched? && s.tasks[t].node in s.nodes
    ensures OrderInv(Advanced(s, t, true, order), hist)
  {
    hide EntriesHold, IsHistory, NodeHolds, Target;
    var s' := Advanced(s, t, true, order);
    WritersEngaged(s, hist);
    OthersQuiet(s, t);
    assert TaskHolds(s, s.tasks[t], hist);
    assert SharedHolds(s.shared, hist);
    assert hist[..|hist|] == hist;
    forall u | u in s'.tasks
      ensures TaskHolds(s', s'.tasks[u], hist)
    {
      assert TaskHolds(s, s.tasks[u], hist);
    }
  }

  /** A node moves up within the history; nothing else changes. */
  lemma RaisedKeeps(s: State, n: nat, node: Node, hist: seq<CrlEntry>)
    requires OrderInv(s, hist) && n in s.nodes && NodeHolds(node, hist) && s.nodes[n].number <= node.number
    ensures OrderInv(Replaced(s, n, node), hist)
  {
    hide EntriesHold, IsHistory, NumberOf, Target;
    var s' := Replaced(s, n, node);
    forall u | u in s'.tasks
      ensures TaskHolds(s', s'.tasks[u], hist)
    {
      assert TaskHolds(s, s.tasks[u], hist);
    }
  }

  lemma MergeKeeps(s: State, t: nat, order: seq<string>, hist: seq<CrlEntry>)
    requires OrderInv(s, hist) && t in s.tasks && s.tasks[t].phase.Counted? && s.tasks[t].node in s.nodes
    requires IsListing(order, s.tasks[t].phase.remote.Keys)
    ensures OrderInv(Advanced(s, t, true, order), hist)
  {
    hide EntriesHold, IsHistory, NumberOf, Target, Merged;
    var task := s.tasks[t];
    var node, remote, n := s.nodes[task.node], task.phase.remote, task.phase.number;
    assert TaskHolds(s, task, hist) && NodeHolds(node, hist);
    MergeKeepsNumbering(node, remote, order, hist, n - 1, n);
    var after := Node(Merged(node.entries, remote, order), Max(node.number, n));
    RaisedKeeps(s, task.node, after, hist);
    var raised := Replaced(s, task.node, after);
    if task.operation.Lookup? {
      GoneKeeps(raised, t, hist);
    } else {
      CurrentKeeps(raised, t, hist);
    }
  }

  lemma CurrentKeeps(s: State, t: nat, hist: seq<CrlEntry>)
    requires OrderInv(s, hist) && t in s.tasks && s.tasks[t].phase.Counted? && s.tasks[t].operation.Withdraw?
    requires s.tasks[t].node in s.nodes && s.nodes[s.tasks[t].node].number == |hist| + 1
    ensures OrderInv(At(s, t, s.tasks[t].(phase := Current)), hist)
  {
    hide EntriesHold, IsHistory, NodeHolds, NumberOf, Target;
    var s' := At(s, t, s.tasks[t].(phase := Current));
    forall u | u in s'.tasks
      ensures TaskHolds(s', s'.tasks[u], hist)
    {
      assert TaskHolds(s, s.tasks[u], hist);
    }
    if forall u :: u in s'.tasks ==> !Writing(s'.tasks[u]) {
      assert forall u :: u in s.tasks && u != t ==> s'.tasks[u] == s.tasks[u];
    }
  }

  /** A task that has not begun to read, or a lookup that has read both, is untouched by a longer history. */
  lemma LongerHeld(s: State, s': State, task: Task, hist: seq<CrlEntry>, e: CrlEntry)
    requires TaskHolds(s, task, hist) && s.nodes.Keys <= s'.nodes.Keys && !Reading(task) && !Engaged(task)
    ensures TaskHolds(s', task, hist + [e])
  {
    hide EntriesHold, NumberOf, Target;
    if task.phase.Counted? {
      assert (hist + [e])[..task.phase.number - 1] == hist[..task.phase.number - 1];
    }
  }

  lemma NodesLonger(s: State, n: nat, e: CrlEntry, hist: seq<CrlEntry>)
    requires (forall m :: m in s.nodes ==> NodeHolds(s.nodes[m], hist)) && n in s.nodes && e !in hist && s.nodes[n].number == |hist| + 1
    ensures var s' := Replaced(s, n, Node(s.nodes[n].entries + [e], s.nodes[n].number + 1));
            forall m :: m in s'.nodes ==> NodeHolds(s'.nodes[m], hist + [e])
  {
    hide NodeHolds;
    ListKeepsNumbering(s.nodes[n], e, hist);
    forall m | m in s.nodes
      ensures NodeHolds(s.nodes[m], hist + [e])
    {
      HoldsLonger(s.nodes[m], hist, e);
    }
  }

  lemma HistoryLonger(hist: seq<CrlEntry>, r: Revocation, f: string)
    requires IsHistory(hist) && Target(r) == Some(f) && !Has(hist, f)
    ensures IsHistory(hist + [EntryFor(r, f)]) && EntryFor(r, f) !in hist
  {
    hide Target, Cleaned;
    TrimmedTargetNonEmpty(r);
    var e, more := EntryFor(r, f), hist + [EntryFor(r, f)];
    assert forall i :: 0 <= i < |hist| ==> more[i] == hist[i] && hist[i].fingerprint != f;
  }

  lemma FullHas(node: Node, hist: seq<CrlEntry>, f: string)
    requires NodeHolds(node, hist) && node.number == |hist| + 1
    ensures Has(node.entries, f) <==> Has(hist, f)
  {
    assert hist[..|hist|] == hist;
    FullNodeHolds(node, hist);
  }

  lemma ListKeeps(s: State, t: nat, order: seq<string>, hist: seq<CrlEntry>)
    requires OrderInv(s, hist) && Orderly(s) && t in s.tasks && s.tasks[t].phase.Current? && s.tasks[t].node in s.nodes
    requires Orderly(Advanced(s, t, true, order))
    ensures OrderInv(Advanced(s, t, true, order), hist + Appended(s, Advance(t, true, order)))
  {
    hide EntriesHold, IsHistory, NodeHolds, NumberOf, Target, EntryFor, Has;
    var task, s' := s.tasks[t], Advanced(s, t, true, order);
    var node := s.nodes[task.node];
    assert TaskHolds(s, task, hist);
    var f := task.operation.fingerprint;
    if Has(node.entries, f) {
      assert hist + [] == hist;
      GoneKeeps(s, t, hist);
    } else {
      var e := EntryFor(task.operation.revocation, f);
      var more := hist + [e];
      FullHas(node, hist, f);
      HistoryLonger(hist, task.operation.revocation, f);
      NodesLonger(s, task.node, e, hist);
      WritersEngaged(s, hist);
      OthersQuiet(s, t);
      assert more[..|more| - 1] == hist;
      assert s'.tasks[t] == task.(phase := Listed(e, node.number + 1));
      forall u | u in s'.tasks
        ensures TaskHolds(s', s'.tasks[u], more)
      {
        if u != t {
          assert Apart(s'.tasks[u], s'.tasks[t]);
          LongerHeld(s, s', s.tasks[u], hist, e);
        }
      }
      assert Writing(s'.tasks[t]);
    }
  }

  lemma EntriesLonger(entries: map<string, CrlEntry>, hist: seq<CrlEntry>)
    requires IsHistory(hist) && hist != [] && EntriesHold(entries, hist[..|hist| - 1])
    ensures var e := hist[|hist| - 1]; EntriesHold(entries[e.fingerprint := e], hist)
  {
    var e, front := hist[|hist| - 1], hist[..|hist| - 1];
    var after := entries[e.fingerprint := e];
    assert forall i :: 0 <= i < |front| ==> front[i] == hist[i];
    forall k | k in after
      ensures exists i :: 0 <= i < |hist| && hist[i].fingerprint == k
    {
      if k == e.fingerprint {
        assert hist[|hist| - 1].fingerprint == k;
      } else {
        var i :| 0 <= i < |front| && front[i].fingerprint == k;
        assert hist[i].fingerprint == k;
      }
    }
  }

  /** A change of the store touches no task that neither reads nor writes. */
  lemma StoreUnseen(s: State, s': State, task: Task, hist: seq<CrlEntry>)
    requires TaskHolds(s, task, hist) && s'.nodes == s.nodes && !Writing(task)
    ensures TaskHolds(s', task, hist)
  {
  }

  lemma StoreKeeps(s: State, t: nat, order: seq<string>, hist: seq<CrlEntry>)
    requires OrderInv(s, hist) && Orderly(s) && t in s.tasks && s.tasks[t].phase.Listed? && s.tasks[t].node in s.nodes
    ensures OrderInv(Advanced(s, t, true, order), hist)
  {
    hide EntriesHold, IsHistory, NodeHolds, NumberOf, Target;
    var task, s' := s.tasks[t], Advanced(s, t, true, order);
    assert TaskHolds(s, task, hist);
    WritersEngaged(s, hist);
    OthersQuiet(s, t);
    EntriesLonger(s.shared.entries, hist);
    forall u | u in s'.tasks
      ensures TaskHolds(s', s'.tasks[u], hist)
    {
      if u != t { StoreUnseen(s, s', s.tasks[u], hist); }
    }
    assert Writing(s'.tasks[t]);
  }

  lemma NumberKeeps(s: State, t: nat, order: seq<string>, hist: seq<CrlEntry>)
    requires OrderInv(s, hist) && Orderly(s) && t in s.tasks && s.tasks[t].phase.Stored? && s.tasks[t].node in s.nodes
    ensures OrderInv(Advanced(s, t, true, order), hist)
  {
    hide EntriesHold, IsHistory, NodeHolds, Target;
    var task, s' := s.tasks[t], Advanced(s, t, true, order);
    assert TaskHolds(s, task, hist);
    WritersEngaged(s, hist);
    OthersQuiet(s, t);
    forall u | u in s'.tasks
      ensures TaskHolds(s', s'.tasks[u], hist)
    {
      StoreUnseen(s, s', s.tasks[u], hist);
    }
  }

  lemma BeginKeeps(s: State, t: nat, n: nat, operation: Operation, hist: seq<CrlEntry>)
    requires OrderInv(s, hist) && t !in s.tasks && n in s.nodes
    requires operation.Withdraw? ==> Target(operation.revocation) == Some(operation.fingerprint)
    ensures OrderInv(At(s, t, Task(n, operation, Begun)), hist)
  {
    hide EntriesHold, IsHistory, NodeHolds, NumberOf, Target;
    var s' := At(s, t, Task(n, operation, Begun));
    forall u | u in s'.tasks
      ensures TaskHolds(s', s'.tasks[u], hist)
    {
      assert u != t ==> TaskHolds(s, s.tasks[u], hist);
    }
    if forall u :: u in s'.tasks ==> !Writing(s'.tasks[u]) {
      assert forall u :: u in s.tasks ==> s'.tasks[u] == s.tasks[u];
    }
  }

  lemma MoveKeeps(s: State, move: Move, s': State, hist: seq<CrlEntry>)
    requires CrlInterleaving.Next(s, move, s') && Orderly(s) && Orderly(s') && Sure(s, move) && OrderInv(s, hist)
    ensures OrderInv(s', hist + Appended(s, move))
  {
    hide Advanced, OrderInv, Orderly, Target, IsListing;
    match move
    case Begin(t, n, operation) =>
      assert hist + [] == hist;
      BeginKeeps(s, t, n, operation, hist);
    case Advance(t, ok, order) =>
      assert hist + [] == hist;
      match s.tasks[t].phase {
        case Begun => if ok { FetchKeeps(s, t, order, hist); } else { MissedKeeps(s, t, order, hist); }
        case Fetched(_) => CountKeeps(s, t, order, hist);
        case Counted(_, _) => MergeKeeps(s, t, order, hist);
        case Current => ListKeeps(s, t, order, hist);
        case Listed(_, _) => StoreKeeps(s, t, order, hist);
        case Stored(_) => NumberKeeps(s, t, order, hist);
      }
  }

  lemma {:induction false} OrderlyKeeps(states: seq<State>, moves: seq<Move>, i: nat)
    requires OrderlyRun(states, moves) && i <= |moves|
    ensures OrderInv(states[i], HistoryOf(states, moves, i))
  {
    hide CrlInterleaving.Next, Orderly, Sure, Appended;
    if i == 0 {
      StartHolds(states[0]);
    } else {
      OrderlyKeeps(states, moves, i - 1);
      assert CrlInterleaving.StepAt(states, moves, i - 1);
      assert Orderly(states[i - 1]) && Orderly(states[i]) && Sure(states[i - 1], moves[i - 1]);
      MoveKeeps(states[i - 1], moves[i - 1], states[i], HistoryOf(states, moves, i - 1));
    }
  }

  lemma StartHolds(s: State)
    requires s.tasks == map[] && Starts(Cluster(s.nodes, s.shared))
    ensures OrderInv(s, [])
  {
    hide Lower;
    var none: seq<CrlEntry> := [];
    assert none[..0] == none;
  }

  lemma {:induction false} HistoryOfGrows(states: seq<State>, moves: seq<Move>, i: nat, j: nat)
    requires i <= j <= |moves| < |states|
    ensures HistoryOf(states, moves, i) <= HistoryOf(states, moves, j)
    decreases j
  {
    hide Appended;
    if i < j {
      HistoryOfGrows(states, moves, i, j - 1);
    }
  }

  lemma OrderlyHeld(states: seq<State>, moves: seq<Move>, i: nat, j: nat, n: nat)
    requires OrderlyRun(states, moves) && i <= j <= |moves| && n in states[i].nodes
    ensures NodeHolds(states[i].nodes[n], HistoryOf(states, moves, j))
  {
    hide CrlInterleaving.StepAt, Orderly, Sure, NodeHolds, HistoryOf;
    OrderlyKeeps(states, moves, i);
    HistoryOfGrows(states, moves, i, j);
    HeldLonger(states[i].nodes[n], HistoryOf(states, moves, i), HistoryOf(states, moves, j));
  }

  /**
    The numbering law of every orderly run, at any two moments and on any two nodes, also while tasks are
    under way: number is entry count + 1, equal numbers mean equal lists, a smaller one a sublist.
   */
  lemma OrderlyNumbering(states: seq<State>, moves: seq<Move>, i: nat, j: nat, a: nat, b: nat)
    requires OrderlyRun(states, moves) && i <= |moves| && j <= |moves|
    requires a in states[i].nodes && b in states[j].nodes
    ensures Numbered(states[i].nodes[a], states[j].nodes[b])
  {
    hide CrlInterleaving.StepAt, Orderly, Sure, Numbered, NodeHolds, HistoryOf, IsHistory;
    var top := if i <= j then j else i;
    OrderlyHeld(states, moves, i, top, a);
    OrderlyHeld(states, moves, j, top, b);
    OrderlyKeeps(states, moves, top);
    HistoryNumbers(states[i].nodes[a], states[j].nodes[b], HistoryOf(states, moves, top));
  }

  /** Tasks that run one at a time are orderly. */
  lemma {:induction false} OneAtATimeIsOrderly(states: seq<State>, moves: seq<Move>, i: nat)
    requires CrlInterleaving.Run(states, moves) && OneAtATime(states, moves) && i <= |moves|
    ensures forall t, u :: t in states[i].tasks && u in states[i].tasks ==> t == u
    ensures Orderly(states[i]) && (i < |moves| ==> Sure(states[i], moves[i]))
  {
    hide Target, EntryFor, Has, Merged, IsListing, Apart;
    if i > 0 {
      OneAtATimeIsOrderly(states, moves, i - 1);
      assert CrlInterleaving.StepAt(states, moves, i - 1) && Alone(states[i - 1], moves[i - 1]);
    }
    if i < |moves| {
      assert Alone(states[i], moves[i]);
    }
  }

  // ----- what breaks without each clause -----

  const NOTHING: Node := Node([], 1)

  const UNWRITTEN: Shared := Shared(map[], None)

  /** Two nodes, the store, and the tasks under way. */
  function Two(first: Node, second: Node, shared: Shared, tasks: map<nat, Task>): State {
    State(map[0 := first, 1 := second], shared, tasks)
  }

  lemma Act(states: seq<State>, moves: seq<Move>, t: nat, ok: bool, order: seq<string>, next: State)
    returns (states': seq<State>, moves': seq<Move>)
    requires CrlInterleaving.Run(states, moves)
    requires var s := states[|moves|]; t in s.tasks && s.tasks[t].node in s.nodes && next == Advanced(s, t, ok, order)
    ensures CrlInterleaving.Run(states', moves') && states'[|moves'|] == next
  {
    hide Advanced;
    states', moves' := Longer(states, moves, Advance(t, ok, order), next);
  }

  function Revoking(r: Revocation, f: string, phase: Phase): Task { Task(0, Withdraw(r, f), phase) }

  function Looking(phase: Phase): Task { Task(1, Lookup, phase) }

  /** One revocation on node 0, beside another task, up to the end of its pull. */
  lemma RevokedUpToPull(states: seq<State>, moves: seq<Move>, others: map<nat, Task>, r: Revocation, f: string)
    returns (states': seq<State>, moves': seq<Move>)
    requires CrlInterleaving.Run(states, moves) && Target(r) == Some(f) && 0 !in others
    requires states[|moves|] == Two(NOTHING, NOTHING, UNWRITTEN, others)
    ensures CrlInterleaving.Run(states', moves')
    ensures states'[|moves'|] == Two(NOTHING, NOTHING, UNWRITTEN, others[0 := Revoking(r, f, Current)])
  {
    hide Target, EntryFor, CrlInterleaving.StepAt;
    var none: map<string, CrlEntry> := map[];
    var begun := Two(NOTHING, NOTHING, UNWRITTEN, others[0 := Revoking(r, f, Begun)]);
    states', moves' := Longer(states, moves, Begin(0, 0, Withdraw(r, f)), begun);
    var fetched := Two(NOTHING, NOTHING, UNWRITTEN, others[0 := Revoking(r, f, Fetched(none))]);
    states', moves' := Act(states', moves', 0, true, [], fetched);
    var counted := Two(NOTHING, NOTHING, UNWRITTEN, others[0 := Revoking(r, f, Counted(none, 1))]);
    states', moves' := Act(states', moves', 0, true, [], counted);
    var current := Two(NOTHING, NOTHING, UNWRITTEN, others[0 := Revoking(r, f, Current)]);
    PullsNothing(counted, current);
    states', moves' := Act(states', moves', 0, true, [], current);
  }

  /** The same, up to its write of the entry. */
  lemma RevokedUpToNumber(states: seq<State>, moves: seq<Move>, others: map<nat, Task>, r: Revocation, f: string)
    returns (states': seq<State>, moves': seq<Move>)
    requires CrlInterleaving.Run(states, moves) && Target(r) == Some(f) && 0 !in others
    requires states[|moves|] == Two(NOTHING, NOTHING, UNWRITTEN, others)
    ensures CrlInterleaving.Run(states', moves')
    ensures var e := EntryFor(r, f);
            states'[|moves'|] == Two(Node([e], 2), NOTHING, Shared(map[f := e], None), others[0 := Revoking(r, f, Stored(2))])
  {
    hide Target, EntryFor, CrlInterleaving.StepAt;
    var e := EntryFor(r, f);
    states', moves' := RevokedUpToPull(states, moves, others, r, f);
    var current := Two(NOTHING, NOTHING, UNWRITTEN, others[0 := Revoking(r, f, Current)]);
    var listed := Two(Node([e], 2), NOTHING, UNWRITTEN, others[0 := Revoking(r, f, Listed(e, 2))]);
    ListsFirst(current, listed, r, f);
    states', moves' := Act(states', moves', 0, true, [], listed);
    var stored := Two(Node([e], 2), NOTHING, Shared(map[f := e], None), others[0 := Revoking(r, f, Stored(2))]);
    states', moves' := Act(states', moves', 0, true, [], stored);
  }

  lemma PullsNothing(s: State, next: State)
    requires 0 in s.tasks && s.tasks[0].phase == Counted(map[], 1) && s.tasks[0].operation.Withdraw? && s.tasks[0].node == 0
    requires 0 in s.nodes && s.nodes[0] == NOTHING && next == At(s, 0, s.tasks[0].(phase := Current))
    ensures next == Advanced(s, 0, true, [])
  {
    assert s.nodes[0 := NOTHING] == s.nodes;
  }

  lemma ListsFirst(s: State, next: State, r: Revocation, f: string)
    requires 0 in s.tasks && s.tasks[0] == Revoking(r, f, Current) && 0 in s.nodes && s.nodes[0] == NOTHING
    requires var e := EntryFor(r, f); next == At(Replaced(s, 0, Node([e], 2)), 0, Revoking(r, f, Listed(e, 2)))
    ensures next == Advanced(s, 0, true, [])
  {
    hide EntryFor;
    var none: seq<CrlEntry> := [];
    assert none + [EntryFor(r, f)] == [EntryFor(r, f)];
  }

  /** One whole revocation on node 0, beside another task. */
  lemma RevokedBeside(states: seq<State>, moves: seq<Move>, others: map<nat, Task>, r: Revocation, f: string)
    returns (states': seq<State>, moves': seq<Move>)
    requires CrlInterleaving.Run(states, moves) && Target(r) == Some(f) && 0 !in others
    requires states[|moves|] == Two(NOTHING, NOTHING, UNWRITTEN, others)
    ensures CrlInterleaving.Run(states', moves')
    ensures var e := EntryFor(r, f); states'[|moves'|] == Two(Node([e], 2), NOTHING, Shared(map[f := e], Some(2)), others)
  {
    hide Target, EntryFor, CrlInterleaving.StepAt;
    var e := EntryFor(r, f);
    states', moves' := RevokedUpToNumber(states, moves, others, r, f);
    assert others[0 := Revoking(r, f, Stored(2))] - {0} == others;
    states', moves' := Act(states', moves', 0, true, [], Two(Node([e], 2), NOTHING, Shared(map[f := e], Some(2)), others));
  }

  lemma Started() returns (states: seq<State>, moves: seq<Move>)
    ensures CrlInterleaving.Run(states, moves) && states[|moves|] == Two(NOTHING, NOTHING, UNWRITTEN, map[])
  {
    states, moves := [Two(NOTHING, NOTHING, UNWRITTEN, map[])], [];
  }

  /**
    A lookup torn by one revocation: it reads the hash before the entry is written and the number after
    the number is, and ends with the number of a list it does not have.
   */
  lemma TornTooHigh(r: Revocation, f: string) returns (states: seq<State>, moves: seq<Move>)
    requires Target(r) == Some(f)
    ensures CrlInterleaving.Run(states, moves)
    ensures states[|moves|] == Two(Node([EntryFor(r, f)], 2), Node([], 2), Shared(map[f := EntryFor(r, f)], Some(2)), map[])
    ensures !Numbered(states[|moves|].nodes[1], states[|moves|].nodes[0])
  {
    hide Target, EntryFor, CrlInterleaving.StepAt;
    var e, none: map<string, CrlEntry> := EntryFor(r, f), map[];
    states, moves := Started();
    states, moves := Longer(states, moves, Begin(1, 1, Lookup), Two(NOTHING, NOTHING, UNWRITTEN, map[1 := Looking(Begun)]));
    var tasks := map[1 := Looking(Fetched(none))];
    states, moves := Act(states, moves, 1, true, [], Two(NOTHING, NOTHING, UNWRITTEN, tasks));
    states, moves := RevokedBeside(states, moves, tasks, r, f);
    var shared := Shared(map[f := e], Some(2));
    states, moves := Act(states, moves, 1, true, [], Two(Node([e], 2), NOTHING, shared, map[1 := Looking(Counted(none, 2))]));
    assert map[1 := Looking(Counted(none, 2))] - {1} == map[];
    assert (map[0 := Node([e], 2), 1 := NOTHING])[1 := Node([], 2)] == map[0 := Node([e], 2), 1 := Node([], 2)];
    states, moves := Act(states, moves, 1, true, [], Two(Node([e], 2), Node([], 2), shared, map[]));
  }

  /**
    The other way round: it reads the hash after the entry is written and the number before the number
    is, and ends with the number of a shorter list than it has.
   */
  lemma TornTooLow(r: Revocation, f: string) returns (states: seq<State>, moves: seq<Move>)
    requires Target(r) == Some(f)
    ensures CrlInterleaving.Run(states, moves)
    ensures states[|moves|] == Two(Node([EntryFor(r, f)], 2), Node([EntryFor(r, f)], 1), Shared(map[f := EntryFor(r, f)], Some(2)), map[])
    ensures !Numbered(states[|moves|].nodes[1], states[|moves|].nodes[0])
  {
    hide Target, EntryFor, CrlInterleaving.StepAt;
    var e, own := EntryFor(r, f), Revoking(r, f, Stored(2));
    states, moves := Started();
    states, moves := RevokedUpToNumber(states, moves, map[], r, f);
    assert map[][0 := own] == map[0 := own];
    states, moves := LookedHalfway(states, moves, own, e, f);
    assert map[0 := own] - {0} == map[];
    states, moves := Act(states, moves, 0, true, [], Two(Node([e], 2), Node([e], 1), Shared(map[f := e], Some(2)), map[]));
  }

  /** A whole lookup on node 1 while an entry is written and its number is not. */
  lemma LookedHalfway(states: seq<State>, moves: seq<Move>, own: Task, e: CrlEntry, f: string)
    returns (states': seq<State>, moves': seq<Move>)
    requires CrlInterleaving.Run(states, moves)
    requires states[|moves|] == Two(Node([e], 2), NOTHING, Shared(map[f := e], None), map[0 := own])
    ensures CrlInterleaving.Run(states', moves')
    ensures states'[|moves'|] == Two(Node([e], 2), Node([e], 1), Shared(map[f := e], None), map[0 := own])
  {
    hide CrlInterleaving.StepAt;
    var entries, first, half := map[f := e], Node([e], 2), Shared(map[f := e], None);
    states', moves' := Longer(states, moves, Begin(1, 1, Lookup), Two(first, NOTHING, half, map[0 := own, 1 := Looking(Begun)]));
    states', moves' := Act(states', moves', 1, true, [], Two(first, NOTHING, half, map[0 := own, 1 := Looking(Fetched(entries))]));
    states', moves' := Act(states', moves', 1, true, [], Two(first, NOTHING, half, map[0 := own, 1 := Looking(Counted(entries, 1))]));
    PullsOneEntry(e, f);
    assert map[0 := own, 1 := Looking(Counted(entries, 1))] - {1} == map[0 := own];
    assert (map[0 := first, 1 := NOTHING])[1 := Node([e], 1)] == map[0 := first, 1 := Node([e], 1)];
    states', moves' := Act(states', moves', 1, true, [f], Two(first, Node([e], 1), half, map[0 := own]));
  }

  lemma PullsOneEntry(e: CrlEntry, f: string)
    ensures IsListing([f], map[f := e].Keys) && Merged([], map[f := e], [f]) == [e]
  {
    var none: seq<CrlEntry> := [];
    assert [f][..0] == [] && Merged(none, map[f := e], []) == none && none + [e] == [e];
  }

  /** A failed read of the hash: the second of two revocations, one after the other, takes the number of the first. */
  lemma MissedHash(r: Revocation, f: string, r': Revocation, f': string) returns (states: seq<State>, moves: seq<Move>)
    requires Target(r) == Some(f) && Target(r') == Some(f') && f != f'
    ensures CrlInterleaving.Run(states, moves)
    ensures var e, e' := EntryFor(r, f), EntryFor(r', f');
            states[|moves|] == Two(Node([e], 2), Node([e'], 2), Shared(map[f := e, f' := e'], Some(2)), map[])
    ensures !Numbered(states[|moves|].nodes[1], states[|moves|].nodes[0])
  {
    hide Target, EntryFor, CrlInterleaving.StepAt;
    var e, e' := EntryFor(r, f), EntryFor(r', f');
    states, moves := Started();
    states, moves := RevokedBeside(states, moves, map[], r, f);
    var first, shared, second := Node([e], 2), Shared(map[f := e], Some(2)), Node([e'], 2);
    states, moves := Longer(states, moves, Begin(1, 1, Withdraw(r', f')), Two(first, NOTHING, shared, map[1 := Task(1, Withdraw(r', f'), Begun)]));
    var current := Two(first, NOTHING, shared, map[1 := Task(1, Withdraw(r', f'), Current)]);
    states, moves := Act(states, moves, 1, false, [], current);
    var listed := Two(first, second, shared, map[1 := Task(1, Withdraw(r', f'), Listed(e', 2))]);
    assert listed == Advanced(current, 1, true, []) by {
      var none: seq<CrlEntry> := [];
      assert none + [e'] == [e'];
      assert current.nodes[1 := second] == listed.nodes;
    }
    states, moves := Act(states, moves, 1, true, [], listed);
    var stored := Two(first, second, Shared(map[f := e, f' := e'], Some(2)), map[1 := Task(1, Withdraw(r', f'), Stored(2))]);
    assert map[f := e][f' := e'] == map[f := e, f' := e'];
    states, moves := Act(states, moves, 1, true, [], stored);
    assert stored.tasks - {1} == map[];
    states, moves := Act(states, moves, 1, true, [], Two(first, second, Shared(map[f := e, f' := e'], Some(2)), map[]));
    assert multiset([e])[e] == 1 && multiset([e'])[e] == 0;
  }
}
