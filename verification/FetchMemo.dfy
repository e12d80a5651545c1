/**
  What the memo of the fetch passes covers (follow/sync.go).

  Beside being true, the memo is closed under links: with an entry of the current
  generation it has one for every index block below it. A walk that drains makes
  this so, because it marks every index block it meets before it publishes.
 */
module FetchMemo {
  import opened Dag
  import opened Fetch

  type Block = Fetch.Block

  predicate Current(memo: map<Block, nat>, generation: nat, b: Block) {
    b in memo && memo[b] == generation
  }

  /** An index block the walk has done, has in hand or still has to do. */
  predicate Noted(memo: map<Block, nat>, generation: nat, r: Run, b: Block) {
    IsIndex(b) ==>
      b in r.pending || b in r.stack || (r.busy.Some? && r.busy.value.block == b) || Current(memo, generation, b)
  }

  predicate LinksNoted(memo: map<Block, nat>, generation: nat, r: Run, p: Block) {
    p.Index? ==> forall i | 0 <= i < |p.links| :: Noted(memo, generation, r, p.links[i])
  }

  predicate NotesOk(memo: map<Block, nat>, generation: nat, r: Run, root: Block) {
    Noted(memo, generation, r, root) && forall p | p in r.pending :: LinksNoted(memo, generation, r, p)
  }

  predicate LinksCurrent(memo: map<Block, nat>, generation: nat, c: Block) {
    c.Index? ==> forall i | 0 <= i < |c.links| && IsIndex(c.links[i]) :: Current(memo, generation, c.links[i])
  }

  ghost predicate MemoClosed(memo: map<Block, nat>, generation: nat) {
    forall c | Current(memo, generation, c) :: LinksCurrent(memo, generation, c)
  }

  predicate WalkNoted(memo: map<Block, nat>, generation: nat, k: Walk) {
    k.task.generation == generation && k.run.Some? ==>
      k.next < |k.task.goals| && NotesOk(memo, generation, k.run.value, k.task.goals[k.next].block)
  }

  /** With an entry of the current generation comes one for every index block
      below it, and every walk under way is about to make that true of its own. */
  ghost predicate NotesInv(w: World) {
    && MemoClosed(w.memo, w.generation) && (forall c | c in w.memo :: w.memo[c] <= w.generation)
    && (forall id | id in w.walks :: w.walks[id].task.generation <= w.generation)
    && forall id | id in w.walks :: WalkNoted(w.memo, w.generation, w.walks[id])
  }

  lemma {:induction false} ClosedReaches(memo: map<Block, nat>, generation: nat, b: Block, d: Block)
    requires MemoClosed(memo, generation) && Current(memo, generation, b) && Reaches(b, d) && IsIndex(d)
    ensures Current(memo, generation, d)
    decreases b
  {
    if b != d && b.Index? {
      var k: nat :| k < |b.links| && Reaches(b.links[k], d);
      assert LinksCurrent(memo, generation, b);
      ReachesFromIndex(b.links[k], d);
      ClosedReaches(memo, generation, b.links[k], d);
    }
  }

  lemma {:induction false} ReachesFromIndex(b: Block, d: Block)
    requires Reaches(b, d) && IsIndex(d)
    ensures IsIndex(b)
  {
  }

  ghost predicate NotesKept(memo: map<Block, nat>, generation: nat, r: Run, r': Run) {
    forall b | Noted(memo, generation, r, b) :: Noted(memo, generation, r', b)
  }

  lemma {:induction false} NotesMove(memo: map<Block, nat>, generation: nat, r: Run, r': Run, root: Block)
    requires NotesOk(memo, generation, r, root) && NotesKept(memo, generation, r, r')
    requires forall p | p in r'.pending && p !in r.pending :: LinksNoted(memo, generation, r', p)
    ensures NotesOk(memo, generation, r', root)
  {
    forall p | p in r'.pending && p in r.pending ensures LinksNoted(memo, generation, r', p) {
      assert LinksNoted(memo, generation, r, p);
    }
  }

  lemma {:induction false} PopNotes(w: World, t: Task, r: Run, c: Block, rest: seq<Block>, root: Block,
                                    busy: Option<Busy>)
    requires NotesOk(w.memo, w.generation, r, root) && r.busy.None? && r.stack == rest + [c]
    requires t.generation == w.generation
    requires if busy.Some? then busy.value.block == c else Done(w, t, r, c)
    ensures NotesOk(w.memo, w.generation, Run(rest, r.pending, busy), root)
  {
    var r' := Run(rest, r.pending, busy);
    assert NotesKept(w.memo, w.generation, r, r');
    NotesMove(w.memo, w.generation, r, r', root);
  }

  lemma {:induction false} MarkNotes(memo: map<Block, nat>, generation: nat, segs: set<Block>, r: Run, b: Busy,
                                     root: Block)
    requires NotesOk(memo, generation, r, root) && r.busy == Some(b)
    ensures NotesOk(memo, generation, Expanded(segs, r, b.block), root)
  {
    var r' := Expanded(segs, r, b.block);
    assert NotesKept(memo, generation, r, r');
    if b.block.Index? {
      forall i | 0 <= i < |b.block.links| ensures Noted(memo, generation, r', b.block.links[i]) {
        assert r'.stack[|r.stack| + i] == b.block.links[i];
      }
    }
    NotesMove(memo, generation, r, r', root);
  }

  /** Once the stack is empty the marks and the memo together are closed. */
  lemma {:induction false} DrainCloses(memo: map<Block, nat>, generation: nat, r: Run, root: Block)
    requires MemoClosed(memo, generation) && NotesOk(memo, generation, r, root) && r.stack == [] && r.busy.None?
    ensures MemoClosed(Memoized(memo, r.pending, generation), generation)
    ensures IsIndex(root) ==> Current(Memoized(memo, r.pending, generation), generation, root)
  {
    var memo' := Memoized(memo, r.pending, generation);
    forall c | Current(memo', generation, c) ensures LinksCurrent(memo', generation, c) {
      if c in r.pending {
        assert LinksNoted(memo, generation, r, c);
      } else {
        assert LinksCurrent(memo, generation, c);
      }
    }
  }

  /** More entries of the current generation leave every walk's notes in order. */
  lemma {:induction false} NotesGrow(memo: map<Block, nat>, memo': map<Block, nat>, generation: nat, k: Walk)
    requires WalkNoted(memo, generation, k) && forall b | Current(memo, generation, b) :: Current(memo', generation, b)
    ensures WalkNoted(memo', generation, k)
  {
    if k.task.generation == generation && k.run.Some? {
      var r, root := k.run.value, k.task.goals[k.next].block;
      assert Noted(memo', generation, r, root);
      forall p | p in r.pending ensures LinksNoted(memo', generation, r, p) {
        assert LinksNoted(memo, generation, r, p);
      }
    }
  }

  lemma {:induction false} WithNotes(w: World, id: nat, k: Walk)
    requires NotesInv(w) && k.task.generation <= w.generation && WalkNoted(w.memo, w.generation, k)
    ensures NotesInv(With(w, id, k))
  {
  }

  lemma {:induction false} TouchNotes(w: World, c: Block)
    requires NotesInv(w)
    ensures NotesInv(Touch(w, c))
  {
  }

  lemma {:induction false} DropNotes(w: World, id: nat)
    requires NotesInv(w)
    ensures NotesInv(Drop(w, id))
  {
  }

  lemma {:induction false} DrainNotes(w: World, id: nat, k: Walk, r: Run)
    requires NotesInv(w) && id in w.walks && w.walks[id] == k && k.run == Some(r) && r.stack == [] && r.busy.None?
    ensures NotesInv(Drain(w, id, k, r))
  {
    var k' := k.(next := k.next + 1, run := None);
    if k.task.protecting || k.task.generation != w.generation {
      WithNotes(w, id, k');
    } else {
      var memo' := Memoized(w.memo, r.pending, w.generation);
      assert WalkNoted(w.memo, w.generation, k);
      DrainCloses(w.memo, w.generation, r, k.task.goals[k.next].block);
      forall j | j in w.walks ensures WalkNoted(memo', w.generation, w.walks[j]) {
        NotesGrow(w.memo, memo', w.generation, w.walks[j]);
      }
      WithNotes(w.(memo := memo'), id, k');
    }
  }

  lemma {:induction false} PopNotesKept(w: World, id: nat, k: Walk, r: Run)
    requires NotesInv(w) && id in w.walks && w.walks[id] == k && k.run == Some(r) && r.stack != [] && r.busy.None?
    ensures NotesInv(Pop(w, id, k, r))
  {
    var c, rest := r.stack[|r.stack| - 1], r.stack[..|r.stack| - 1];
    assert WalkNoted(w.memo, w.generation, k);
    if Done(w, k.task, r, c) {
      if k.task.generation == w.generation { PopNotes(w, k.task, r, c, rest, k.task.goals[k.next].block, None); }
      WithNotes(w, id, k.(run := Some(Run(rest, r.pending, None))));
    } else if Refused(w.full, k.task, c) {
      DropNotes(w, id);
    } else {
      var busy := Some(Starting(w, k.task, c));
      if k.task.generation == w.generation { PopNotes(w, k.task, r, c, rest, k.task.goals[k.next].block, busy); }
      WithNotes(w, id, k.(run := Some(Run(rest, r.pending, busy))));
    }
  }

  lemma {:induction false} ReadNotes(check: Check, w: World, id: nat, k: Walk, r: Run, b: Busy)
    requires NotesInv(w) && id in w.walks && w.walks[id] == k && k.run == Some(r) && r.busy == Some(b)
    requires b.got < |Need(k.task.segs, b.block)|
    ensures NotesInv(Read(check, w, id, k, r, b))
  {
    var n := Need(k.task.segs, b.block)[b.got];
    TouchNotes(w, n);
    if Mismatch(check, b) {
      DropNotes(Touch(w, n), id);
    } else {
      var r' := r.(busy := Some(b.(got := b.got + 1)));
      assert WalkNoted(w.memo, w.generation, k);
      if k.task.generation == w.generation {
        assert NotesKept(w.memo, w.generation, r, r');
        NotesMove(w.memo, w.generation, r, r', k.task.goals[k.next].block);
      }
      WithNotes(Touch(w, n), id, k.(run := Some(r')));
    }
  }

  lemma {:induction false} MarkNotesKept(w: World, id: nat, k: Walk, r: Run, b: Busy)
    requires NotesInv(w) && id in w.walks && w.walks[id] == k && k.run == Some(r) && r.busy == Some(b)
    ensures NotesInv(Mark(w, id, k, r, b))
  {
    var w1 := if b.checking then w.(verified := w.verified + {b.block}) else w;
    assert WalkNoted(w.memo, w.generation, k);
    if k.task.generation == w.generation {
      MarkNotes(w.memo, w.generation, k.task.segs, r, b, k.task.goals[k.next].block);
    }
    assert NotesInv(w1);
    WithNotes(w1, id, k.(run := Some(Expanded(k.task.segs, r, b.block))));
  }

  lemma {:induction false} TakeNotes(w: World, id: nat, k: Walk)
    requires NotesInv(w) && id in w.walks && w.walks[id] == k && k.run.None? && k.next < |k.task.goals|
    ensures NotesInv(Take(w, id, k))
  {
    var g := k.task.goals[k.next];
    if g.recursive {
      var r := Run([g.block], {}, None);
      assert r.stack[0] == g.block;
      WithNotes(w, id, k.(run := Some(r)));
    } else {
      TouchNotes(w, g.block);
      WithNotes(Touch(w, g.block), id, k.(next := k.next + 1));
    }
  }

  lemma {:induction false} RunNotesKept(check: Check, w: World, id: nat, k: Walk, r: Run)
    requires NotesInv(w) && id in w.walks && w.walks[id] == k && k.run == Some(r)
    ensures NotesInv(AdvanceRun(check, w, id, k, r))
  {
    if r.busy.Some? {
      if r.busy.value.got < |Need(k.task.segs, r.busy.value.block)| { ReadNotes(check, w, id, k, r, r.busy.value); }
      else { MarkNotesKept(w, id, k, r, r.busy.value); }
    }
    else if r.stack != [] { PopNotesKept(w, id, k, r); }
    else { DrainNotes(w, id, k, r); }
  }

  lemma {:induction false} FinishNotes(w: World, id: nat, t: Task)
    requires NotesInv(w)
    ensures NotesInv(Finish(w, id, t))
  {
    if !t.protecting && t.generation == w.generation && t.head in w.heads {
      DropNotes(w.(heads := w.heads[t.head := StampedHead(t, w.heads[t.head])]), id);
    }
    DropNotes(w, id);
  }

  lemma {:induction false} ExposeNotes(w: World, id: nat, head: nat, k: Walk)
    requires NotesInv(w)
    ensures NotesInv(Expose(w, id, head, k))
  {
    var w1 := Installed(w, head, Some(k.task.root), k.task.tip);
    assert NotesInv(w1);
    DropNotes(w1, id);
    DropNotes(w, id);
  }

  lemma {:induction false} AdvanceNotes(check: Check, w: World, id: nat, k: Walk)
    requires NotesInv(w) && id in w.walks && w.walks[id] == k
    ensures NotesInv(Advance(check, w, id, k))
  {
    if k.run.Some? { RunNotesKept(check, w, id, k, k.run.value); }
    else if k.next < |k.task.goals| { TakeNotes(w, id, k); }
    else { FinishNotes(w, id, k.task); }
  }

  lemma {:induction false} StepNotes(check: Check, policy: Policy, w: World, e: Event)
    requires NotesInv(w)
    ensures NotesInv(Step(check, policy, w, e))
  {
    match e
    case Begin =>
    case End =>
    case Delete(c) =>
    case Access(c) => TouchNotes(w, c);
    case Sync(id, head, segs) =>
      var h := InfoOf(w, head);
      if h.root.adopted.Some? { WithNotes(w, id, Walk(SyncTask(policy, w.generation, head, h, segs), 0, None)); }
    case Protect(id, root, tip) => WithNotes(w, id, Walk(ProtectTask(policy, w, root, tip), 0, None));
    case Adopt(id, head) => if id in w.walks { ExposeNotes(w, id, head, w.walks[id]); }
    case Withdraw(head) =>
    case Next(id) => if id in w.walks { AdvanceNotes(check, w, id, w.walks[id]); }
    case Fail(id) => DropNotes(w, id);
  }

  lemma {:induction false} NotesAfter(check: Check, policy: Policy, w: World, trace: seq<Event>)
    requires Fresh(check, w)
    ensures NotesInv(After(check, policy, w, trace))
    decreases |trace|
  {
    if trace != [] {
      NotesAfter(check, policy, w, trace[..|trace| - 1]);
      StepNotes(check, policy, After(check, policy, w, trace[..|trace| - 1]), trace[|trace| - 1]);
    }
  }

  /** In every reachable world an entry of the current generation stands for a
      whole subtree of entries: a later walk that meets any index block below it
      has nothing left to read there. */
  lemma {:induction false} MemoCoversSubtrees(check: Check, policy: Policy, w: World, trace: seq<Event>, c: Block,
                                              d: Block)
    requires Fresh(check, w)
    requires var w' := After(check, policy, w, trace); Current(w'.memo, w'.generation, c) && Reaches(c, d) && IsIndex(d)
    ensures var w' := After(check, policy, w, trace); Current(w'.memo, w'.generation, d)
  {
    NotesAfter(check, policy, w, trace);
    var w' := After(check, policy, w, trace);
    ClosedReaches(w'.memo, w'.generation, c, d);
  }

  /** When a walk that may publish drains in its own generation, the memo comes to
      have every index block reachable from its goal. */
  lemma {:induction false} DrainMemoizesAll(w: World, id: nat, k: Walk, r: Run, d: Block)
    requires NotesInv(w) && id in w.walks && w.walks[id] == k && k.run == Some(r) && r.stack == [] && r.busy.None?
    requires !k.task.protecting && k.task.generation == w.generation
    requires k.next < |k.task.goals| && Reaches(k.task.goals[k.next].block, d) && IsIndex(d)
    ensures var w' := Drain(w, id, k, r); Current(w'.memo, w'.generation, d)
  {
    var root := k.task.goals[k.next].block;
    assert WalkNoted(w.memo, w.generation, k);
    DrainCloses(w.memo, w.generation, r, root);
    ReachesFromIndex(root, d);
    ClosedReaches(Memoized(w.memo, r.pending, w.generation), w.generation, root, d);
  }
}
