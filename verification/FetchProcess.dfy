/**
  The recursion of one fetch pass as the code runs it (follow/sync.go), step by
  step, with any other events of the machine between two of its steps.
 */
module FetchProcess {
  import opened Dag
  import opened Fetch
  import opened FetchMemo

  type Block = Fetch.Block

  predicate Moves(e: Event, id: nat) {
    (e.Next? || e.Fail? || e.Adopt?) && e.id == id
  }

  predicate Same(w: World, w': World, id: nat) {
    id in w.walks && id in w'.walks && w'.walks[id] == w.walks[id]
  }

  lemma {:induction false} RunLeaves(check: Check, w: World, other: nat, k: Walk, r: Run, id: nat)
    requires id in w.walks && other != id
    ensures Same(w, AdvanceRun(check, w, other, k, r), id)
  {
  }

  lemma {:induction false} AdvanceLeaves(check: Check, w: World, other: nat, k: Walk, id: nat)
    requires id in w.walks && other != id
    ensures Same(w, Advance(check, w, other, k), id)
  {
    if k.run.Some? { RunLeaves(check, w, other, k, k.run.value, id); }
  }

  /** Only its own steps change a walk. */
  lemma {:induction false} OthersLeave(check: Check, policy: Policy, w: World, w': World, e: Event, id: nat)
    requires id in w.walks && !Moves(e, id) && w' == Step(check, policy, w, e)
    ensures Same(w, w', id)
  {
    if e.Next? && e.id in w.walks { AdvanceLeaves(check, w, e.id, w.walks[e.id], id); }
    if e.Adopt? && e.id in w.walks { assert Same(w, Expose(w, e.id, e.head, w.walks[e.id]), id); }
  }

  function Size(b: Block): nat
    decreases b, 0
  {
    match b
    case Segment(_, entries) => 1 + |entries|
    case Index(_, links) => 1 + SizeTo(b, |links|)
    case _ => 1
  }

  function SizeTo(b: Block, n: nat): nat
    requires b.Index? && n <= |b.links|
    decreases b, 0, n
  {
    if n == 0 then 0 else SizeTo(b, n - 1) + Size(b.links[n - 1])
  }

  function Total(bs: seq<Block>, n: nat): nat
    requires n <= |bs|
  {
    if n == 0 then 0 else Total(bs, n - 1) + Size(bs[n - 1])
  }

  lemma {:induction false} TotalConcat(a: seq<Block>, b: seq<Block>, n: nat)
    requires n <= |b|
    ensures Total(a + b, |a| + n) == Total(a, |a|) + Total(b, n)
    decreases n
  {
    if n == 0 { TotalPrefix(a, b, |a|); }
    else {
      TotalConcat(a, b, n - 1);
      assert (a + b)[|a| + n - 1] == b[n - 1];
    }
  }

  lemma {:induction false} TotalPrefix(a: seq<Block>, b: seq<Block>, n: nat)
    requires n <= |a|
    ensures Total(a + b, n) == Total(a, n)
    decreases n
  {
    if n > 0 { TotalPrefix(a, b, n - 1); }
  }

  lemma {:induction false} LinksTotal(c: Block, n: nat)
    requires c.Index? && n <= |c.links|
    ensures Total(c.links, n) == SizeTo(c, n)
    decreases n
  {
    if n > 0 { LinksTotal(c, n - 1); }
  }

  lemma {:induction false} BlobsTotal(bs: seq<Block>, n: nat)
    requires n <= |bs| && forall i | 0 <= i < |bs| :: bs[i].Blob?
    ensures Total(bs, n) == n
    decreases n
  {
    if n > 0 { BlobsTotal(bs, n - 1); }
  }

  /** The children of a block weigh less than it, so the stack runs out. */
  lemma {:induction false} StackShrinks(segs: set<Block>, stack: seq<Block>, rest: seq<Block>, c: Block)
    requires stack == rest + [c]
    ensures Total(rest, |rest|) < Total(stack, |stack|)
    ensures Total(rest + Kids(segs, c), |rest + Kids(segs, c)|) < Total(stack, |stack|)
  {
    var kids := Kids(segs, c);
    TotalConcat(rest, [c], 1);
    assert Total([c], 1) == Total([c], 0) + Size(c);
    TotalConcat(rest, kids, |kids|);
    if c.Index? { LinksTotal(c, |c.links|); }
    else if c.Segment? { BlobsTotal(kids, |kids|); }
  }

  /** A goal a walk has behind it is all local, unless a cut came between. */
  lemma {:induction false} GoalReached(check: Check, policy: Policy, w: World, k: Walk, i: nat)
    requires WalkFine(check, policy, ViewOf(w), w.generation, k) && i < k.next && i < |k.task.goals|
    requires k.task.goals[i].recursive
    ensures k.task.generation == w.generation ==> forall d | Reaches(k.task.goals[i].block, d) :: d in w.local
  {
    if k.task.generation == w.generation {
      var v, g := Aim(ViewOf(w), k.task), k.task.goals[i];
      assert Met(v, g);
      forall d | Reaches(g.block, d) ensures d in w.local { WholeIsReachable(v, g.block, d); }
    }
  }

  /** The walk while it has read i blocks of an expansion. */
  function Reading(k: Walk, r: Run, b: Busy, i: nat): Walk {
    k.(run := Some(r.(busy := Some(b.(got := i)))))
  }

  /** A graph the walk has no reason to refuse. */
  ghost predicate Clean(check: Check, full: bool, t: Task, b: Block)
    decreases b
  {
    && !Refused(full, t, b)
    && (b.Segment? && b in t.segs && full && !t.protecting ==> AllBind(check, b))
    && (b.Segment? && b !in t.segs ==> forall c | c in Blobs(b.entries) :: !Refused(full, t, c))
    && (b.Index? ==> forall k | 0 <= k < |b.links| :: Clean(check, full, t, b.links[k]))
  }

  ghost predicate AllClean(check: Check, full: bool, t: Task, bs: seq<Block>) {
    forall i | 0 <= i < |bs| :: Clean(check, full, t, bs[i])
  }

  lemma {:induction false} KidsClean(check: Check, full: bool, t: Task, b: Block)
    requires Clean(check, full, t, b)
    ensures AllClean(check, full, t, Kids(t.segs, b))
  {
    var kids := Kids(t.segs, b);
    forall i | 0 <= i < |kids| ensures Clean(check, full, t, kids[i]) {
      assert b.Segment? ==> kids[i] in Blobs(b.entries);
    }
  }

  /** The process: the world, how it came about since the process began, and the
      schedule that decides what other goroutines do between two steps of a walk
      and when a fetch fails or its context ends. */
  class Process {
    const check: Check
    const policy: Policy
    const others: nat -> seq<Event>
    const broken: nat -> bool
    ghost const start: World
    ghost var history: seq<Event>
    var world: World
    var clock: nat

    constructor (check: Check, policy: Policy, others: nat -> seq<Event>, broken: nat -> bool, start: World)
      requires Fresh(check, start)
      ensures Valid() && world == start && this.check == check && this.policy == policy && this.others == others
    {
      this.check, this.policy, this.others, this.broken, this.start := check, policy, others, broken, start;
      history, world, clock := [], start, 0;
    }

    ghost predicate Valid()
      reads this
    {
      Fresh(check, start) && world == After(check, policy, start, history)
    }

    ghost predicate Unbroken() {
      forall t: nat :: !broken(t)
    }

    ghost predicate Leaves(id: nat) {
      forall t: nat :: forall e | e in others(t) :: !Moves(e, id)
    }

    lemma Sound()
      requires Valid()
      ensures Inv(check, policy, world)
    {
      RunKeeps(check, policy, start, history);
    }

    lemma SoundNotes()
      requires Valid()
      ensures NotesInv(world)
    {
      NotesAfter(check, policy, start, history);
    }

    method Do(e: Event)
      requires Valid()
      modifies this`world, this`history
      ensures Valid() && world == Step(check, policy, old(world), e)
    {
      assert (history + [e])[..|history + [e]| - 1] == history;
      history := history + [e];
      world := Step(check, policy, world, e);
    }

    /** Whatever the other goroutines do in between. */
    method Elsewhere(id: nat)
      requires Valid() && Leaves(id) && id in world.walks
      modifies this
      ensures Valid() && id in world.walks && world.walks[id] == old(world.walks[id]) && world.full == old(world.full)
    {
      var events := others(clock);
      clock := clock + 1;
      for i := 0 to |events|
        invariant Valid() && id in world.walks && world.walks[id] == old(world.walks[id]) &&
                  world.full == old(world.full)
      {
        ghost var w := world;
        Do(events[i]);
        StepKeepsFull(check, policy, w, events[i]);
        OthersLeave(check, policy, w, world, events[i], id);
      }
    }

    method Quit(id: nat)
      requires Valid() && id in world.walks
      modifies this`world, this`history
      ensures Valid() && id !in world.walks && world.full == old(world.full)
    {
      Do(Fail(id));
    }

    method Enter(id: nat, k: Walk)
      requires Valid() && id in world.walks && world.walks[id] == k
      requires k.run.None? && k.next < |k.task.goals| && k.task.goals[k.next].recursive
      modifies this`world, this`history
      ensures Valid() && id in world.walks
      ensures world.walks[id] == k.(run := Some(Run([k.task.goals[k.next].block], {}, None)))
      ensures world.full == old(world.full)
    {
      Do(Next(id));
    }

    /** done or not: take the top of the stack, and start on it unless it is done. */
    method Visit(id: nat, k: Walk, r: Run) returns (ok: bool, r': Run)
      requires Valid() && id in world.walks && world.walks[id] == k && k.run == Some(r) && r.busy.None? && r.stack != []
      modifies this`world, this`history
      ensures Valid() && ok == (id in world.walks)
      ensures ok ==> world.walks[id] == k.(run := Some(r')) && r'.stack == r.stack[..|r.stack| - 1]
      ensures ok && r'.busy.Some? ==> r'.busy.value.block == r.stack[|r.stack| - 1] && r'.busy.value.got == 0
      ensures world.full == old(world.full)
      ensures !Refused(world.full, k.task, r.stack[|r.stack| - 1]) ==> ok
      ensures ok && r'.busy.Some? && r'.busy.value.checking ==>
              world.full && !k.task.protecting && r'.busy.value.block in k.task.segs
    {
      ghost var w := world;
      Do(Next(id));
      assert world == Pop(w, id, k, r);
      ok, r' := id in world.walks, r;
      if ok { r' := world.walks[id].run.value; }
    }

    method Fetch(id: nat, k: Walk, r: Run, b: Busy) returns (ok: bool)
      requires Valid() && id in world.walks && world.walks[id] == k && k.run == Some(r) && r.busy == Some(b)
      requires b.got < |Need(k.task.segs, b.block)|
      modifies this`world, this`history
      ensures Valid() && ok == (id in world.walks)
      ensures ok ==> world.walks[id] == k.(run := Some(r.(busy := Some(b.(got := b.got + 1)))))
      ensures world.full == old(world.full)
      ensures !Mismatch(check, b) ==> ok
    {
      Do(Next(id));
      return id in world.walks;
    }

    method MarkExpanded(id: nat, k: Walk, r: Run, b: Busy)
      requires Valid() && id in world.walks && world.walks[id] == k && k.run == Some(r) && r.busy == Some(b)
      requires b.got >= |Need(k.task.segs, b.block)|
      modifies this`world, this`history
      ensures Valid() && id in world.walks
      ensures world.walks[id] == k.(run := Some(Expanded(k.task.segs, r, b.block)))
      ensures world.full == old(world.full)
    {
      Do(Next(id));
    }

    method Leave(id: nat, k: Walk, r: Run)
      requires Valid() && id in world.walks && world.walks[id] == k && k.run == Some(r) && r.busy.None? && r.stack == []
      modifies this`world, this`history
      ensures Valid() && id in world.walks
      ensures world.walks[id] == k.(next := k.next + 1, run := None)
      ensures world.full == old(world.full)
      ensures k.next < |k.task.goals| && !k.task.protecting && k.task.generation == world.generation ==>
        forall d | Reaches(k.task.goals[k.next].block, d) && IsIndex(d) :: Current(world.memo, world.generation, d)
    {
      SoundNotes();
      ghost var w := world;
      Do(Next(id));
      assert world == Drain(w, id, k, r);
      if k.next < |k.task.goals| && !k.task.protecting && k.task.generation == w.generation {
        forall d | Reaches(k.task.goals[k.next].block, d) && IsIndex(d)
          ensures Current(world.memo, world.generation, d)
        {
          DrainMemoizesAll(w, id, k, r, d);
        }
      }
    }

    /** One block of an expansion, after whatever happens elsewhere. */
    method FetchNext(id: nat, k: Walk, r: Run, b: Busy, i: nat) returns (ok: bool)
      requires Valid() && Leaves(id) && id in world.walks && world.walks[id] == Reading(k, r, b, i)
      requires i < |Need(k.task.segs, b.block)|
      modifies this
      ensures Valid() && ok == (id in world.walks) && world.full == old(world.full)
      ensures ok ==> world.walks[id] == Reading(k, r, b, i + 1)
      ensures Unbroken() && (b.checking ==> AllBind(check, b.block)) ==> ok
    {
      Elsewhere(id);
      if broken(clock) {
        Quit(id);
        return false;
      }
      ok := Fetch(id, Reading(k, r, b, i), r.(busy := Some(b.(got := i))), b.(got := i));
    }

    method MarkNext(id: nat, k: Walk, r: Run, b: Busy, n: nat)
      requires Valid() && Leaves(id) && id in world.walks && world.walks[id] == Reading(k, r, b, n)
      requires n == |Need(k.task.segs, b.block)|
      modifies this
      ensures Valid() && id in world.walks && world.full == old(world.full)
      ensures world.walks[id] == k.(run := Some(Expanded(k.task.segs, r, b.block)))
    {
      Elsewhere(id);
      MarkExpanded(id, Reading(k, r, b, n), r.(busy := Some(b.(got := n))), b.(got := n));
    }

    /** expand and mark: read the block, and a Segment's blobs, then push the children. */
    method Expand(id: nat, k: Walk, r: Run, b: Busy) returns (ok: bool)
      requires Valid() && Leaves(id) && id in world.walks && world.walks[id] == Reading(k, r, b, 0)
      modifies this
      ensures Valid() && ok == (id in world.walks) && world.full == old(world.full)
      ensures ok ==> world.walks[id] == k.(run := Some(Expanded(k.task.segs, r, b.block)))
      ensures Unbroken() && (b.checking ==> AllBind(check, b.block)) ==> ok
    {
      var n := |Need(k.task.segs, b.block)|;
      for i := 0 to n
        invariant Valid() && world.full == old(world.full)
        invariant id in world.walks && world.walks[id] == Reading(k, r, b, i)
      {
        ok := FetchNext(id, k, r, b, i);
        if !ok { return; }
      }
      MarkNext(id, k, r, b, n);
      return true;
    }

    /** One turn of the loop: the top of the stack is done, or gives way to its children. */
    method Turn(id: nat, k: Walk, r: Run) returns (ok: bool, r': Run)
      requires Valid() && Leaves(id) && id in world.walks && world.walks[id] == k && k.run == Some(r)
      requires r.busy.None? && r.stack != []
      modifies this
      ensures Valid() && ok == (id in world.walks) && world.full == old(world.full)
      ensures ok ==>
              world.walks[id] == k.(run := Some(r')) && r'.busy.None? &&
              Total(r'.stack, |r'.stack|) < Total(r.stack, |r.stack|)
      ensures Unbroken() && AllClean(check, old(world.full), k.task, r.stack) ==>
              ok && AllClean(check, old(world.full), k.task, r'.stack)
    {
      Elsewhere(id);
      r' := r;
      if broken(clock) {
        Quit(id);
        return false, r;
      }
      var rest, c := r.stack[..|r.stack| - 1], r.stack[|r.stack| - 1];
      StackShrinks(k.task.segs, r.stack, rest, c);
      ok, r' := Visit(id, k, r);
      if ok && r'.busy.Some? {
        ok := Expand(id, k.(run := Some(r')), r', r'.busy.value);
        if AllClean(check, world.full, k.task, r.stack) { KidsClean(check, world.full, k.task, c); }
        r' := Expanded(k.task.segs, r', c);
      }
    }

    /** Fetch a block and everything reachable from it. If the walk comes back and
        no collection began since it started, all of that is local and, unless the
        walk only protects, its index blocks are memoized; it fails only when a
        fetch does or the graph holds something to refuse. */
    method Recurse(id: nat) returns (ok: bool)
      requires Valid() && Leaves(id) && id in world.walks
      requires var k := world.walks[id]; k.run.None? && k.next < |k.task.goals| && k.task.goals[k.next].recursive
      modifies this
      ensures Valid() && ok == (id in world.walks)
      ensures ok ==> var k := old(world.walks[id]);
        && world.walks[id] == k.(next := k.next + 1)
        && (k.task.generation == world.generation ==>
              forall d | Reaches(k.task.goals[k.next].block, d) :: d in world.local)
        && (k.task.generation == world.generation && !k.task.protecting ==>
              forall d | Reaches(k.task.goals[k.next].block, d) && IsIndex(d) ::
                Current(world.memo, world.generation, d))
      ensures var k := old(world.walks[id]);
        Unbroken() && Clean(check, old(world.full), k.task, k.task.goals[k.next].block) ==> ok
    {
      var k := world.walks[id];
      ghost var clean := Unbroken() && Clean(check, world.full, k.task, k.task.goals[k.next].block);
      Enter(id, k);
      var r := Run([k.task.goals[k.next].block], {}, None);
      while r.stack != []
        invariant Valid() && id in world.walks && world.walks[id] == k.(run := Some(r)) && r.busy.None?
        invariant world.full == old(world.full) && (clean ==> AllClean(check, world.full, k.task, r.stack))
        decreases Total(r.stack, |r.stack|)
      {
        ok, r := Turn(id, k.(run := Some(r)), r);
        if !ok { return; }
      }
      Elsewhere(id);
      Leave(id, k.(run := Some(r)), r);
      Sound();
      GoalReached(check, policy, world, world.walks[id], k.next);
      return true;
    }
  }
}
