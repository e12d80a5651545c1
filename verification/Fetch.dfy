/**
  The fetch pass and the collector it races (follow/sync.go, store/epoch.go).

  A pass makes everything a head pins local. It walks links depth first and
  remembers finished subtrees in a memo shared by all passes. A collector may
  run at any time: beginning an epoch moves the collection generation, and until
  the epoch ends it may delete any block that no reader or writer has touched in
  it. Memo entries carry the generation they were proved in.

  The module is a state machine: a World is the store, the memo and every pass
  in flight, an Event is one atomic step of one pass or of the collector. The
  invariant says what a memo entry and a completion stamp of the current
  generation are worth, in every world any interleaving reaches.
 */
module Fetch {
  import opened Dag

  /* ---- Blocks ---- */

  datatype Entry = Entry(hash: nat, blob: nat)

  /** A block with the blocks it links to in place of their hashes. Segment is a
      block the enumeration validated as one; Foreign has neither of the two codecs. */
  datatype Block =
    | Blob(id: nat)
    | Segment(tag: nat, entries: seq<Entry>)
    | Index(tag: nat, links: seq<Block>)
    | Foreign(codec: nat)

  ghost predicate Reaches(b: Block, d: Block)
    decreases b
  {
    || b == d
    || (b.Segment? && exists k: nat | k < |b.entries| :: d == Blob(b.entries[k].blob))
    || (b.Index? && exists k: nat | k < |b.links| :: Reaches(b.links[k], d))
  }

  /** Whether the commitment of a blob is the hash the entry states. */
  type Check = Entry -> bool

  predicate AllBind(check: Check, b: Block) {
    b.Segment? ==> forall k | 0 <= k < |b.entries| :: check(b.entries[k])
  }

  /* ---- What the store vouches for ---- */

  /** held: the blocks present and safe from the collector until it begins
      another epoch; full: blobs must be bound to hashes; verified: the Segments
      whose entries all were. */
  datatype View = View(held: set<Block>, full: bool, verified: set<Block>)

  /** Everything below b is held, and under full verification every blob below it
      comes through a verified Segment. */
  ghost predicate Whole(v: View, b: Block)
    decreases b
  {
    b in v.held &&
    match b
    case Blob(_) => !v.full
    case Segment(_, entries) =>
      (forall k | 0 <= k < |entries| :: Blob(entries[k].blob) in v.held) &&
        (v.full && entries != [] ==> b in v.verified)
    case Index(_, links) => forall k | 0 <= k < |links| :: Whole(v, links[k])
    case Foreign(_) => false
  }

  ghost predicate Grows(v: View, v': View) {
    v.full == v'.full && v.held <= v'.held && v.verified <= v'.verified
  }

  lemma {:induction false} WholeGrows(v: View, v': View, b: Block)
    requires Grows(v, v') && Whole(v, b)
    ensures Whole(v', b)
    decreases b
  {
    if b.Index? {
      forall k | 0 <= k < |b.links| ensures Whole(v', b.links[k]) {
        WholeGrows(v, v', b.links[k]);
      }
    }
  }

  /** What protection-only walks ask for is less than what full ones prove. */
  lemma {:induction false} WholeRelaxes(v: View, b: Block)
    requires Whole(v, b)
    ensures Whole(v.(full := false), b)
    decreases b
  {
    if b.Index? {
      forall k | 0 <= k < |b.links| ensures Whole(v.(full := false), b.links[k]) {
        WholeRelaxes(v, b.links[k]);
      }
    }
  }

  /** Whole is what it should be: no block that can be reached is missing. */
  lemma {:induction false} WholeIsReachable(v: View, b: Block, d: Block)
    requires Whole(v, b) && Reaches(b, d)
    ensures d in v.held
    decreases b
  {
    if b != d && b.Index? {
      var k: nat :| k < |b.links| && Reaches(b.links[k], d);
      WholeIsReachable(v, b.links[k], d);
    }
  }

  /** Under full verification every Segment that can be reached was verified, and
      a blob can only be reached through a Segment. */
  lemma {:induction false} WholeIsVerified(v: View, b: Block, d: Block)
    requires Whole(v, b) && v.full && Reaches(b, d)
    ensures d.Segment? && d.entries != [] ==> d in v.verified
    ensures d.Blob? ==> exists s: Block, k: nat ::
      Reaches(b, s) && s in v.verified && s.Segment? && k < |s.entries| && s.entries[k].blob == d.id
    decreases b
  {
    if b.Segment? && d.Blob? {
      var k: nat :| k < |b.entries| && d == Blob(b.entries[k].blob);
      assert Reaches(b, b);
      assert b.entries[k].blob == d.id;
    } else if b != d && b.Index? {
      var i: nat :| i < |b.links| && Reaches(b.links[i], d);
      WholeIsVerified(v, b.links[i], d);
      if d.Blob? {
        var s: Block, k: nat :| Reaches(b.links[i], s) && s in v.verified && s.Segment? && k < |s.entries| &&
          s.entries[k].blob == d.id;
        assert Reaches(b, s);
      }
    }
  }

  /* ---- The state ---- */

  datatype Goal = Goal(block: Block, recursive: bool)

  ghost predicate Met(v: View, g: Goal) {
    if g.recursive then Whole(v, g.block) else g.block in v.held
  }

  /** The pins a retention policy wants for a root. */
  type Policy = Block -> seq<Goal>

  /** One pass: the snapshot of a head it works for, what was stale in it, the
      generation it is bound to, the Segments it knows, and the goals that follow. */
  datatype Task = Task(head: nat, root: Block, tip: Option<Block>, rootStale: bool, tipStale: bool,
                       protecting: bool, generation: nat, segs: set<Block>, goals: seq<Goal>)

  /** A block being expanded: how many of the blocks it needs were read, and
      whether the bindings of its blobs are being checked. */
  datatype Busy = Busy(block: Block, got: nat, checking: bool)

  /** A recursion under way. */
  datatype Run = Run(stack: seq<Block>, pending: set<Block>, busy: Option<Busy>)

  datatype Walk = Walk(task: Task, next: nat, run: Option<Run>)

  /** A root or a manifest tip of a head. adopted: what the head serves, if
      anything; since: the generation it was adopted in; fetched: the completion
      marker; stamp: the generation that was set in. */
  datatype Pointer = Pointer(adopted: Option<Block>, since: nat, fetched: Option<Block>, stamp: nat)

  datatype HeadInfo = HeadInfo(root: Pointer, tip: Pointer)

  datatype World = World(
    full: bool, local: set<Block>, active: bool, touched: set<Block>, generation: nat,
    verified: set<Block>, memo: map<Block, nat>, walks: map<nat, Walk>, heads: map<nat, HeadInfo>)

  /** While an epoch is active only touched blocks are safe; between epochs all are. */
  function Held(w: World): set<Block> {
    if w.active then w.local * w.touched else w.local
  }

  function ViewOf(w: World): View {
    View(Held(w), w.full, w.verified)
  }

  /** What a task proves: a protection-only walk checks no binding. */
  function Aim(v: View, t: Task): View {
    v.(full := v.full && !t.protecting)
  }

  /* ---- The store ---- */

  function BeginEpoch(w: World): World {
    if w.active then w else w.(active := true, touched := {}, generation := w.generation + 1)
  }

  function EndEpoch(w: World): World {
    w.(active := false)
  }

  function DeleteCandidate(w: World, c: Block): World {
    if !w.active || c in w.touched then w else w.(local := w.local - {c})
  }

  /** A successful read or write: the block is present and, in an epoch, touched. */
  function Touch(w: World, c: Block): World {
    w.(local := w.local + {c}, touched := if w.active then w.touched + {c} else w.touched)
  }

  /* ---- One walk ---- */

  function Blobs(entries: seq<Entry>): seq<Block> {
    seq(|entries|, i requires 0 <= i < |entries| => Blob(entries[i].blob))
  }

  /** The blocks expanding c reads: c itself, and the blobs of a known Segment. */
  function Need(segs: set<Block>, c: Block): seq<Block> {
    [c] + (if c in segs && c.Segment? then Blobs(c.entries) else [])
  }

  function Kids(segs: set<Block>, c: Block): seq<Block> {
    match c
    case Segment(_, entries) => if c in segs then [] else Blobs(entries)
    case Index(_, links) => links
    case _ => []
  }

  predicate IsIndex(c: Block) {
    c.Segment? || c.Index?
  }

  predicate Done(w: World, t: Task, r: Run, c: Block) {
    IsIndex(c) && (c in r.pending || (c in w.memo && w.memo[c] == t.generation))
  }

  /** Codecs the walk refuses, blobs nothing binds under full verification, and
      Segments that do not decode. */
  predicate Refused(full: bool, t: Task, c: Block) {
    c.Foreign? || (c.Blob? && full && !t.protecting) || (c in t.segs && !c.Segment?)
  }

  function With(w: World, id: nat, k: Walk): World {
    w.(walks := w.walks[id := k])
  }

  function Drop(w: World, id: nat): World {
    w.(walks := map i | i in w.walks && i != id :: w.walks[i])
  }

  function RootGoals(policy: Policy, stale: bool, root: Block): seq<Goal> {
    if stale then policy(root) else []
  }

  function TipGoals(stale: bool, tip: Option<Block>): seq<Goal> {
    if stale && tip.Some? then [Goal(tip.value, true)] else []
  }

  /** Take the next goal: a direct pin is one read, a recursive one a walk. */
  function Take(w: World, id: nat, k: Walk): World
    requires k.next < |k.task.goals|
  {
    var g := k.task.goals[k.next];
    if g.recursive then With(w, id, k.(run := Some(Run([g.block], {}, None))))
    else With(Touch(w, g.block), id, k.(next := k.next + 1))
  }

  function Starting(w: World, t: Task, c: Block): Busy {
    Busy(c, 0, w.full && !t.protecting && c in t.segs && c !in w.verified)
  }

  /** done or not: take the top of the stack, and expand it unless it is done. */
  function Pop(w: World, id: nat, k: Walk, r: Run): World
    requires r.stack != []
  {
    var c := r.stack[|r.stack| - 1];
    var rest := r.stack[..|r.stack| - 1];
    if Done(w, k.task, r, c) then With(w, id, k.(run := Some(Run(rest, r.pending, None))))
    else if Refused(w.full, k.task, c) then Drop(w, id)
    else With(w, id, k.(run := Some(Run(rest, r.pending, Some(Starting(w, k.task, c))))))
  }

  /** Whether the blob just read is one whose binding fails. */
  predicate Mismatch(check: Check, b: Busy) {
    b.checking && b.block.Segment? && 0 < b.got <= |b.block.entries| && !check(b.block.entries[b.got - 1])
  }

  /** Read the next block of the expansion; a blob that does not match its hash fails the walk. */
  function Read(check: Check, w: World, id: nat, k: Walk, r: Run, b: Busy): World
    requires b.got < |Need(k.task.segs, b.block)|
  {
    var w1 := Touch(w, Need(k.task.segs, b.block)[b.got]);
    if Mismatch(check, b) then Drop(w1, id)
    else With(w1, id, k.(run := Some(r.(busy := Some(b.(got := b.got + 1))))))
  }

  function Expanded(segs: set<Block>, r: Run, c: Block): Run {
    Run(r.stack + Kids(segs, c), if IsIndex(c) then r.pending + {c} else r.pending, None)
  }

  /** The expansion is over: record the Segment's proof, mark, push the children. */
  function Mark(w: World, id: nat, k: Walk, r: Run, b: Busy): World {
    var w1 := if b.checking then w.(verified := w.verified + {b.block}) else w;
    With(w1, id, k.(run := Some(Expanded(k.task.segs, r, b.block))))
  }

  function Memoized(memo: map<Block, nat>, marks: set<Block>, generation: nat): map<Block, nat> {
    map c | c in memo.Keys + marks :: if c in marks then generation else memo[c]
  }

  /** The stack drained: publish the marks unless the walk may not, or crossed a cut. */
  function Drain(w: World, id: nat, k: Walk, r: Run): World {
    var w1 := if k.task.protecting || k.task.generation != w.generation then w
              else w.(memo := Memoized(w.memo, r.pending, w.generation));
    With(w1, id, k.(next := k.next + 1, run := None))
  }

  /** Stamp a pointer the pass fetched, if it is still what the head serves. */
  function Stamped(p: Pointer, stale: bool, block: Option<Block>, generation: nat): Pointer {
    if stale && block.Some? && p.adopted == block then p.(fetched := block, stamp := generation) else p
  }

  function StampedHead(t: Task, h: HeadInfo): HeadInfo {
    HeadInfo(Stamped(h.root, t.rootStale, Some(t.root), t.generation), Stamped(h.tip, t.tipStale, t.tip, t.generation))
  }

  /** All goals are met: stamp, unless the pass crossed a cut. A protecting pass
      leaves its proof for the adoption it was made for. */
  function Finish(w: World, id: nat, t: Task): World {
    if t.protecting then w
    else if t.generation != w.generation || t.head !in w.heads then Drop(w, id)
    else Drop(w.(heads := w.heads[t.head := StampedHead(t, w.heads[t.head])]), id)
  }

  /* ---- Adoption ---- */

  const UNSERVED: HeadInfo := HeadInfo(Pointer(None, 0, None, 0), Pointer(None, 0, None, 0))

  function InfoOf(w: World, head: nat): HeadInfo {
    if head in w.heads then w.heads[head] else UNSERVED
  }

  /** A completion marker belongs to one adoption: any other block clears it. */
  function Moved(p: Pointer, block: Option<Block>, generation: nat): Pointer {
    if p.adopted == block then p else Pointer(block, generation, None, 0)
  }

  function Installed(w: World, head: nat, root: Option<Block>, tip: Option<Block>): World {
    var h := InfoOf(w, head);
    w.(heads := w.heads[head := HeadInfo(Moved(h.root, root, w.generation), Moved(h.tip, tip, w.generation))])
  }

  /** The pass has done all it set out to do. */
  predicate Over(k: Walk) {
    k.run.None? && k.next >= |k.task.goals|
  }

  /** Adopt what a protecting pass was made for, if its proof is of the current
      generation; otherwise give the proof up. */
  function Expose(w: World, id: nat, head: nat, k: Walk): World {
    if !k.task.protecting || !Over(k) then w
    else if k.task.generation != w.generation then Drop(w, id)
    else Drop(Installed(w, head, Some(k.task.root), k.task.tip), id)
  }

  /** The pass has a proof an adoption may rest on. */
  predicate Proves(w: World, id: nat) {
    && id in w.walks && w.walks[id].task.protecting && Over(w.walks[id])
    && w.walks[id].task.generation == w.generation
  }

  /* ---- Events ---- */

  datatype Event =
    | Begin
    | End
    | Delete(candidate: Block)
    | Access(block: Block)
    | Sync(id: nat, head: nat, segs: set<Block>)
    | Protect(id: nat, root: Block, tip: Option<Block>)
    | Adopt(id: nat, head: nat)
    | Withdraw(head: nat)
    | Next(id: nat)
    | Fail(id: nat)

  /** A task bound to the generation it starts in. */
  function NewTask(policy: Policy, generation: nat, head: nat, root: Block, tip: Option<Block>, rootStale: bool,
                   tipStale: bool,
                   protecting: bool, segs: set<Block>): Task {
    Task(head, root, tip, rootStale, tipStale, protecting, generation, segs,
         RootGoals(policy, rootStale, root) + TipGoals(tipStale, tip))
  }

  predicate Stale(p: Pointer) {
    p.adopted.Some? && p.fetched != p.adopted
  }

  function SyncTask(policy: Policy, generation: nat, head: nat, h: HeadInfo, segs: set<Block>): Task
    requires h.root.adopted.Some?
  {
    NewTask(policy, generation, head, h.root.adopted.value, h.tip.adopted, Stale(h.root), Stale(h.tip), false, segs)
  }

  /** A pass starts only for a head that is served and has a stale root or tip. */
  function StartSync(policy: Policy, w: World, id: nat, head: nat, segs: set<Block>): World {
    var h := InfoOf(w, head);
    if h.root.adopted.None? || (!Stale(h.root) && !Stale(h.tip)) then w
    else With(w, id, Walk(SyncTask(policy, w.generation, head, h, segs), 0, None))
  }

  /** A protecting pass has nothing to walk while no collection is active. */
  function ProtectTask(policy: Policy, w: World, root: Block, tip: Option<Block>): Task {
    NewTask(policy, w.generation, 0, root, tip, w.active, w.active && tip.Some?, true, {})
  }

  function AdvanceRun(check: Check, w: World, id: nat, k: Walk, r: Run): World {
    if r.busy.Some? then
      if r.busy.value.got < |Need(k.task.segs, r.busy.value.block)| then Read(check, w, id, k, r, r.busy.value)
      else Mark(w, id, k, r, r.busy.value)
    else if r.stack != [] then Pop(w, id, k, r)
    else Drain(w, id, k, r)
  }

  /** The walk's next atomic step. */
  function Advance(check: Check, w: World, id: nat, k: Walk): World {
    if k.run.Some? then AdvanceRun(check, w, id, k, k.run.value)
    else if k.next < |k.task.goals| then Take(w, id, k)
    else Finish(w, id, k.task)
  }

  function Step(check: Check, policy: Policy, w: World, e: Event): World {
    match e
    case Begin => BeginEpoch(w)
    case End => EndEpoch(w)
    case Delete(c) => DeleteCandidate(w, c)
    case Access(c) => Touch(w, c)
    case Sync(id, head, segs) => if id in w.walks then w else StartSync(policy, w, id, head, segs)
    case Protect(id, root, tip) =>
      if id in w.walks then w else With(w, id, Walk(ProtectTask(policy, w, root, tip), 0, None))
    case Adopt(id, head) => if id in w.walks then Expose(w, id, head, w.walks[id]) else w
    case Withdraw(head) => Installed(w, head, None, None)
    case Next(id) => if id in w.walks then Advance(check, w, id, w.walks[id]) else w
    case Fail(id) => Drop(w, id)
  }

  /* ---- The invariant ---- */

  ghost predicate Covered(v: View, r: Run, b: Block) {
    b in r.pending || b in r.stack || (r.busy.Some? && r.busy.value.block == b) || Whole(v, b)
  }

  /** A marked block is held, and what it leads to is done, under way or on the stack. */
  ghost predicate MarkOk(v: View, segs: set<Block>, r: Run, p: Block) {
    && IsIndex(p) && p in v.held
    && (p in segs ==> Whole(v, p))
    && forall c | c in Kids(segs, p) :: Covered(v, r, c)
  }

  ghost predicate MarksOk(v: View, segs: set<Block>, r: Run) {
    forall p | p in r.pending :: MarkOk(v, segs, r, p)
  }

  ghost predicate BusyOk(v: View, segs: set<Block>, b: Busy) {
    && b.got <= |Need(segs, b.block)| && !b.block.Foreign? && (b.block.Blob? ==> !v.full)
    && (b.block in segs ==> b.block.Segment?)
    && (forall i | 0 <= i < b.got :: Need(segs, b.block)[i] in v.held)
    && (!b.checking && v.full && b.block in segs ==> b.block in v.verified)
  }

  /** The bindings checked so far hold, whatever the collector did meanwhile. */
  predicate ChecksOk(check: Check, segs: set<Block>, b: Busy) {
    b.checking ==>
      && b.block in segs && b.block.Segment? && b.got <= |b.block.entries| + 1
      && forall i | 0 <= i < b.got - 1 :: check(b.block.entries[i])
  }

  ghost predicate RunOk(v: View, segs: set<Block>, r: Run, root: Block) {
    Covered(v, r, root) && MarksOk(v, segs, r) && (r.busy.Some? ==> BusyOk(v, segs, r.busy.value))
  }

  ghost predicate GoalsMet(v: View, goals: seq<Goal>, n: nat) {
    n <= |goals| && forall i | 0 <= i < n :: Met(v, goals[i])
  }

  /** What is only promised until the next cut. */
  ghost predicate WalkOk(v: View, k: Walk) {
    && GoalsMet(v, k.task.goals, k.next)
    && (k.run.Some? ==>
          (k.next < |k.task.goals| && k.task.goals[k.next].recursive &&
            RunOk(v, k.task.segs, k.run.value, k.task.goals[k.next].block)))
  }

  /** A protecting pass that walks at all walks the root and any tip. */
  predicate ProtectShape(t: Task) {
    t.rootStale && t.tip.Some? ==> t.tipStale
  }

  ghost predicate WalkFine(check: Check, policy: Policy, v: View, generation: nat, k: Walk) {
    && k.task.generation <= generation
    && k.task.goals == RootGoals(policy, k.task.rootStale, k.task.root) + TipGoals(k.task.tipStale, k.task.tip)
    && (k.task.protecting ==> ProtectShape(k.task))
    && (k.run.Some? && k.run.value.busy.Some? ==> ChecksOk(check, k.task.segs, k.run.value.busy.value))
    && (k.task.generation == generation ==> WalkOk(Aim(v, k.task), k))
  }

  ghost predicate MemoOk(v: View, generation: nat, memo: map<Block, nat>) {
    forall c | c in memo :: memo[c] <= generation && (memo[c] == generation ==> Whole(v, c))
  }

  /** A marker names what the head serves now, and was set no earlier than that
      was adopted. */
  predicate PointerOk(generation: nat, p: Pointer) {
    && p.since <= generation && p.stamp <= generation
    && (p.fetched.Some? ==> p.fetched == p.adopted && p.since <= p.stamp)
  }

  /** A stamp of the current generation stands for a head that is all there. */
  ghost predicate StampOk(policy: Policy, v: View, generation: nat, h: HeadInfo) {
    && PointerOk(generation, h.root) && PointerOk(generation, h.tip)
    && (h.root.fetched.Some? && h.root.stamp == generation ==>
          GoalsMet(v, policy(h.root.fetched.value), |policy(h.root.fetched.value)|))
    && (h.tip.fetched.Some? && h.tip.stamp == generation ==> Whole(v, h.tip.fetched.value))
  }

  ghost predicate WalksOk(check: Check, policy: Policy, v: View, generation: nat, walks: map<nat, Walk>) {
    forall id | id in walks :: WalkFine(check, policy, v, generation, walks[id])
  }

  ghost predicate HeadsOk(policy: Policy, v: View, generation: nat, heads: map<nat, HeadInfo>) {
    forall n | n in heads :: StampOk(policy, v, generation, heads[n])
  }

  ghost predicate Inv(check: Check, policy: Policy, w: World) {
    && (forall s | s in w.verified :: AllBind(check, s))
    && MemoOk(ViewOf(w), w.generation, w.memo)
    && WalksOk(check, policy, ViewOf(w), w.generation, w.walks)
    && HeadsOk(policy, ViewOf(w), w.generation, w.heads)
  }

  /* ---- What growth of the store keeps ---- */

  lemma {:induction false} GoalsGrow(v: View, v': View, goals: seq<Goal>, n: nat)
    requires Grows(v, v') && GoalsMet(v, goals, n)
    ensures GoalsMet(v', goals, n)
  {
    forall i | 0 <= i < n ensures Met(v', goals[i]) {
      assert Met(v, goals[i]);
      if goals[i].recursive { WholeGrows(v, v', goals[i].block); }
    }
  }

  lemma {:induction false} CoveredGrows(v: View, v': View, r: Run, b: Block)
    requires Grows(v, v') && Covered(v, r, b)
    ensures Covered(v', r, b)
  {
    if Whole(v, b) { WholeGrows(v, v', b); }
  }

  lemma {:induction false} MarkGrows(v: View, v': View, segs: set<Block>, r: Run, p: Block)
    requires Grows(v, v') && MarkOk(v, segs, r, p)
    ensures MarkOk(v', segs, r, p)
  {
    if p in segs { WholeGrows(v, v', p); }
    forall c | c in Kids(segs, p) ensures Covered(v', r, c) { CoveredGrows(v, v', r, c); }
  }

  lemma {:induction false} RunGrows(v: View, v': View, segs: set<Block>, r: Run, root: Block)
    requires Grows(v, v') && RunOk(v, segs, r, root)
    ensures RunOk(v', segs, r, root)
  {
    CoveredGrows(v, v', r, root);
    forall p | p in r.pending ensures MarkOk(v', segs, r, p) { MarkGrows(v, v', segs, r, p); }
  }

  lemma {:induction false} WalkGrows(v: View, v': View, k: Walk)
    requires Grows(v, v') && WalkOk(v, k)
    ensures WalkOk(v', k)
  {
    GoalsGrow(v, v', k.task.goals, k.next);
    if k.run.Some? { RunGrows(v, v', k.task.segs, k.run.value, k.task.goals[k.next].block); }
  }

  lemma {:induction false} StampGrows(policy: Policy, v: View, v': View, generation: nat, h: HeadInfo)
    requires Grows(v, v') && StampOk(policy, v, generation, h)
    ensures StampOk(policy, v', generation, h)
  {
    var root, tip := h.root, h.tip;
    if root.fetched.Some? && root.stamp == generation {
      GoalsGrow(v, v', policy(root.fetched.value), |policy(root.fetched.value)|);
    }
    if tip.fetched.Some? && tip.stamp == generation { WholeGrows(v, v', tip.fetched.value); }
  }

  lemma {:induction false} MemoGrows(v: View, v': View, generation: nat, memo: map<Block, nat>)
    requires Grows(v, v') && MemoOk(v, generation, memo)
    ensures MemoOk(v', generation, memo)
  {
    forall c | c in memo && memo[c] == generation ensures Whole(v', c) { WholeGrows(v, v', c); }
  }

  lemma {:induction false} WalksGrow(check: Check, policy: Policy, v: View, v': View, generation: nat,
                                     walks: map<nat, Walk>)
    requires Grows(v, v') && WalksOk(check, policy, v, generation, walks)
    ensures WalksOk(check, policy, v', generation, walks)
  {
    forall id | id in walks ensures WalkFine(check, policy, v', generation, walks[id]) {
      var k := walks[id];
      if k.task.generation == generation { WalkGrows(Aim(v, k.task), Aim(v', k.task), k); }
    }
  }

  lemma {:induction false} HeadsGrow(policy: Policy, v: View, v': View, generation: nat, heads: map<nat, HeadInfo>)
    requires Grows(v, v') && HeadsOk(policy, v, generation, heads)
    ensures HeadsOk(policy, v', generation, heads)
  {
    forall n | n in heads ensures StampOk(policy, v', generation, heads[n]) {
      StampGrows(policy, v, v', generation, heads[n]);
    }
  }

  /** Within a generation the store only gains. */
  lemma {:induction false} StoreGrows(check: Check, policy: Policy, w: World, w': World)
    requires Inv(check, policy, w) && Grows(ViewOf(w), ViewOf(w'))
    requires w'.generation == w.generation && w'.memo == w.memo && w'.walks == w.walks && w'.heads == w.heads
    requires forall s | s in w'.verified :: AllBind(check, s)
    ensures Inv(check, policy, w')
  {
    MemoGrows(ViewOf(w), ViewOf(w'), w.generation, w.memo);
    WalksGrow(check, policy, ViewOf(w), ViewOf(w'), w.generation, w.walks);
    HeadsGrow(policy, ViewOf(w), ViewOf(w'), w.generation, w.heads);
  }

  /** The collector deletes nothing that is held. */
  lemma {:induction false} DeleteKeeps(w: World, c: Block)
    ensures ViewOf(DeleteCandidate(w, c)) == ViewOf(w)
  {
    assert w.active && c !in w.touched ==> (w.local - {c}) * w.touched == w.local * w.touched;
  }

  /** A cut leaves nothing to keep: every stamp and walk is of an older generation. */
  lemma {:induction false} CutKeeps(check: Check, policy: Policy, w: World)
    requires Inv(check, policy, w)
    ensures Inv(check, policy, BeginEpoch(w))
  {
    var w' := BeginEpoch(w);
    if !w.active {
      assert MemoOk(ViewOf(w'), w'.generation, w'.memo);
      forall id | id in w.walks ensures WalkFine(check, policy, ViewOf(w'), w'.generation, w.walks[id]) {
        assert WalkFine(check, policy, ViewOf(w), w.generation, w.walks[id]);
      }
      forall n | n in w.heads ensures StampOk(policy, ViewOf(w'), w'.generation, w.heads[n]) {
        assert StampOk(policy, ViewOf(w), w.generation, w.heads[n]);
      }
    }
  }

  lemma {:induction false} TouchKeeps(check: Check, policy: Policy, w: World, c: Block)
    requires Inv(check, policy, w)
    ensures Inv(check, policy, Touch(w, c))
    ensures c in Held(Touch(w, c)) && Grows(ViewOf(w), ViewOf(Touch(w, c)))
  {
    StoreGrows(check, policy, w, Touch(w, c));
  }

  lemma {:induction false} WithKeeps(check: Check, policy: Policy, w: World, id: nat, k: Walk)
    requires Inv(check, policy, w) && WalkFine(check, policy, ViewOf(w), w.generation, k)
    ensures Inv(check, policy, With(w, id, k))
  {
    assert ViewOf(With(w, id, k)) == ViewOf(w);
  }

  lemma {:induction false} DropKeeps(check: Check, policy: Policy, w: World, id: nat)
    requires Inv(check, policy, w)
    ensures Inv(check, policy, Drop(w, id))
  {
    assert ViewOf(Drop(w, id)) == ViewOf(w);
  }

  /** A walk that only moves within its run stays fine if the run does. */
  lemma {:induction false} RunFine(check: Check, policy: Policy, v: View, generation: nat, k: Walk, r: Run)
    requires WalkFine(check, policy, v, generation, k) && k.run.Some?
    requires r.busy.Some? ==> ChecksOk(check, k.task.segs, r.busy.value)
    requires k.task.generation == generation ==> RunOk(Aim(v, k.task), k.task.segs, r, k.task.goals[k.next].block)
    ensures WalkFine(check, policy, v, generation, k.(run := Some(r)))
  {
  }

  /* ---- Every step of a walk keeps the invariant ---- */

  ghost predicate CoverKept(v: View, r: Run, r': Run) {
    forall b | Covered(v, r, b) :: Covered(v, r', b)
  }

  lemma {:induction false} RunMoves(v: View, segs: set<Block>, r: Run, r': Run, root: Block)
    requires RunOk(v, segs, r, root) && CoverKept(v, r, r')
    requires forall p | p in r'.pending && p !in r.pending :: MarkOk(v, segs, r', p)
    requires r'.busy.Some? ==> BusyOk(v, segs, r'.busy.value)
    ensures RunOk(v, segs, r', root)
  {
    forall p | p in r'.pending && p in r.pending ensures MarkOk(v, segs, r', p) {
      assert MarkOk(v, segs, r, p);
    }
  }

  lemma {:induction false} PopCovers(v: View, r: Run, r': Run, c: Block, rest: seq<Block>)
    requires r.stack == rest + [c] && r.busy.None? && r'.pending == r.pending && r'.stack == rest && Covered(v, r', c)
    ensures CoverKept(v, r, r')
  {
  }

  /** What the memo vouches for is whole for this walk too. */
  lemma {:induction false} MemoAims(w: World, t: Task, c: Block)
    requires MemoOk(ViewOf(w), w.generation, w.memo) && c in w.memo && w.memo[c] == w.generation
    ensures Whole(Aim(ViewOf(w), t), c)
  {
    assert Whole(ViewOf(w), c);
    if t.protecting { WholeRelaxes(ViewOf(w), c); }
    else { assert Aim(ViewOf(w), t) == ViewOf(w); }
  }

  lemma {:induction false} PopRun(w: World, t: Task, r: Run, c: Block, rest: seq<Block>, root: Block)
    requires MemoOk(ViewOf(w), w.generation, w.memo) && t.generation == w.generation
    requires r.busy.None? && r.stack == rest + [c] && RunOk(Aim(ViewOf(w), t), t.segs, r, root)
    ensures Done(w, t, r, c) ==> RunOk(Aim(ViewOf(w), t), t.segs, Run(rest, r.pending, None), root)
    ensures !Done(w, t, r, c) && !Refused(w.full, t, c) ==>
      RunOk(Aim(ViewOf(w), t), t.segs, Run(rest, r.pending, Some(Starting(w, t, c))), root)
  {
    var v := Aim(ViewOf(w), t);
    if Done(w, t, r, c) {
      var r' := Run(rest, r.pending, None);
      if c !in r.pending { MemoAims(w, t, c); }
      PopCovers(v, r, r', c, rest);
      RunMoves(v, t.segs, r, r', root);
    } else if !Refused(w.full, t, c) {
      var r' := Run(rest, r.pending, Some(Starting(w, t, c)));
      PopCovers(v, r, r', c, rest);
      RunMoves(v, t.segs, r, r', root);
    }
  }

  lemma {:induction false} PopKeeps(check: Check, policy: Policy, w: World, id: nat, k: Walk, r: Run)
    requires Inv(check, policy, w) && WalkFine(check, policy, ViewOf(w), w.generation, k)
    requires k.run == Some(r) && r.busy.None? && r.stack != []
    ensures Inv(check, policy, Pop(w, id, k, r))
  {
    var c, rest := r.stack[|r.stack| - 1], r.stack[..|r.stack| - 1];
    if k.task.generation == w.generation { PopRun(w, k.task, r, c, rest, k.task.goals[k.next].block); }
    if Done(w, k.task, r, c) {
      var r' := Run(rest, r.pending, None);
      RunFine(check, policy, ViewOf(w), w.generation, k, r');
      WithKeeps(check, policy, w, id, k.(run := Some(r')));
    } else if Refused(w.full, k.task, c) {
      DropKeeps(check, policy, w, id);
    } else {
      var r' := Run(rest, r.pending, Some(Starting(w, k.task, c)));
      RunFine(check, policy, ViewOf(w), w.generation, k, r');
      WithKeeps(check, policy, w, id, k.(run := Some(r')));
    }
  }

  lemma {:induction false} ReadRun(v: View, segs: set<Block>, r: Run, b: Busy, root: Block)
    requires RunOk(v, segs, r, root) && r.busy == Some(b) && b.got < |Need(segs, b.block)|
    requires Need(segs, b.block)[b.got] in v.held
    ensures RunOk(v, segs, r.(busy := Some(b.(got := b.got + 1))), root)
  {
    var r' := r.(busy := Some(b.(got := b.got + 1)));
    assert CoverKept(v, r, r');
    RunMoves(v, segs, r, r', root);
  }

  lemma {:induction false} ReadFine(check: Check, policy: Policy, v: View, generation: nat, k: Walk, r: Run, b: Busy)
    requires WalkFine(check, policy, v, generation, k) && k.run == Some(r) && r.busy == Some(b)
    requires b.got < |Need(k.task.segs, b.block)| && Need(k.task.segs, b.block)[b.got] in v.held && !Mismatch(check, b)
    ensures WalkFine(check, policy, v, generation, k.(run := Some(r.(busy := Some(b.(got := b.got + 1))))))
  {
    if k.task.generation == generation { ReadRun(Aim(v, k.task), k.task.segs, r, b, k.task.goals[k.next].block); }
    RunFine(check, policy, v, generation, k, r.(busy := Some(b.(got := b.got + 1))));
  }

  lemma {:induction false} ReadKeeps(check: Check, policy: Policy, w: World, id: nat, k: Walk, r: Run, b: Busy)
    requires Inv(check, policy, w) && id in w.walks && w.walks[id] == k
    requires k.run == Some(r) && r.busy == Some(b) && b.got < |Need(k.task.segs, b.block)|
    ensures Inv(check, policy, Read(check, w, id, k, r, b))
  {
    var n := Need(k.task.segs, b.block)[b.got];
    var w1 := Touch(w, n);
    TouchKeeps(check, policy, w, n);
    assert WalkFine(check, policy, ViewOf(w1), w1.generation, w1.walks[id]);
    if Mismatch(check, b) {
      DropKeeps(check, policy, w1, id);
    } else {
      ReadFine(check, policy, ViewOf(w1), w1.generation, k, r, b);
      WithKeeps(check, policy, w1, id, k.(run := Some(r.(busy := Some(b.(got := b.got + 1))))));
    }
  }

  /** Reading all a known Segment names makes it whole. */
  lemma {:induction false} SegmentWhole(v: View, segs: set<Block>, b: Busy)
    requires BusyOk(v, segs, b) && b.got == |Need(segs, b.block)| && b.block in segs &&
             (v.full ==> b.block in v.verified)
    ensures Whole(v, b.block)
  {
    var need := Need(segs, b.block);
    assert need[0] == b.block;
    forall i | 0 <= i < |b.block.entries| ensures Blob(b.block.entries[i].blob) in v.held {
      assert need[i + 1] == Blob(b.block.entries[i].blob);
    }
  }

  lemma {:induction false} MarkRun(v: View, segs: set<Block>, r: Run, b: Busy, root: Block)
    requires RunOk(v, segs, r, root) && r.busy == Some(b) && b.got == |Need(segs, b.block)|
    requires v.full && b.block in segs ==> b.block in v.verified
    ensures RunOk(v, segs, Expanded(segs, r, b.block), root)
  {
    var c := b.block;
    var r' := Expanded(segs, r, c);
    assert Need(segs, c)[0] == c;
    if c in segs { SegmentWhole(v, segs, b); }
    assert c.Blob? ==> Whole(v, c);
    assert CoverKept(v, r, r');
    RunMoves(v, segs, r, r', root);
  }

  lemma {:induction false} ProofKeeps(check: Check, policy: Policy, w: World, segs: set<Block>, b: Busy)
    requires Inv(check, policy, w) && b.checking && ChecksOk(check, segs, b) && b.got >= |Need(segs, b.block)|
    ensures Inv(check, policy, w.(verified := w.verified + {b.block}))
  {
    assert |Need(segs, b.block)| == |b.block.entries| + 1;
    assert AllBind(check, b.block);
    StoreGrows(check, policy, w, w.(verified := w.verified + {b.block}));
  }

  lemma {:induction false} MarkKeeps(check: Check, policy: Policy, w: World, id: nat, k: Walk, r: Run, b: Busy)
    requires Inv(check, policy, w) && id in w.walks && w.walks[id] == k
    requires k.run == Some(r) && r.busy == Some(b) && b.got >= |Need(k.task.segs, b.block)|
    ensures Inv(check, policy, Mark(w, id, k, r, b))
  {
    assert WalkFine(check, policy, ViewOf(w), w.generation, w.walks[id]);
    if b.checking { ProofKeeps(check, policy, w, k.task.segs, b); }
    var w1 := if b.checking then w.(verified := w.verified + {b.block}) else w;
    assert WalkFine(check, policy, ViewOf(w1), w1.generation, w1.walks[id]);
    if k.task.generation == w.generation {
      MarkRun(Aim(ViewOf(w1), k.task), k.task.segs, r, b, k.task.goals[k.next].block);
    }
    RunFine(check, policy, ViewOf(w1), w1.generation, k, Expanded(k.task.segs, r, b.block));
    WithKeeps(check, policy, w1, id, k.(run := Some(Expanded(k.task.segs, r, b.block))));
  }

  lemma {:induction false} TakeWalkKeeps(check: Check, policy: Policy, w: World, id: nat, k: Walk, g: Goal)
    requires Inv(check, policy, w) && WalkFine(check, policy, ViewOf(w), w.generation, k)
    requires k.run.None? && k.next < |k.task.goals| && k.task.goals[k.next] == g && g.recursive
    ensures Inv(check, policy, With(w, id, k.(run := Some(Run([g.block], {}, None)))))
  {
    var r := Run([g.block], {}, None);
    assert r.stack[0] == g.block;
    WithKeeps(check, policy, w, id, k.(run := Some(r)));
  }

  lemma {:induction false} TakeDirectKeeps(check: Check, policy: Policy, w: World, id: nat, k: Walk, g: Goal)
    requires Inv(check, policy, w) && WalkFine(check, policy, ViewOf(w), w.generation, k)
    requires k.run.None? && k.next < |k.task.goals| && k.task.goals[k.next] == g && !g.recursive && g.block in Held(w)
    ensures Inv(check, policy, With(w, id, k.(next := k.next + 1)))
  {
    assert Met(Aim(ViewOf(w), k.task), g);
    WithKeeps(check, policy, w, id, k.(next := k.next + 1));
  }

  lemma {:induction false} TakeKeeps(check: Check, policy: Policy, w: World, id: nat, k: Walk)
    requires Inv(check, policy, w) && id in w.walks && w.walks[id] == k && k.run.None? && k.next < |k.task.goals|
    ensures Inv(check, policy, Take(w, id, k))
  {
    var g := k.task.goals[k.next];
    if g.recursive {
      TakeWalkKeeps(check, policy, w, id, k, g);
    } else {
      TouchKeeps(check, policy, w, g.block);
      TakeDirectKeeps(check, policy, Touch(w, g.block), id, k, g);
    }
  }

  /** Once nothing is on the stack, whatever is covered is whole. */
  lemma {:induction false} Settled(v: View, segs: set<Block>, r: Run, b: Block)
    requires MarksOk(v, segs, r) && r.stack == [] && r.busy.None? && Covered(v, r, b)
    ensures Whole(v, b)
    decreases b
  {
    assert b in r.pending ==> MarkOk(v, segs, r, b);
    if b in r.pending && b !in segs {
      var kids := Kids(segs, b);
      if b.Index? {
        forall i | 0 <= i < |b.links| ensures Whole(v, b.links[i]) {
          assert b.links[i] in kids;
          Settled(v, segs, r, b.links[i]);
        }
      } else {
        forall i | 0 <= i < |b.entries| ensures Whole(v, Blob(b.entries[i].blob)) {
          var leaf := kids[i];
          assert leaf == Blob(b.entries[i].blob) && Covered(v, r, leaf);
          assert leaf in r.pending ==> MarkOk(v, segs, r, leaf);
        }
        assert b.entries != [] ==> Whole(v, Blob(b.entries[0].blob));
      }
    }
  }

  lemma {:induction false} DrainMemo(v: View, generation: nat, memo: map<Block, nat>, segs: set<Block>, r: Run)
    requires MemoOk(v, generation, memo) && MarksOk(v, segs, r) && r.stack == [] && r.busy.None?
    ensures MemoOk(v, generation, Memoized(memo, r.pending, generation))
  {
    forall c | c in r.pending ensures Whole(v, c) { Settled(v, segs, r, c); }
  }

  lemma {:induction false} DrainKeeps(check: Check, policy: Policy, w: World, id: nat, k: Walk, r: Run)
    requires Inv(check, policy, w) && WalkFine(check, policy, ViewOf(w), w.generation, k)
    requires k.run == Some(r) && r.busy.None? && r.stack == []
    ensures Inv(check, policy, Drain(w, id, k, r))
  {
    var k' := k.(next := k.next + 1, run := None);
    if k.task.generation == w.generation {
      Settled(Aim(ViewOf(w), k.task), k.task.segs, r, k.task.goals[k.next].block);
    }
    if k.task.protecting || k.task.generation != w.generation {
      WithKeeps(check, policy, w, id, k');
    } else {
      assert Aim(ViewOf(w), k.task) == ViewOf(w);
      DrainMemo(ViewOf(w), w.generation, w.memo, k.task.segs, r);
      var w1 := w.(memo := Memoized(w.memo, r.pending, w.generation));
      assert ViewOf(w1) == ViewOf(w);
      WithKeeps(check, policy, w1, id, k');
    }
  }

  lemma {:induction false} StampedOk(check: Check, policy: Policy, v: View, generation: nat, k: Walk, h: HeadInfo)
    requires StampOk(policy, v, generation, h) && WalkFine(check, policy, v, generation, k)
    requires k.task.generation == generation && !k.task.protecting && k.next >= |k.task.goals|
    ensures StampOk(policy, v, generation, StampedHead(k.task, h))
  {
    var t := k.task;
    assert Aim(v, t) == v;
    if t.rootStale {
      var wanted := policy(t.root);
      forall i | 0 <= i < |wanted| ensures Met(v, wanted[i]) { assert t.goals[i] == wanted[i]; }
    }
    if t.tipStale && t.tip.Some? { assert t.goals[|t.goals| - 1] == Goal(t.tip.value, true); }
  }

  lemma {:induction false} FinishKeeps(check: Check, policy: Policy, w: World, id: nat, k: Walk)
    requires Inv(check, policy, w) && WalkFine(check, policy, ViewOf(w), w.generation, k) && k.next >= |k.task.goals|
    ensures Inv(check, policy, Finish(w, id, k.task))
  {
    var t := k.task;
    if !t.protecting {
      if t.generation != w.generation || t.head !in w.heads {
        DropKeeps(check, policy, w, id);
      } else {
        StampedOk(check, policy, ViewOf(w), w.generation, k, w.heads[t.head]);
        var w1 := w.(heads := w.heads[t.head := StampedHead(t, w.heads[t.head])]);
        assert ViewOf(w1) == ViewOf(w);
        DropKeeps(check, policy, w1, id);
      }
    }
  }

  lemma {:induction false} AdvanceKeeps(check: Check, policy: Policy, w: World, id: nat, k: Walk)
    requires Inv(check, policy, w) && id in w.walks && w.walks[id] == k
    ensures Inv(check, policy, Advance(check, w, id, k))
  {
    if k.run.Some? {
      var r := k.run.value;
      if r.busy.Some? {
        if r.busy.value.got < |Need(k.task.segs, r.busy.value.block)| {
          ReadKeeps(check, policy, w, id, k, r, r.busy.value);
        }
        else { MarkKeeps(check, policy, w, id, k, r, r.busy.value); }
      }
      else if r.stack != [] { PopKeeps(check, policy, w, id, k, r); }
      else { DrainKeeps(check, policy, w, id, k, r); }
    }
    else if k.next < |k.task.goals| { TakeKeeps(check, policy, w, id, k); }
    else { FinishKeeps(check, policy, w, id, k); }
  }

  lemma {:induction false} StartKeeps(check: Check, policy: Policy, w: World, id: nat, t: Task)
    requires Inv(check, policy, w) && t.generation == w.generation
    requires t.goals == RootGoals(policy, t.rootStale, t.root) + TipGoals(t.tipStale, t.tip)
    requires t.protecting ==> ProtectShape(t)
    ensures Inv(check, policy, With(w, id, Walk(t, 0, None)))
  {
    WithKeeps(check, policy, w, id, Walk(t, 0, None));
  }

  /** Adopting or withdrawing clears the markers of what it replaces. */
  lemma {:induction false} InstallKeeps(check: Check, policy: Policy, w: World, head: nat, root: Option<Block>,
                                        tip: Option<Block>)
    requires Inv(check, policy, w)
    ensures Inv(check, policy, Installed(w, head, root, tip))
  {
    var w' := Installed(w, head, root, tip);
    assert ViewOf(w') == ViewOf(w);
    assert StampOk(policy, ViewOf(w), w.generation, InfoOf(w, head));
    assert StampOk(policy, ViewOf(w'), w'.generation, w'.heads[head]);
  }

  lemma {:induction false} ExposeKeeps(check: Check, policy: Policy, w: World, id: nat, head: nat, k: Walk)
    requires Inv(check, policy, w)
    ensures Inv(check, policy, Expose(w, id, head, k))
  {
    if k.task.protecting && Over(k) {
      if k.task.generation != w.generation {
        DropKeeps(check, policy, w, id);
      } else {
        InstallKeeps(check, policy, w, head, Some(k.task.root), k.task.tip);
        DropKeeps(check, policy, Installed(w, head, Some(k.task.root), k.task.tip), id);
      }
    }
  }

  lemma {:induction false} SyncKeeps(check: Check, policy: Policy, w: World, id: nat, head: nat, segs: set<Block>)
    requires Inv(check, policy, w)
    ensures Inv(check, policy, StartSync(policy, w, id, head, segs))
  {
    var h := InfoOf(w, head);
    if h.root.adopted.Some? { StartKeeps(check, policy, w, id, SyncTask(policy, w.generation, head, h, segs)); }
  }

  /** Every event keeps the invariant. */
  lemma {:induction false} StepKeeps(check: Check, policy: Policy, w: World, e: Event)
    requires Inv(check, policy, w)
    ensures Inv(check, policy, Step(check, policy, w, e))
  {
    match e
    case Begin => CutKeeps(check, policy, w);
    case End => StoreGrows(check, policy, w, EndEpoch(w));
    case Delete(c) => DeleteKeeps(w, c); StoreGrows(check, policy, w, DeleteCandidate(w, c));
    case Access(c) => TouchKeeps(check, policy, w, c);
    case Sync(id, head, segs) => SyncKeeps(check, policy, w, id, head, segs);
    case Protect(id, root, tip) => StartKeeps(check, policy, w, id, ProtectTask(policy, w, root, tip));
    case Adopt(id, head) => if id in w.walks { ExposeKeeps(check, policy, w, id, head, w.walks[id]); }
    case Withdraw(head) => InstallKeeps(check, policy, w, head, None, None);
    case Next(id) => if id in w.walks { AdvanceKeeps(check, policy, w, id, w.walks[id]); }
    case Fail(id) => DropKeeps(check, policy, w, id);
  }

  /* ---- Runs ---- */

  function After(check: Check, policy: Policy, w: World, trace: seq<Event>): World
    decreases |trace|
  {
    if trace == [] then w
    else Step(check, policy, After(check, policy, w, trace[..|trace| - 1]), trace[|trace| - 1])
  }

  /** A process starts with no memo, no walk in flight and nothing stamped; what
      the store holds and what the collector was doing do not matter. */
  predicate Fresh(check: Check, w: World) {
    w.memo == map[] && w.walks == map[] && w.heads == map[] && forall s | s in w.verified :: AllBind(check, s)
  }

  lemma {:induction false} RunKeeps(check: Check, policy: Policy, w: World, trace: seq<Event>)
    requires Inv(check, policy, w)
    ensures Inv(check, policy, After(check, policy, w, trace))
    decreases |trace|
  {
    if trace != [] {
      RunKeeps(check, policy, w, trace[..|trace| - 1]);
      StepKeeps(check, policy, After(check, policy, w, trace[..|trace| - 1]), trace[|trace| - 1]);
    }
  }

  /** In every world reached by any interleaving of passes and collections, all
      a memo entry of the current generation reaches is local and safe; under full
      verification the Segments among it bind their blobs. */
  lemma {:induction false} MemoIsTrue(check: Check, policy: Policy, w: World, trace: seq<Event>, c: Block, d: Block)
    requires Fresh(check, w)
    requires var w' := After(check, policy, w, trace); c in w'.memo && w'.memo[c] == w'.generation && Reaches(c, d)
    ensures var w' := After(check, policy, w, trace); d in w'.local && (w'.active ==> d in w'.touched)
    ensures w.full && d.Segment? ==> AllBind(check, d)
  {
    RunKeeps(check, policy, w, trace);
    FullIsFixed(check, policy, w, trace);
    var w' := After(check, policy, w, trace);
    assert Whole(ViewOf(w'), c);
    WholeIsReachable(ViewOf(w'), c, d);
    if w.full { WholeIsVerified(ViewOf(w'), c, d); }
  }

  /** What the markers of the current generation promise: the pins of a fetched
      root, and the chain of a fetched manifest tip. */
  predicate Promised(policy: Policy, w: World, head: nat, g: Goal) {
    var h := InfoOf(w, head);
    || (h.root.fetched.Some? && h.root.stamp == w.generation && g in policy(h.root.fetched.value))
    || (h.tip.fetched.Some? && h.tip.stamp == w.generation && g == Goal(h.tip.fetched.value, true))
  }

  /** In every such world, all that a head stamped in the current generation
      promises is local; under full verification its Segments bind their blobs. */
  lemma {:induction false} CompletionIsTrue(check: Check, policy: Policy, w: World, trace: seq<Event>,
                                            head: nat, g: Goal, d: Block)
    requires Fresh(check, w) && Promised(policy, After(check, policy, w, trace), head, g)
    requires if g.recursive then Reaches(g.block, d) else d == g.block
    ensures d in After(check, policy, w, trace).local
    ensures w.full && g.recursive && d.Segment? ==> AllBind(check, d)
  {
    RunKeeps(check, policy, w, trace);
    FullIsFixed(check, policy, w, trace);
    var w' := After(check, policy, w, trace);
    PromiseMet(check, policy, w', head, g);
    if g.recursive {
      WholeIsReachable(ViewOf(w'), g.block, d);
      if w.full { WholeIsVerified(ViewOf(w'), g.block, d); }
    }
  }

  lemma {:induction false} PromiseMet(check: Check, policy: Policy, w: World, head: nat, g: Goal)
    requires Inv(check, policy, w) && Promised(policy, w, head, g)
    ensures Met(ViewOf(w), g)
  {
    var h := w.heads[head];
    assert StampOk(policy, ViewOf(w), w.generation, h);
    if h.root.fetched.Some? && h.root.stamp == w.generation && g in policy(h.root.fetched.value) {
      var wanted := policy(h.root.fetched.value);
      var i :| 0 <= i < |wanted| && wanted[i] == g;
    }
  }

  /** A head that a pass would skip was completely fetched since it was last
      adopted: whatever was adopted, withdrawn and collected before, its markers
      are of the root and tip it serves now, and no older than their adoption. */
  lemma {:induction false} SkippedWasFetched(check: Check, policy: Policy, w: World, trace: seq<Event>, id: nat,
                                             head: nat, segs: set<Block>)
    requires Fresh(check, w)
    requires var w' := After(check, policy, w, trace);
      id !in w'.walks && InfoOf(w', head).root.adopted.Some? && Step(check, policy, w', Sync(id, head, segs)) == w'
    ensures var h := InfoOf(After(check, policy, w, trace), head);
      && h.root.fetched == h.root.adopted && h.root.stamp >= h.root.since
      && (h.tip.adopted.Some? ==> h.tip.fetched == h.tip.adopted && h.tip.stamp >= h.tip.since)
  {
    RunKeeps(check, policy, w, trace);
    var w' := After(check, policy, w, trace);
    var h := w'.heads[head];
    assert StampOk(policy, ViewOf(w'), w'.generation, h);
    if Stale(h.root) || Stale(h.tip) { StaleIsSynced(policy, w', id, head, segs); }
  }

  lemma {:induction false} StaleIsSynced(policy: Policy, w: World, id: nat, head: nat, segs: set<Block>)
    requires InfoOf(w, head).root.adopted.Some? && (Stale(InfoOf(w, head).root) || Stale(InfoOf(w, head).tip))
    ensures id in StartSync(policy, w, id, head, segs).walks
  {
  }

  /* ---- Adoption under a proof ---- */

  /** Nothing that is held is lost before the next collection begins. */
  lemma {:induction false} HeldUntilCut(check: Check, policy: Policy, w: World, trace: seq<Event>)
    ensures After(check, policy, w, trace).generation >= w.generation
    ensures After(check, policy, w, trace).generation == w.generation ==>
            Held(w) <= Held(After(check, policy, w, trace))
    decreases |trace|
  {
    if trace != [] {
      var before := After(check, policy, w, trace[..|trace| - 1]);
      HeldUntilCut(check, policy, w, trace[..|trace| - 1]);
      StepHolds(check, policy, before, trace[|trace| - 1]);
    }
  }

  predicate Holds(w: World, w': World) {
    w'.generation >= w.generation && (w'.generation == w.generation ==> Held(w) <= Held(w'))
  }

  lemma {:induction false} RunHolds(check: Check, w: World, id: nat, k: Walk, r: Run)
    ensures Holds(w, AdvanceRun(check, w, id, k, r))
  {
    if r.busy.Some? {
      var b := r.busy.value;
      if b.got < |Need(k.task.segs, b.block)| { ReadHolds(check, w, id, k, r, b); }
    }
  }

  lemma {:induction false} ReadHolds(check: Check, w: World, id: nat, k: Walk, r: Run, b: Busy)
    requires b.got < |Need(k.task.segs, b.block)|
    ensures Holds(w, Read(check, w, id, k, r, b))
  {
  }

  lemma {:induction false} StepHolds(check: Check, policy: Policy, w: World, e: Event)
    ensures Holds(w, Step(check, policy, w, e))
  {
    if e.Next? && e.id in w.walks {
      var k := w.walks[e.id];
      if k.run.Some? { RunHolds(check, w, e.id, k, k.run.value); }
    }
    if e.Delete? { DeleteKeeps(w, e.candidate); }
  }

  /** Garbage goes: a block nothing has touched since the collection began is
      deleted when its turn comes, and a block something touched stays. */
  lemma {:induction false} GarbageGoes(check: Check, policy: Policy, w: World, trace: seq<Event>, c: Block)
    requires !w.active
    ensures var begun := Step(check, policy, w, Begin);
            && begun.active && begun.generation > w.generation && begun.local == w.local
            && c !in Step(check, policy, begun, Delete(c)).local
            && c in Step(check, policy, Step(check, policy, begun, Access(c)), Delete(c)).local
    ensures var w' := After(check, policy, w, trace);
            w'.active ==> (c in Step(check, policy, w', Delete(c)).local <==> c in w'.local * w'.touched)
  {
  }

  /** A withdrawn head serves nothing, has nothing to fetch, and keeps no marker;
      the other heads are as they were. */
  lemma {:induction false} WithdrawnIsDark(check: Check, policy: Policy, w: World, head: nat, id: nat, segs: set<Block>)
    ensures var w' := Step(check, policy, w, Withdraw(head));
            && InfoOf(w', head).root.adopted.None? && InfoOf(w', head).tip.adopted.None?
            && (head in w.heads && w.heads[head].root.adopted.Some? ==>
                  InfoOf(w', head).root.fetched.None?)
            && Step(check, policy, w', Sync(id, head, segs)) == w'
            && forall n | n != head :: InfoOf(w', n) == InfoOf(w, n)
  {
  }

  /** The blocks a protecting pass makes sure of, if it had to walk at all. */
  predicate Secured(policy: Policy, t: Task, g: Goal) {
    t.rootStale && (g in policy(t.root) || (t.tip == Some(g.block) && g.recursive))
  }

  /** A proof made during a collection covers everything it was made for: when the
      adoption it allows happens, all that the adopted root pins and the whole
      adopted manifest chain are local. */
  lemma {:induction false} ExposesWhatIsLocal(check: Check, policy: Policy, w: World, trace: seq<Event>,
                                              id: nat, head: nat, g: Goal, d: Block)
    requires Fresh(check, w)
    requires var w' := After(check, policy, w, trace); Proves(w', id) && Secured(policy, w'.walks[id].task, g)
    requires if g.recursive then Reaches(g.block, d) else d == g.block
    ensures var w' := After(check, policy, w, trace);
            var w'' := Step(check, policy, w', Adopt(id, head));
            && InfoOf(w'', head).root.adopted == Some(w'.walks[id].task.root)
            && InfoOf(w'', head).tip.adopted == w'.walks[id].task.tip
            && d in w''.local
  {
    RunKeeps(check, policy, w, trace);
    var w' := After(check, policy, w, trace);
    var k := w'.walks[id];
    assert WalkFine(check, policy, ViewOf(w'), w'.generation, k);
    SecuredIsMet(policy, ViewOf(w'), k, g);
    if g.recursive { WholeIsReachable(Aim(ViewOf(w'), k.task), g.block, d); }
  }

  lemma {:induction false} SecuredIsMet(policy: Policy, v: View, k: Walk, g: Goal)
    requires WalkOk(Aim(v, k.task), k) && Over(k) && Secured(policy, k.task, g) && ProtectShape(k.task)
    requires k.task.goals == RootGoals(policy, k.task.rootStale, k.task.root) + TipGoals(k.task.tipStale, k.task.tip)
    ensures Met(Aim(v, k.task), g)
  {
    GoalAmong(policy, k.task, g);
    var i :| 0 <= i < |k.task.goals| && k.task.goals[i] == g;
  }

  lemma {:induction false} GoalAmong(policy: Policy, t: Task, g: Goal)
    requires t.goals == RootGoals(policy, t.rootStale, t.root) + TipGoals(t.tipStale, t.tip)
    requires Secured(policy, t, g) && ProtectShape(t)
    ensures g in t.goals
  {
    if g !in policy(t.root) { assert t.goals[|t.goals| - 1] == g; }
  }

  lemma {:induction false} StepKeepsFull(check: Check, policy: Policy, w: World, e: Event)
    ensures Step(check, policy, w, e).full == w.full
  {
    if e.Next? && e.id in w.walks { assert Advance(check, w, e.id, w.walks[e.id]).full == w.full; }
  }

  lemma {:induction false} FullIsFixed(check: Check, policy: Policy, w: World, trace: seq<Event>)
    ensures After(check, policy, w, trace).full == w.full
    decreases |trace|
  {
    if trace != [] {
      FullIsFixed(check, policy, w, trace[..|trace| - 1]);
      StepKeepsFull(check, policy, After(check, policy, w, trace[..|trace| - 1]), trace[|trace| - 1]);
    }
  }

  /** The memo changes only when a walk that has not crossed a cut drains; a
      failed, protecting or crossing walk adds nothing. */
  lemma {:induction false} MemoChangesOnDrain(check: Check, policy: Policy, w: World, e: Event)
    requires Step(check, policy, w, e).memo != w.memo
    ensures e.Next? && e.id in w.walks
    ensures var k := w.walks[e.id];
      && k.run.Some? && k.run.value.stack == [] && k.run.value.busy.None?
      && !k.task.protecting && k.task.generation == w.generation
  {
    if e.Next? && e.id in w.walks {
      var k := w.walks[e.id];
      if k.run.Some? { RunMemo(check, w, e.id, k, k.run.value); }
    }
  }

  /** A step leaves the memo and the stamps alone. */
  predicate Quiet(w: World, w': World) {
    w'.memo == w.memo && w'.heads == w.heads
  }

  lemma {:induction false} ReadIsQuiet(check: Check, w: World, id: nat, k: Walk, r: Run, b: Busy)
    requires b.got < |Need(k.task.segs, b.block)|
    ensures Quiet(w, Read(check, w, id, k, r, b))
  {
  }

  lemma {:induction false} PopIsQuiet(w: World, id: nat, k: Walk, r: Run)
    requires r.stack != []
    ensures Quiet(w, Pop(w, id, k, r))
  {
  }

  lemma {:induction false} RunMemo(check: Check, w: World, id: nat, k: Walk, r: Run)
    ensures AdvanceRun(check, w, id, k, r).heads == w.heads
    ensures AdvanceRun(check, w, id, k, r).memo != w.memo ==>
      r.stack == [] && r.busy.None? && !k.task.protecting && k.task.generation == w.generation
  {
    if r.busy.Some? {
      var b := r.busy.value;
      if b.got < |Need(k.task.segs, b.block)| { ReadIsQuiet(check, w, id, k, r, b); }
      else { assert Quiet(w, Mark(w, id, k, r, b)); }
    } else if r.stack != [] {
      PopIsQuiet(w, id, k, r);
    }
  }

  /** The event ends a pass over the head in the generation the pass began in. */
  predicate Completes(w: World, e: Event, head: nat) {
    && e.Next? && e.id in w.walks && Over(w.walks[e.id])
    && var t := w.walks[e.id].task;
       !t.protecting && t.generation == w.generation && t.head == head
  }

  /** The marker of a pointer is set only by a pass that completes, to what is
      served, and then it is; it is cleared exactly when something else is served. */
  predicate MarkerMoves(p: Pointer, p': Pointer, fetchedNow: bool, generation: nat) {
    && (p'.adopted != p.adopted ==> p'.fetched.None?)
    && (p'.adopted == p.adopted && !fetchedNow ==> p'.fetched == p.fetched && p'.stamp == p.stamp)
    && (fetchedNow ==> p'.adopted == p.adopted && p'.fetched == p.adopted && p'.stamp == generation)
  }

  /** Over every event: a completion is stamped exactly for the root or tip the
      head still has, in the current generation, and cleared exactly when an
      adoption or withdrawal replaces it. */
  lemma {:induction false} StampsWhatIsAdopted(check: Check, policy: Policy, w: World, e: Event, head: nat)
    requires head in w.heads
    ensures var h, h' := w.heads[head], Step(check, policy, w, e).heads[head];
      && MarkerMoves(h.root, h'.root,
           Completes(w, e, head) && w.walks[e.id].task.rootStale &&
             h.root.adopted == Some(w.walks[e.id].task.root), w.generation)
      && MarkerMoves(h.tip, h'.tip,
           Completes(w, e, head) && w.walks[e.id].task.tipStale && h.tip.adopted.Some? &&
             h.tip.adopted == w.walks[e.id].task.tip,
           w.generation)
      && (h'.root.adopted != h.root.adopted || h'.tip.adopted != h.tip.adopted ==>
            e == Withdraw(head) || (e.Adopt? && e.head == head && Proves(w, e.id)))
  {
    if e.Next? && e.id in w.walks {
      var k := w.walks[e.id];
      if k.run.Some? { RunMemo(check, w, e.id, k, k.run.value); }
    }
  }
}
