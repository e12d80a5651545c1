/**
  The bounded set of IPNS sequence floors (follow/state.go, follow/source_state.go).

  A follower remembers, for the IPNS names it has authenticated records under,
  the highest sequence accepted. The set is kept most recently raised first and
  holds at most 32 names; when it overflows the last name goes, unless it is the
  one DNSLink currently delegates to, in which case the one before it does.
 */
module Ipns {
  import opened Dag
  import opened Bytes

  const MAX_NAMES := 32

  /** An IPNS name by its canonical string. */
  type Name = seq<byte>

  datatype Floor = Floor(name: Name, sequence: nat)

  /** legacy: the floor of the one name an older version followed, unnamed. */
  datatype Floors = Floors(list: seq<Floor>, legacy: Option<nat>, delegated: Option<Name>)

  predicate Good(s: Floors) {
    |s.list| <= MAX_NAMES && Distinct(s.list)
  }

  predicate Distinct(list: seq<Floor>) {
    forall i, j | 0 <= i < j < |list| :: list[i].name != list[j].name
  }

  predicate Has(list: seq<Floor>, n: Name) {
    exists i | 0 <= i < |list| :: list[i].name == n
  }

  /** n is retained at place i. */
  predicate At(list: seq<Floor>, n: Name, i: nat) {
    i < |list| && list[i].name == n
  }

  /* ---- Looking a floor up ---- */

  function Find(list: seq<Floor>, n: Name, i: nat): Option<nat>
    requires i <= |list|
    decreases |list| - i
  {
    if i == |list| then None
    else if list[i].name == n then Some(list[i].sequence)
    else Find(list, n, i + 1)
  }

  lemma {:induction false} FindIs(list: seq<Floor>, n: Name, i: nat, k: nat)
    requires Distinct(list) && i <= k && At(list, n, k)
    ensures Find(list, n, i) == Some(list[k].sequence)
    decreases k - i
  {
    if i < k {
      FindIs(list, n, i + 1, k);
    }
  }

  lemma {:induction false} FindNone(list: seq<Floor>, n: Name, i: nat)
    requires i <= |list| && forall k | i <= k < |list| :: list[k].name != n
    ensures Find(list, n, i) == None
    decreases |list| - i
  {
    if i < |list| { FindNone(list, n, i + 1); }
  }

  /** The floor a record for n has to meet. */
  function FloorFor(s: Floors, n: Name, allowLegacy: bool): Option<nat> {
    var found := Find(s.list, n, 0);
    if found.None? && allowLegacy then s.legacy else found
  }

  /* ---- Raising one ---- */

  /** The floors of the other names, in order. */
  function Rest(list: seq<Floor>, n: Name, upTo: nat): seq<Floor>
    requires upTo <= |list|
  {
    if upTo == 0 then []
    else if list[upTo - 1].name == n then Rest(list, n, upTo - 1)
    else Rest(list, n, upTo - 1) + [list[upTo - 1]]
  }

  function Victim(list: seq<Floor>, delegated: Option<Name>): nat
    requires |list| > MAX_NAMES
  {
    if delegated == Some(list[|list| - 1].name) then |list| - 2 else |list| - 1
  }

  function Trimmed(list: seq<Floor>, delegated: Option<Name>): seq<Floor> {
    if |list| <= MAX_NAMES then list
    else list[..Victim(list, delegated)] + list[Victim(list, delegated) + 1..]
  }

  function Front(s: Floors, n: Name, sequence: nat): seq<Floor> {
    Trimmed([Floor(n, sequence)] + Rest(s.list, n, |s.list|), s.delegated)
  }

  /** setIPNSSeq: a sequence below the floor changes nothing; otherwise the name
      goes to the front, and a legacy floor it took over is retired. */
  function Raised(s: Floors, n: Name, sequence: nat, allowLegacy: bool): Floors {
    var floor := FloorFor(s, n, allowLegacy);
    if floor.Some? && sequence < floor.value then s
    else s.(list := Front(s, n, sequence), legacy := if Find(s.list, n, 0).None? && allowLegacy then None else s.legacy)
  }

  /** stageSourceIPNSSeq: the name goes to the front whatever the sequence, which
      only ever raises its floor. */
  function RaisedSource(s: Floors, n: Name, sequence: nat): Floors {
    var floor := Find(s.list, n, 0);
    s.(list := Front(s, n, if floor.Some? && floor.value > sequence then floor.value else sequence))
  }

  datatype Event =
    | Raise(name: Name, sequence: nat, allowLegacy: bool)
    | RaiseSource(name: Name, sequence: nat)
    | Delegate(name: Name)

  function Step(s: Floors, e: Event): Floors {
    match e
    case Raise(n, sequence, allowLegacy) => Raised(s, n, sequence, allowLegacy)
    case RaiseSource(n, sequence) => RaisedSource(s, n, sequence)
    case Delegate(n) => s.(delegated := Some(n))
  }

  /* ---- What raising does to the list ---- */

  lemma {:induction false} RestIs(list: seq<Floor>, n: Name, upTo: nat)
    requires upTo <= |list|
    ensures |Rest(list, n, upTo)| <= upTo
    ensures forall f | f in Rest(list, n, upTo) :: f.name != n && f in list[..upTo]
    decreases upTo
  {
    if upTo > 0 {
      RestIs(list, n, upTo - 1);
      assert list[..upTo] == list[..upTo - 1] + [list[upTo - 1]];
    }
  }

  lemma {:induction false} RestDistinct(list: seq<Floor>, n: Name, upTo: nat)
    requires upTo <= |list| && Distinct(list)
    ensures Distinct(Rest(list, n, upTo))
    decreases upTo
  {
    if upTo > 0 {
      RestDistinct(list, n, upTo - 1);
      RestIs(list, n, upTo - 1);
      var r := Rest(list, n, upTo - 1);
      forall i | 0 <= i < |r| ensures r[i].name != list[upTo - 1].name {
        assert r[i] in list[..upTo - 1];
        var k :| 0 <= k < upTo - 1 && list[k] == r[i];
      }
    }
  }

  /** Another name keeps its floor, at no later a place among the others. */
  lemma {:induction false} RestKeeps(list: seq<Floor>, n: Name, upTo: nat, m: Name, k: nat) returns (j: nat)
    requires k < upTo <= |list| && list[k].name == m && m != n
    ensures j <= k && At(Rest(list, n, upTo), m, j) && Rest(list, n, upTo)[j] == list[k]
    decreases upTo
  {
    if k == upTo - 1 {
      RestIs(list, n, upTo - 1);
      j := |Rest(list, n, upTo - 1)|;
    } else {
      j := RestKeeps(list, n, upTo - 1, m, k);
    }
  }

  lemma {:induction false} TrimmedGood(list: seq<Floor>, delegated: Option<Name>)
    requires Distinct(list) && |list| <= MAX_NAMES + 1
    ensures Distinct(Trimmed(list, delegated)) && |Trimmed(list, delegated)| <= MAX_NAMES
  {
    if |list| > MAX_NAMES {
      var v, t := Victim(list, delegated), Trimmed(list, delegated);
      forall i, j | 0 <= i < j < |t| ensures t[i].name != t[j].name {
        assert t[i] == list[if i < v then i else i + 1] && t[j] == list[if j < v then j else j + 1];
      }
    }
  }

  lemma {:induction false} FrontGood(s: Floors, n: Name, sequence: nat)
    requires Good(s)
    ensures Distinct(Front(s, n, sequence)) && |Front(s, n, sequence)| <= MAX_NAMES
    ensures At(Front(s, n, sequence), n, 0) && Front(s, n, sequence)[0].sequence == sequence
  {
    var rest := Rest(s.list, n, |s.list|);
    RestIs(s.list, n, |s.list|);
    RestDistinct(s.list, n, |s.list|);
    TrimmedGood([Floor(n, sequence)] + rest, s.delegated);
  }

  /** Only one name can go, it is the last or last but one, and never the delegated one. */
  lemma {:induction false} FrontKeeps(s: Floors, n: Name, sequence: nat, m: Name, k: nat) returns (j: nat)
    requires Good(s) && At(s.list, m, k) && m != n && (s.delegated == Some(m) || k < MAX_NAMES - 2)
    ensures j <= k + 1 && At(Front(s, n, sequence), m, j) && Front(s, n, sequence)[j] == s.list[k]
  {
    RestIs(s.list, n, |s.list|);
    j := RestKeeps(s.list, n, |s.list|, m, k);
    var list := [Floor(n, sequence)] + Rest(s.list, n, |s.list|);
    assert list[j + 1] == s.list[k];
    if |list| <= MAX_NAMES {
      j := j + 1;
    } else {
      var v := Victim(list, s.delegated);
      FrontDistinct(s, n, sequence, list);
      assert j + 1 != v;
      if j + 1 < v { j := j + 1; }
    }
  }

  lemma {:induction false} FrontDistinct(s: Floors, n: Name, sequence: nat, list: seq<Floor>)
    requires Good(s) && list == [Floor(n, sequence)] + Rest(s.list, n, |s.list|)
    ensures Distinct(list)
  {
    RestIs(s.list, n, |s.list|);
    RestDistinct(s.list, n, |s.list|);
  }

  /* ---- One step ---- */

  /** No event breaks the bound or records a name twice. */
  lemma {:induction false} StepKeepsGood(s: Floors, e: Event)
    requires Good(s)
    ensures Good(Step(s, e))
  {
    match e
    case Raise(n, sequence, _) => FrontGood(s, n, sequence);
    case RaiseSource(n, sequence) =>
      var floor := Find(s.list, n, 0);
      FrontGood(s, n, if floor.Some? && floor.value > sequence then floor.value else sequence);
    case Delegate(_) =>
  }

  lemma {:induction false} FrontFrom(s: Floors, n: Name, sequence: nat, f: Floor)
    requires f in Front(s, n, sequence) && f.name != n
    ensures f in s.list
  {
    var list := [Floor(n, sequence)] + Rest(s.list, n, |s.list|);
    RestIs(s.list, n, |s.list|);
    assert f in list;
    assert s.list[..|s.list|] == s.list;
  }

  function Sequence(e: Event): nat {
    if e.Delegate? then 0 else e.sequence
  }

  /** The sequence a list has for a name it retains. */
  ghost predicate Floored(list: seq<Floor>, m: Name, q: nat) {
    exists k: nat :: At(list, m, k) && list[k].sequence == q
  }

  lemma {:induction false} FlooredIsFind(list: seq<Floor>, m: Name, q: nat)
    requires Distinct(list)
    ensures Floored(list, m, q) <==> Find(list, m, 0) == Some(q)
  {
    if k: nat :| At(list, m, k) {
      FindIs(list, m, 0, k);
    } else {
      forall k | 0 <= k < |list| ensures list[k].name != m { assert !At(list, m, k); }
      FindNone(list, m, 0);
    }
  }

  /** Whatever happens, a name that is still there has no lower a floor, and one
      at least as high as the sequence just accepted for it. */
  lemma {:induction false} StepKeepsFloor(s: Floors, e: Event, m: Name, q: nat, q': nat)
    requires Good(s) && Floored(s.list, m, q) && Floored(Step(s, e).list, m, q')
    ensures q' >= q
    ensures e.name == m ==> q' >= Sequence(e)
  {
    FlooredIsFind(s.list, m, q);
    StepKeepsGood(s, e);
    FlooredIsFind(Step(s, e).list, m, q');
    var k: nat :| At(Step(s, e).list, m, k) && Step(s, e).list[k].sequence == q';
    if !e.Delegate? && Step(s, e).list != s.list {
      var sequence := Step(s, e).list[0].sequence;
      RaisesFront(s, e);
      FrontGood(s, e.name, sequence);
      if e.name != m {
        FrontFrom(s, e.name, sequence, Step(s, e).list[k]);
        var j :| 0 <= j < |s.list| && s.list[j] == Step(s, e).list[k];
        FindIs(s.list, m, 0, j);
      }
    }
  }

  /** After a raise the floor of that name is at least the sequence raised. */
  lemma {:induction false} RaiseTakesEffect(s: Floors, e: Event)
    requires Good(s) && !e.Delegate?
    ensures var floor := FloorFor(Step(s, e), e.name, e.Raise? && e.allowLegacy);
            floor.Some? && floor.value >= e.sequence
  {
    StepKeepsGood(s, e);
    var list := Step(s, e).list;
    if list == s.list {
      var floor := Find(s.list, e.name, 0);
      var q := if e.RaiseSource? && floor.Some? && floor.value > e.sequence then floor.value else e.sequence;
      FrontGood(s, e.name, q);
      if At(list, e.name, 0) { FindIs(list, e.name, 0, 0); }
    } else {
      RaisesFront(s, e);
      FrontGood(s, e.name, list[0].sequence);
      FindIs(list, e.name, 0, 0);
    }
  }

  /** The floor a record has to meet: the name's own while it is retained, and
      otherwise the legacy one where that may still apply. */
  lemma {:induction false} FloorIs(s: Floors, n: Name, allowLegacy: bool, q: nat)
    requires Good(s)
    ensures FloorFor(s, n, allowLegacy) == Some(q) <==>
            Floored(s.list, n, q) || (!Has(s.list, n) && allowLegacy && s.legacy == Some(q))
  {
    FlooredIsFind(s.list, n, q);
    if Has(s.list, n) {
      var k :| 0 <= k < |s.list| && s.list[k].name == n;
      assert At(s.list, n, k);
      FindIs(s.list, n, 0, k);
    } else {
      FindNone(s.list, n, 0);
    }
  }

  /** The floor a name has after a raise is exactly the higher of the sequence and
      the floor it had. */
  lemma {:induction false} RaiseIsExact(s: Floors, e: Event)
    requires Good(s) && !e.Delegate?
    ensures var legacy := e.Raise? && e.allowLegacy;
            var floor := FloorFor(s, e.name, legacy);
            FloorFor(Step(s, e), e.name, legacy) ==
            Some(if floor.Some? && floor.value > e.sequence then floor.value else e.sequence)
  {
    var floor := FloorFor(s, e.name, e.Raise? && e.allowLegacy);
    if e.RaiseSource? || floor.None? || e.sequence >= floor.value {
      var q := if floor.Some? && floor.value > e.sequence then floor.value else e.sequence;
      FrontGood(s, e.name, q);
      FindIs(Step(s, e).list, e.name, 0, 0);
    }
  }

  lemma {:induction false} RestOfOthers(list: seq<Floor>, n: Name, upTo: nat)
    requires upTo <= |list| && forall i | 0 <= i < upTo :: list[i].name != n
    ensures Rest(list, n, upTo) == list[..upTo]
    decreases upTo
  {
    if upTo > 0 {
      RestOfOthers(list, n, upTo - 1);
      assert list[..upTo] == list[..upTo - 1] + [list[upTo - 1]];
    }
  }

  /** Which name goes when a new one is raised: none while there is room, else the
      last, or the one before it if DNSLink delegates to the last. The others keep
      their floors and their order. */
  lemma {:induction false} NewNameEvicts(s: Floors, e: Event)
    requires Good(s) && !e.Delegate? && !Has(s.list, e.name) && Step(s, e).list != s.list
    ensures var list, n := Step(s, e).list, |s.list|;
            && list != [] && list[0].name == e.name
            && list[1..] ==
               if n < MAX_NAMES then s.list
               else if s.delegated == Some(s.list[n - 1].name) then s.list[..n - 2] + [s.list[n - 1]]
               else s.list[..n - 1]
  {
    RestOfOthers(s.list, e.name, |s.list|);
    assert s.list[..|s.list|] == s.list;
    RaisesFront(s, e);
  }

  /** A raise leaves the floor of every other name as it is, if it stays. */
  lemma {:induction false} OthersStay(s: Floors, e: Event, m: Name, q: nat)
    requires Good(s) && m != e.name && Floored(Step(s, e).list, m, q)
    ensures Floored(s.list, m, q)
  {
    if !e.Delegate? && Step(s, e).list != s.list {
      RaisesFront(s, e);
      var k: nat :| At(Step(s, e).list, m, k) && Step(s, e).list[k].sequence == q;
      FrontFrom(s, e.name, Step(s, e).list[0].sequence, Step(s, e).list[k]);
      var j :| 0 <= j < |s.list| && s.list[j] == Step(s, e).list[k];
      assert At(s.list, m, j);
    }
  }

  /** A step either leaves the list alone or brings the event's name to the front. */
  lemma {:induction false} RaisesFront(s: Floors, e: Event)
    requires Good(s) && !e.Delegate? && Step(s, e).list != s.list
    ensures |Step(s, e).list| > 0 && Step(s, e).list == Front(s, e.name, Step(s, e).list[0].sequence)
    ensures Step(s, e).list[0].sequence >= e.sequence
    ensures Find(s.list, e.name, 0).Some? ==> Step(s, e).list[0].sequence >= Find(s.list, e.name, 0).value
  {
    var floor := Find(s.list, e.name, 0);
    var q := if e.RaiseSource? && floor.Some? && floor.value > e.sequence then floor.value else e.sequence;
    FrontGood(s, e.name, q);
  }

  /** A name is evicted only from the last two places, and not while delegated. */
  lemma {:induction false} StepRetains(s: Floors, e: Event, m: Name, k: nat) returns (j: nat)
    requires Good(s) && At(s.list, m, k) && (s.delegated == Some(m) || k < MAX_NAMES - 2)
    ensures j <= k + 1 && At(Step(s, e).list, m, j)
  {
    j := k;
    if !e.Delegate? && Step(s, e).list != s.list {
      RaisesFront(s, e);
      var sequence := Step(s, e).list[0].sequence;
      FrontGood(s, e.name, sequence);
      if e.name == m { j := 0; } else { j := FrontKeeps(s, e.name, sequence, m, k); }
    }
  }

  /* ---- Runs ---- */

  function Run(s: Floors, events: seq<Event>): Floors
    decreases |events|
  {
    if events == [] then s else Step(Run(s, events[..|events| - 1]), events[|events| - 1])
  }

  lemma {:induction false} RunKeepsGood(s: Floors, events: seq<Event>)
    requires Good(s)
    ensures Good(Run(s, events))
    decreases |events|
  {
    if events != [] {
      RunKeepsGood(s, events[..|events| - 1]);
      StepKeepsGood(Run(s, events[..|events| - 1]), events[|events| - 1]);
    }
  }

  /** m was never out of the set during the run. */
  ghost predicate Throughout(s: Floors, events: seq<Event>, m: Name)
    decreases |events|
  {
    Has(Run(s, events).list, m) && (events != [] ==> Throughout(s, events[..|events| - 1], m))
  }

  /** While a name is retained its floor never falls, and is at least every
      sequence accepted for it meanwhile. */
  lemma {:induction false} RetainedNeverFalls(s: Floors, events: seq<Event>, m: Name, q: nat, q': nat)
    requires Good(s) && Throughout(s, events, m) && Floored(s.list, m, q) && Floored(Run(s, events).list, m, q')
    ensures q' >= q
    ensures forall i | 0 <= i < |events| && events[i].name == m :: q' >= Sequence(events[i])
    decreases |events|
  {
    if events == [] {
      FlooredIsFind(s.list, m, q);
      FlooredIsFind(s.list, m, q');
    } else {
      var before, e := events[..|events| - 1], events[|events| - 1];
      var k :| 0 <= k < |Run(s, before).list| && Run(s, before).list[k].name == m;
      var mid := Run(s, before).list[k].sequence;
      assert At(Run(s, before).list, m, k);
      RetainedNeverFalls(s, before, m, q, mid);
      RunKeepsGood(s, before);
      StepKeepsFloor(Run(s, before), e, m, mid, q');
      forall i | 0 <= i < |events| && events[i].name == m ensures q' >= Sequence(events[i]) {
        assert i < |before| ==> before[i] == events[i];
      }
    }
  }

  predicate KeepsDelegation(events: seq<Event>, d: Name) {
    forall i | 0 <= i < |events| && events[i].Delegate? :: events[i].name == d
  }

  /** The delegated name, once recorded, stays while it is the delegation, however
      many other names are raised. */
  lemma {:induction false} DelegatedStays(s: Floors, events: seq<Event>, d: Name)
    requires Good(s) && s.delegated == Some(d) && Has(s.list, d) && KeepsDelegation(events, d)
    ensures Run(s, events).delegated == Some(d) && Throughout(s, events, d)
    decreases |events|
  {
    if events != [] {
      var before, e := events[..|events| - 1], events[|events| - 1];
      assert forall i | 0 <= i < |before| :: before[i] == events[i];
      DelegatedStays(s, before, d);
      RunKeepsGood(s, before);
      var k :| 0 <= k < |Run(s, before).list| && Run(s, before).list[k].name == d;
      var j := StepRetains(Run(s, before), e, d, k);
    }
  }

  /** The names raised most recently stay: one at place k outlasts the next 30 - k
      events, whatever they are. */
  lemma {:induction false} RecentStays(s: Floors, events: seq<Event>, m: Name, k: nat) returns (j: nat)
    requires Good(s) && At(s.list, m, k) && k + |events| <= MAX_NAMES - 2
    ensures j <= k + |events| && At(Run(s, events).list, m, j)
    decreases |events|
  {
    if events == [] { return k; }
    var before, e := events[..|events| - 1], events[|events| - 1];
    j := RecentStays(s, before, m, k);
    RunKeepsGood(s, before);
    j := StepRetains(Run(s, before), e, m, j);
  }

  /* ---- The store ---- */

  /** The floors of one follower, or of one source, as the store keeps them. */
  class FloorStore {
    var list: seq<Floor>
    var legacy: Option<nat>
    var delegated: Option<Name>

    constructor (legacy: Option<nat>)
      ensures State() == Floors([], legacy, None) && Good(State())
    {
      this.list, this.legacy, this.delegated := [], legacy, None;
    }

    function State(): Floors
      reads this
    {
      Floors(list, legacy, delegated)
    }

    method Recorded(n: Name) returns (floor: Option<nat>)
      ensures floor == Find(list, n, 0)
    {
      for i := 0 to |list|
        invariant Find(list, n, 0) == Find(list, n, i)
      {
        if list[i].name == n { return Some(list[i].sequence); }
      }
      return None;
    }

    method BringToFront(n: Name, sequence: nat)
      requires Good(State())
      modifies this`list
      ensures list == Front(old(State()), n, sequence)
    {
      var out := [Floor(n, sequence)];
      for i := 0 to |list|
        invariant out == [Floor(n, sequence)] + Rest(list, n, i)
      {
        if list[i].name != n { out := out + [list[i]]; }
      }
      if |out| > MAX_NAMES {
        var drop := |out| - 1;
        if delegated == Some(out[drop].name) { drop := drop - 1; }
        out := out[..drop] + out[drop + 1..];
      }
      list := out;
    }

    /** The follower's own floor: a replay below it changes nothing. */
    method SetSequence(n: Name, sequence: nat, allowLegacy: bool)
      requires Good(State())
      modifies this
      ensures Good(State()) && State() == Raised(old(State()), n, sequence, allowLegacy)
    {
      var current := Recorded(n);
      var migrate := false;
      if current.None? && allowLegacy {
        current := legacy;
        migrate := current.Some?;
      }
      if current.Some? && sequence < current.value { return; }
      FrontGood(State(), n, sequence);
      BringToFront(n, sequence);
      if migrate { legacy := None; }
    }

    /** A source's floor: the higher of what is recorded and what is observed. */
    method StageSequence(n: Name, sequence: nat)
      requires Good(State())
      modifies this
      ensures Good(State()) && State() == RaisedSource(old(State()), n, sequence)
    {
      var current := Recorded(n);
      var q := if current.Some? && current.value > sequence then current.value else sequence;
      FrontGood(State(), n, q);
      BringToFront(n, q);
    }

    /** The channel observation of one poll: a document that came by a record below
        the floor is refused, any other record raises the floor. */
    method Observe(n: Name, sequence: nat, byIpns: bool, allowLegacy: bool) returns (refused: bool)
      requires Good(State())
      modifies this
      ensures Good(State()) && State() == Raised(old(State()), n, sequence, allowLegacy)
      ensures refused <==>
              byIpns && FloorFor(old(State()), n, allowLegacy).Some? &&
              sequence < FloorFor(old(State()), n, allowLegacy).value
      ensures !refused && byIpns ==> Find(list, n, 0) == Some(sequence)
    {
      var floor := Recorded(n);
      if floor.None? && allowLegacy { floor := legacy; }
      if floor.Some? && sequence < floor.value { return byIpns; }
      FrontGood(State(), n, sequence);
      SetSequence(n, sequence, allowLegacy);
      return false;
    }

    method Delegate(n: Name)
      requires Good(State())
      modifies this`delegated
      ensures Good(State()) && State() == Step(old(State()), Event.Delegate(n))
    {
      delegated := Some(n);
    }
  }

  /* ---- The durable form ---- */

  predicate Storable(list: seq<Floor>) {
    |list| <= MAX_NAMES && forall i | 0 <= i < |list| ::
      0 < |list[i].name| < 65536 && list[i].sequence < 0x1_0000_0000_0000_0000
  }

  function PutFloors(list: seq<Floor>, i: nat): seq<byte>
    requires i <= |list|
    decreases |list| - i
  {
    if i == |list| then [] else PutSized(list[i].name, 2, PutInt(list[i].sequence, 8, PutFloors(list, i + 1)))
  }

  function EncodeFloors(list: seq<Floor>): (r: Result<seq<byte>>) {
    if Storable(list) then Ok(PutInt(1, 1, PutInt(|list|, 1, PutFloors(list, 0)))) else Err(Malformed)
  }

  function TakeFloors(b: seq<byte>, count: nat): Result<seq<Floor>>
    decreases count
  {
    if count == 0 then if b == [] then Ok([]) else Err(Malformed) else
      var (name, b1) :- TakeSized(b, 2, 65535);
      if name == [] then Err(Malformed) else
        var (sequence, b2) :- TakeInt(b1, 8);
        var others :- TakeFloors(b2, count - 1);
        Ok([Floor(name, sequence)] + others)
  }

  function DecodeFloors(b: seq<byte>): Result<seq<Floor>> {
    var (version, b1) :- TakeInt(b, 1);
    var (count, b2) :- TakeInt(b1, 1);
    if version != 1 || count > MAX_NAMES then Err(Malformed) else TakeFloors(b2, count)
  }

  lemma {:induction false} TakeFloorsStep(f: Floor, more: seq<byte>, others: seq<Floor>, count: nat)
    requires 0 < |f.name| < 65536 && f.sequence < 0x1_0000_0000_0000_0000
    requires count >= 1 && TakeFloors(more, count - 1) == Ok(others)
    ensures TakeFloors(PutSized(f.name, 2, PutInt(f.sequence, 8, more)), count) == Ok([f] + others)
  {
    Widths();
    TakePutSized(f.name, 2, 65535, PutInt(f.sequence, 8, more));
    TakePutInt(f.sequence, 8, more);
  }

  lemma {:induction false} FloorsRound(list: seq<Floor>, i: nat, count: nat)
    requires Storable(list) && i <= |list| && count == |list| - i
    ensures TakeFloors(PutFloors(list, i), count) == Ok(list[i..])
    decreases count
  {
    if i < |list| {
      FloorsRound(list, i + 1, count - 1);
      TakeFloorsStep(list[i], PutFloors(list, i + 1), list[i + 1..], count);
      Uncons(list, i);
    } else {
      assert list[i..] == [];
    }
  }

  /** What is stored reads back, order and floors alike. */
  lemma {:induction false} FloorsRoundTrip(list: seq<Floor>)
    requires Storable(list)
    ensures EncodeFloors(list).Ok? && DecodeFloors(EncodeFloors(list).value) == Ok(list)
  {
    Widths();
    var b2 := PutFloors(list, 0);
    var b1 := PutInt(|list|, 1, b2);
    TakePutInt(1, 1, b1);
    TakePutInt(|list|, 1, b2);
    FloorsRound(list, 0, |list|);
    assert list[0..] == list;
  }
}
