/**
 The event counters under every interleaving of recording threads: a total, and three families of counters
 keyed by labels, each a map behind a read-write lock whose counters are created on first use.
*/
module Counters {
  type Labels = seq<(string, string)>

  /**
   One labelled counter. `counters` maps labels to a cell; `cells` are all counters ever created, and
   `owners[c]` are the labels cell `c` was created for.
  */
  datatype Family = Family(counters: map<Labels, nat>, cells: seq<int>, owners: seq<Labels>)

  /** Where a thread stands. `Fast` and `Slow` are the lookups under the read and the write lock of a family. */
  datatype Stage = Begin | Fast(family: nat) | Slow(family: nat) | Got(family: nat, cell: nat) | Ended

  /** A thread records one event, or flushes a batch. */
  datatype Thread =
    | Recorder(eventType: string, root: string, stage: Stage)
    | Flusher(count: int, counted: bool, ended: bool)

  datatype State = State(total: int, flushes: int, families: seq<Family>, threads: seq<Thread>)

  const BY_TYPE := 0
  const BY_ROOT := 1
  const BY_TYPE_ROOT := 2
  const FAMILIES := 3

  function Key(eventType: string, root: string, f: nat): Labels
  {
    if f == BY_TYPE then [("type", eventType)]
    else if f == BY_ROOT then [("root", root)]
    else [("type", eventType), ("root", root)]
  }

  function KeyOf(t: Thread, f: nat): Labels
    requires t.Recorder?
  {
    Key(t.eventType, t.root, f)
  }

  // ---------------------------------------------------------------- steps

  datatype Step =
    | Spawn(thread: Thread)
    | CountTotal(k: nat)
    | LookUp(k: nat)
    | Insert(k: nat)
    | Increment(k: nat)
    | CountFlush(k: nat)
    | AddFlushed(k: nat)

  function Following(f: nat): Stage
  {
    if f + 1 < FAMILIES then Fast(f + 1) else Ended
  }

  function Move(s: State, k: nat, stage: Stage): seq<Thread>
    requires k < |s.threads| && s.threads[k].Recorder?
  {
    s.threads[k := s.threads[k].(stage := stage)]
  }

  /** Creates the counter for `key`. */
  function Created(m: Family, key: Labels): Family
  {
    Family(m.counters[key := |m.cells|], m.cells + [0], m.owners + [key])
  }

  ghost predicate Recording(s: State, k: nat)
  {
    k < |s.threads| && s.threads[k].Recorder?
  }

  ghost predicate Next(s: State, step: Step, t: State)
  {
    match step
    case Spawn(thread) =>
      && (if thread.Recorder? then thread.stage == Begin else !thread.counted && !thread.ended)
      && t == s.(threads := s.threads + [thread])
    case CountTotal(k) =>
      && Recording(s, k) && s.threads[k].stage.Begin?
      && t == s.(total := s.total + 1, threads := Move(s, k, Fast(BY_TYPE)))
    case LookUp(k) =>
      && Recording(s, k) && s.threads[k].stage.Fast? && s.threads[k].stage.family < |s.families|
      && var f := s.threads[k].stage.family;
      && var m := s.families[f].counters;
      && var key := KeyOf(s.threads[k], f);
      && t == s.(threads := Move(s, k, if key in m then Got(f, m[key]) else Slow(f)))
    case Insert(k) =>
      && Recording(s, k) && s.threads[k].stage.Slow? && s.threads[k].stage.family < |s.families|
      && var f := s.threads[k].stage.family;
      && var key := KeyOf(s.threads[k], f);
      && var m := if key in s.families[f].counters then s.families[f] else Created(s.families[f], key);
      && t == s.(families := s.families[f := m], threads := Move(s, k, Got(f, m.counters[key])))
    case Increment(k) =>
      && Recording(s, k) && s.threads[k].stage.Got? && s.threads[k].stage.family < |s.families|
      && var f, c := s.threads[k].stage.family, s.threads[k].stage.cell;
      && var m := s.families[f];
      && c < |m.cells|
      && t == s.(families := s.families[f := m.(cells := m.cells[c := m.cells[c] + 1])],
                 threads := Move(s, k, Following(f)))
    case CountFlush(k) =>
      && k < |s.threads| && s.threads[k].Flusher? && !s.threads[k].counted
      && t == s.(flushes := s.flushes + 1, threads := s.threads[k := s.threads[k].(counted := true)])
    case AddFlushed(k) =>
      && k < |s.threads| && s.threads[k].Flusher? && s.threads[k].counted && !s.threads[k].ended
      && t == s.(total := s.total + s.threads[k].count, threads := s.threads[k := s.threads[k].(ended := true)])
  }

  ghost predicate Init(s: State)
  {
    s == State(0, 0, [Family(map[], [], []), Family(map[], [], []), Family(map[], [], [])], [])
  }

  ghost predicate Run(states: seq<State>, steps: seq<Step>)
  {
    && |states| == |steps| + 1 && Init(states[0])
    && forall i :: 0 <= i < |steps| ==> Next(states[i], steps[i], states[i + 1])
  }

  // ---------------------------------------------------------------- one counter per key

  /** Each cell ever created is the counter of its own labels: no labels have had two counters. */
  ghost predicate OneCellPerKey(m: Family)
  {
    && |m.owners| == |m.cells|
    && (forall c :: 0 <= c < |m.owners| ==> m.owners[c] in m.counters && m.counters[m.owners[c]] == c)
    && (forall key :: key in m.counters ==> m.counters[key] < |m.owners| && m.owners[m.counters[key]] == key)
  }

  /** A thread holding a counter holds the one in the map. */
  ghost predicate HandleIsCurrent(s: State, t: Thread)
  {
    t.Recorder? ==>
      && (t.stage.Fast? || t.stage.Slow? || t.stage.Got? ==> t.stage.family < |s.families|)
      && (t.stage.Got? ==>
            && KeyOf(t, t.stage.family) in s.families[t.stage.family].counters
            && s.families[t.stage.family].counters[KeyOf(t, t.stage.family)] == t.stage.cell)
  }

  ghost predicate Consistent(s: State)
  {
    && |s.families| == FAMILIES
    && (forall f :: 0 <= f < FAMILIES ==> OneCellPerKey(s.families[f]))
    && (forall k :: 0 <= k < |s.threads| ==> HandleIsCurrent(s, s.threads[k]))
  }

  lemma CreatedKeepsOneCell(m: Family, key: Labels)
    requires OneCellPerKey(m) && key !in m.counters
    ensures OneCellPerKey(Created(m, key))
    ensures forall old' :: old' in m.counters ==> Created(m, key).counters[old'] == m.counters[old']
  {
  }

  lemma ConsistentStep(s: State, step: Step, t: State)
    requires Consistent(s) && Next(s, step, t)
    ensures Consistent(t)
    ensures forall f, key :: 0 <= f < FAMILIES && key in s.families[f].counters ==>
      key in t.families[f].counters && t.families[f].counters[key] == s.families[f].counters[key]
  {
    hide Key;
    if step.Insert? {
      var f := s.threads[step.k].stage.family;
      var key := KeyOf(s.threads[step.k], f);
      if key !in s.families[f].counters {
        hide OneCellPerKey;
        CreatedKeepsOneCell(s.families[f], key);
      }
    }
  }

  lemma InitIsConsistent(s: State)
    requires Init(s)
    ensures Consistent(s)
  {
  }

  /** Every state of every run is consistent, and a counter once in the map stays the counter of its labels. */
  lemma {:induction false} RunsAreConsistent(states: seq<State>, steps: seq<Step>, i: nat, j: nat)
    requires Run(states, steps) && i <= j < |states|
    ensures Consistent(states[i]) && Consistent(states[j])
    ensures forall f, key :: 0 <= f < FAMILIES && key in states[i].families[f].counters ==>
      key in states[j].families[f].counters && states[j].families[f].counters[key] ==
        states[i].families[f].counters[key]
    decreases j
  {
    hide Next, Consistent;
    if j == 0 {
      InitIsConsistent(states[0]);
    } else if i < j {
      RunsAreConsistent(states, steps, i, j - 1);
      ConsistentStep(states[j - 1], steps[j - 1], states[j]);
    } else {
      RunsAreConsistent(states, steps, j - 1, j - 1);
      ConsistentStep(states[j - 1], steps[j - 1], states[j]);
    }
  }

  // ---------------------------------------------------------------- sums over threads and counters

  /** The sum over all threads of what `w` says of each. */
  ghost function Tally(threads: seq<Thread>, w: Thread -> int): int
  {
    if threads == [] then 0 else Tally(threads[..|threads| - 1], w) + w(threads[|threads| - 1])
  }

  /** The sum of the counters whose labels `p` chooses. */
  ghost function Sum(owners: seq<Labels>, cells: seq<int>, p: Labels -> bool): int
    requires |owners| == |cells|
  {
    if cells == [] then 0
    else
      var n := |cells| - 1;
      Sum(owners[..n], cells[..n], p) + if p(owners[n]) then cells[n] else 0
  }

  /** What a family shows for the labels `p` chooses. */
  ghost function Shown(m: Family, p: Labels -> bool): int
    requires |m.owners| == |m.cells|
  {
    Sum(m.owners, m.cells, p)
  }

  lemma {:induction false} TallyUpdate(threads: seq<Thread>, k: nat, t: Thread, w: Thread -> int)
    requires k < |threads|
    ensures Tally(threads[k := t], w) == Tally(threads, w) - w(threads[k]) + w(t)
  {
    var n := |threads| - 1;
    if k == n {
      assert threads[k := t][..n] == threads[..n];
    } else {
      assert threads[k := t][..n] == threads[..n][k := t];
      TallyUpdate(threads[..n], k, t, w);
    }
  }

  lemma TallySpawn(threads: seq<Thread>, t: Thread, w: Thread -> int)
    ensures Tally(threads + [t], w) == Tally(threads, w) + w(t)
  {
    assert (threads + [t])[..|threads|] == threads;
  }

  lemma {:induction false} TallySplit(threads: seq<Thread>, w: Thread -> int, a: Thread -> int, b: Thread -> int)
    requires forall t :: t in threads ==> w(t) == a(t) + b(t)
    ensures Tally(threads, w) == Tally(threads, a) + Tally(threads, b)
  {
    if threads != [] {
      TallySplit(threads[..|threads| - 1], w, a, b);
    }
  }

  lemma {:induction false} TallyZero(threads: seq<Thread>, w: Thread -> int)
    requires forall t :: t in threads ==> w(t) == 0
    ensures Tally(threads, w) == 0
  {
    if threads != [] {
      TallyZero(threads[..|threads| - 1], w);
    }
  }

  lemma {:induction false} SumUpdate(owners: seq<Labels>, cells: seq<int>, c: nat, p: Labels -> bool)
    requires |owners| == |cells| && c < |cells|
    ensures Sum(owners, cells[c := cells[c] + 1], p) == Sum(owners, cells, p) + if p(owners[c]) then 1 else 0
  {
    var n := |cells| - 1;
    if c == n {
      assert cells[c := cells[c] + 1][..n] == cells[..n];
    } else {
      assert cells[c := cells[c] + 1][..n] == cells[..n][c := cells[c] + 1];
      SumUpdate(owners[..n], cells[..n], c, p);
    }
  }

  lemma SumCreated(m: Family, key: Labels, p: Labels -> bool)
    requires |m.owners| == |m.cells|
    ensures Sum(m.owners + [key], m.cells + [0], p) == Sum(m.owners, m.cells, p)
  {
    assert (m.owners + [key])[..|m.cells|] == m.owners && (m.cells + [0])[..|m.cells|] == m.cells;
  }

  lemma {:induction false} SumOfOne(owners: seq<Labels>, cells: seq<int>, c: nat)
    requires |owners| == |cells| && c < |cells|
    requires forall d :: 0 <= d < |owners| && owners[d] == owners[c] ==> d == c
    ensures Sum(owners, cells, Is(owners[c])) == cells[c]
  {
    var n := |cells| - 1;
    if c == n {
      SumOfNone(owners[..n], cells[..n], owners[c]);
    } else {
      SumOfOne(owners[..n], cells[..n], c);
    }
  }

  lemma {:induction false} SumOfNone(owners: seq<Labels>, cells: seq<int>, key: Labels)
    requires |owners| == |cells| && key !in owners
    ensures Sum(owners, cells, Is(key)) == 0
  {
    if cells != [] {
      SumOfNone(owners[..|cells| - 1], cells[..|cells| - 1], key);
    }
  }

  // ---------------------------------------------------------------- no increment is lost

  function Is(key: Labels): Labels -> bool
  {
    (labels: Labels) => labels == key
  }

  function Any(): Labels -> bool
  {
    (labels: Labels) => true
  }

  /** The thread's record has been counted in family `f`. */
  predicate Passed(t: Thread, f: nat)
  {
    t.Recorder? &&
    match t.stage
    case Begin => false
    case Fast(g) => f < g
    case Slow(g) => f < g
    case Got(g, _) => f < g
    case Ended => true
  }

  /** Records with labels chosen by `p` that have been counted in family `f`. */
  function Recorded(f: nat, p: Labels -> bool): Thread -> int
  {
    (t: Thread) => if Passed(t, f) && p(KeyOf(t, f)) then 1 else 0
  }

  ghost predicate NoneLost(s: State, f: nat, p: Labels -> bool)
    requires |s.families| == FAMILIES && f < FAMILIES
  {
    && |s.families[f].owners| == |s.families[f].cells|
    && Shown(s.families[f], p) == Tally(s.threads, Recorded(f, p))
  }

  lemma RecordedUpdate(threads: seq<Thread>, k: nat, t: Thread, f: nat, p: Labels -> bool)
    requires k < |threads|
    ensures var w := Recorded(f, p);
      Tally(threads[k := t], w) == Tally(threads, w)
        - (if Passed(threads[k], f) && p(KeyOf(threads[k], f)) then 1 else 0)
        + (if Passed(t, f) && p(KeyOf(t, f)) then 1 else 0)
  {
    TallyUpdate(threads, k, t, Recorded(f, p));
  }

  lemma IncrementKeepsNoneLost(s: State, k: nat, t: State, f: nat, p: Labels -> bool)
    requires Consistent(s) && Next(s, Increment(k), t) && f < FAMILIES && NoneLost(s, f, p)
    ensures |t.families| == FAMILIES && NoneLost(t, f, p)
  {
    hide Key, Sum, Tally;
    RecordedUpdate(s.threads, k, t.threads[k], f, p);
    assert HandleIsCurrent(s, s.threads[k]);
    var g, c := s.threads[k].stage.family, s.threads[k].stage.cell;
    SumUpdate(s.families[g].owners, s.families[g].cells, c, p);
  }

  lemma NoneLostStep(s: State, step: Step, t: State, f: nat, p: Labels -> bool)
    requires Consistent(s) && Next(s, step, t) && f < FAMILIES && NoneLost(s, f, p)
    ensures |t.families| == FAMILIES && NoneLost(t, f, p)
  {
    if step.Increment? {
      IncrementKeepsNoneLost(s, step.k, t, f, p);
    } else {
      assert |s.families| == FAMILIES;
      hide Key, Sum, Tally, Consistent;
      match step
      case Spawn(thread) =>
        assert !Passed(thread, f);
        TallySpawn(s.threads, thread, Recorded(f, p));
      case CountTotal(k) =>
        RecordedUpdate(s.threads, k, t.threads[k], f, p);
      case LookUp(k) =>
        RecordedUpdate(s.threads, k, t.threads[k], f, p);
      case Insert(k) =>
        RecordedUpdate(s.threads, k, t.threads[k], f, p);
        SumCreated(s.families[f], KeyOf(s.threads[k], f), p);
      case CountFlush(k) =>
        RecordedUpdate(s.threads, k, t.threads[k], f, p);
      case AddFlushed(k) =>
        RecordedUpdate(s.threads, k, t.threads[k], f, p);
    }
  }

  /**
   However the threads interleave, the counters with the labels `p` chooses add up to the records with such
   labels that have been counted in the family.
  */
  lemma {:induction false} NoIncrementIsLost(states: seq<State>, steps: seq<Step>, i: nat, f: nat, p: Labels -> bool)
    requires Run(states, steps) && i < |states| && f < FAMILIES
    ensures |states[i].families| == FAMILIES && NoneLost(states[i], f, p)
  {
    hide Next, Consistent;
    if i > 0 {
      RunsAreConsistent(states, steps, i - 1, i - 1);
      NoIncrementIsLost(states, steps, i - 1, f, p);
      NoneLostStep(states[i - 1], steps[i - 1], states[i], f, p);
    }
  }

  /** The value read for some labels; labels without a counter have none. */
  ghost function Value(m: Family, key: Labels): int
    requires OneCellPerKey(m)
  {
    if key in m.counters then m.cells[m.counters[key]] else 0
  }

  lemma ValueIsSum(m: Family, key: Labels)
    requires OneCellPerKey(m)
    ensures Value(m, key) == Shown(m, Is(key))
  {
    if key in m.counters {
      SumOfOne(m.owners, m.cells, m.counters[key]);
    } else {
      SumOfNone(m.owners, m.cells, key);
    }
  }

  /** Each single counter shows the number of records with its labels. */
  lemma CounterShowsItsRecords(states: seq<State>, steps: seq<Step>, i: nat, f: nat, key: Labels)
    requires Run(states, steps) && i < |states| && f < FAMILIES
    ensures |states[i].families| == FAMILIES && OneCellPerKey(states[i].families[f])
    ensures Value(states[i].families[f], key) == Tally(states[i].threads, Recorded(f, Is(key)))
  {
    RunsAreConsistent(states, steps, i, i);
    NoIncrementIsLost(states, steps, i, f, Is(key));
    ValueIsSum(states[i].families[f], key);
  }

  /** Records of an event type, below a root, and both, counted in the family for them. */
  function CountedByType(eventType: string): Thread -> int
  {
    (t: Thread) => if Passed(t, 0) && t.eventType == eventType then 1 else 0
  }

  function CountedByRoot(root: string): Thread -> int
  {
    (t: Thread) => if Passed(t, 1) && t.root == root then 1 else 0
  }

  function CountedByBoth(eventType: string, root: string): Thread -> int
  {
    (t: Thread) => if Passed(t, 2) && t.eventType == eventType && t.root == root then 1 else 0
  }

  /** By name: the counter of a type counts its records, that of a root those below it, and that of both both. */
  lemma CountersByName(states: seq<State>, steps: seq<Step>, i: nat, eventType: string, root: string)
    requires Run(states, steps) && i < |states|
    ensures Consistent(states[i])
    ensures Value(states[i].families[0], [("type", eventType)]) == Tally(states[i].threads, CountedByType(eventType))
    ensures Value(states[i].families[1], [("root", root)]) == Tally(states[i].threads, CountedByRoot(root))
    ensures Value(states[i].families[2], [("type", eventType), ("root", root)]) ==
      Tally(states[i].threads, CountedByBoth(eventType, root))
  {
    hide Run, Value, Consistent;
    var s, kind, below := states[i], ("type", eventType), ("root", root);
    RunsAreConsistent(states, steps, i, i);
    CounterShowsItsRecords(states, steps, i, 0, [kind]);
    CounterShowsItsRecords(states, steps, i, 1, [below]);
    CounterShowsItsRecords(states, steps, i, 2, [kind, below]);
    forall t: Thread { KeysByName(t, eventType, root); }
    hide Key, Tally;
    SameTally(s.threads, Recorded(0, Is([kind])), CountedByType(eventType));
    SameTally(s.threads, Recorded(1, Is([below])), CountedByRoot(root));
    SameTally(s.threads, Recorded(2, Is([kind, below])), CountedByBoth(eventType, root));
  }

  lemma KeysByName(t: Thread, eventType: string, root: string)
    ensures t.Recorder? ==> (KeyOf(t, 0) == [("type", eventType)] <==> t.eventType == eventType)
    ensures t.Recorder? ==> (KeyOf(t, 1) == [("root", root)] <==> t.root == root)
    ensures t.Recorder? ==>
      (KeyOf(t, 2) == [("type", eventType), ("root", root)] <==> t.eventType == eventType && t.root == root)
  {
    if t.Recorder? {
      var k0, k1, k2 := KeyOf(t, 0), KeyOf(t, 1), KeyOf(t, 2);
      assert k0[0] == ("type", t.eventType) && k1[0] == ("root", t.root);
      assert k2[0] == ("type", t.eventType) && k2[1] == ("root", t.root);
    }
  }

  lemma {:induction false} SameTally(threads: seq<Thread>, v: Thread -> int, w: Thread -> int)
    requires forall t :: v(t) == w(t)
    ensures Tally(threads, v) == Tally(threads, w)
  {
    if threads != [] { SameTally(threads[..|threads| - 1], v, w); }
  }

  // ---------------------------------------------------------------- total and marginals

  /** Records that are counted in the total. */
  function Begun(): Thread -> int
  {
    (t: Thread) => if t.Recorder? && !t.stage.Begin? then 1 else 0
  }

  /** Records counted in the total and not yet in family `f`. */
  function Between(f: nat): Thread -> int
  {
    (t: Thread) => if t.Recorder? && !t.stage.Begin? && !Passed(t, f) then 1 else 0
  }

  function Flushed(): Thread -> int
  {
    (t: Thread) => if t.Flusher? && t.ended then t.count else 0
  }

  /** Flushes that have been counted. */
  function Flushing(): Thread -> int
  {
    (t: Thread) => if t.Flusher? && t.counted then 1 else 0
  }

  ghost predicate TotalsAdd(s: State)
  {
    && s.total == Tally(s.threads, Begun()) + Tally(s.threads, Flushed())
    && s.flushes == Tally(s.threads, Flushing())
  }

  lemma TotalStep(s: State, step: Step, t: State)
    requires Next(s, step, t) && TotalsAdd(s)
    ensures TotalsAdd(t)
  {
    hide Key, Tally;
    if step.Spawn? {
      TallySpawn(s.threads, step.thread, Begun());
      TallySpawn(s.threads, step.thread, Flushed());
      TallySpawn(s.threads, step.thread, Flushing());
    } else {
      TallyUpdate(s.threads, step.k, t.threads[step.k], Begun());
      TallyUpdate(s.threads, step.k, t.threads[step.k], Flushed());
      TallyUpdate(s.threads, step.k, t.threads[step.k], Flushing());
    }
  }

  lemma TotalsStart(s: State)
    requires Init(s)
    ensures TotalsAdd(s)
  {
  }

  lemma {:induction false} TotalCountsRecordsAndFlushes(states: seq<State>, steps: seq<Step>, i: nat)
    requires Run(states, steps) && i < |states|
    ensures TotalsAdd(states[i])
  {
    hide Next, TotalsAdd;
    if i == 0 {
      TotalsStart(states[0]);
    } else {
      TotalCountsRecordsAndFlushes(states, steps, i - 1);
      TotalStep(states[i - 1], steps[i - 1], states[i]);
    }
  }

  /** The total is the sum of any family, plus the threads between the two, plus what flushes have added. */
  lemma TotalIsFamilyPlusBetween(states: seq<State>, steps: seq<Step>, i: nat, f: nat)
    requires Run(states, steps) && i < |states| && f < FAMILIES
    ensures |states[i].families| == FAMILIES && NoneLost(states[i], f, Any())
    ensures states[i].total ==
      Shown(states[i].families[f], Any())
      + Tally(states[i].threads, Between(f)) + Tally(states[i].threads, Flushed())
  {
    hide Run;
    TotalCountsRecordsAndFlushes(states, steps, i);
    NoIncrementIsLost(states, steps, i, f, Any());
    forall t | t in states[i].threads ensures Begun()(t) == Recorded(f, Any())(t) + Between(f)(t) {
      assert Passed(t, f) || !Passed(t, f);
    }
    TallySplit(states[i].threads, Begun(), Recorded(f, Any()), Between(f));
  }

  function OfType(eventType: string): Labels -> bool
  {
    (labels: Labels) => |labels| == 2 && labels[0] == ("type", eventType)
  }

  function OfRoot(root: string): Labels -> bool
  {
    (labels: Labels) => |labels| == 2 && labels[1] == ("root", root)
  }

  /** Records of some kind counted in family `f` and not yet in the family of both labels. */
  function Waiting(f: nat, p: Labels -> bool): Thread -> int
  {
    (t: Thread) => if Passed(t, f) && p(KeyOf(t, f)) && !Passed(t, BY_TYPE_ROOT) then 1 else 0
  }

  lemma WaitingSplit(threads: seq<Thread>, f: nat, key: Labels, p: Labels -> bool)
    requires f < BY_TYPE_ROOT
    requires forall t :: t in threads && t.Recorder? ==> (KeyOf(t, f) == key <==> p(KeyOf(t, BY_TYPE_ROOT)))
    ensures Tally(threads, Recorded(f, Is(key))) ==
      Tally(threads, Recorded(BY_TYPE_ROOT, p)) + Tally(threads, Waiting(f, Is(key)))
  {
    hide Key, Tally;
    var a, b, c := Recorded(f, Is(key)), Recorded(BY_TYPE_ROOT, p), Waiting(f, Is(key));
    forall t | t in threads ensures a(t) == b(t) + c(t) {
      assert Passed(t, BY_TYPE_ROOT) ==> Passed(t, f);
    }
    TallySplit(threads, a, b, c);
  }

  /**
   Adding up the counters by type and root over all roots gives the counter by type, except for the threads
   between the two.
  */
  lemma TypeMarginal(states: seq<State>, steps: seq<Step>, i: nat, eventType: string)
    requires Run(states, steps) && i < |states|
    ensures Consistent(states[i])
    ensures Value(states[i].families[BY_TYPE], [("type", eventType)]) ==
      Shown(states[i].families[BY_TYPE_ROOT], OfType(eventType))
      + Tally(states[i].threads, Waiting(BY_TYPE, Is([("type", eventType)])))
  {
    hide Run;
    RunsAreConsistent(states, steps, i, i);
    var key := [("type", eventType)];
    CounterShowsItsRecords(states, steps, i, BY_TYPE, key);
    NoIncrementIsLost(states, steps, i, BY_TYPE_ROOT, OfType(eventType));
    WaitingSplit(states[i].threads, BY_TYPE, key, OfType(eventType));
  }

  /** The same by root. */
  lemma RootMarginal(states: seq<State>, steps: seq<Step>, i: nat, root: string)
    requires Run(states, steps) && i < |states|
    ensures Consistent(states[i])
    ensures Value(states[i].families[BY_ROOT], [("root", root)]) ==
      Shown(states[i].families[BY_TYPE_ROOT], OfRoot(root))
      + Tally(states[i].threads, Waiting(BY_ROOT, Is([("root", root)])))
  {
    hide Run;
    RunsAreConsistent(states, steps, i, i);
    var key := [("root", root)];
    CounterShowsItsRecords(states, steps, i, BY_ROOT, key);
    NoIncrementIsLost(states, steps, i, BY_TYPE_ROOT, OfRoot(root));
    WaitingSplit(states[i].threads, BY_ROOT, key, OfRoot(root));
  }

  ghost predicate AtRest(s: State)
  {
    forall t :: t in s.threads && t.Recorder? ==> t.stage.Ended?
  }

  /** Once no thread is recording, total, families and marginals agree exactly. */
  lemma CountersAgreeAtRest(states: seq<State>, steps: seq<Step>, i: nat, eventType: string, root: string)
    requires Run(states, steps) && i < |states| && AtRest(states[i])
    ensures Consistent(states[i])
    ensures forall f :: 0 <= f < FAMILIES ==>
      states[i].total == Shown(states[i].families[f], Any()) + Tally(states[i].threads, Flushed())
    ensures Value(states[i].families[BY_TYPE], [("type", eventType)]) ==
      Shown(states[i].families[BY_TYPE_ROOT], OfType(eventType))
    ensures Value(states[i].families[BY_ROOT], [("root", root)]) ==
      Shown(states[i].families[BY_TYPE_ROOT], OfRoot(root))
  {
    hide Run, Sum, Tally;
    var s := states[i];
    forall t, f: nat | t in s.threads && f < FAMILIES ensures Passed(t, f) <==> t.Recorder? {
    }
    TypeMarginal(states, steps, i, eventType);
    RootMarginal(states, steps, i, root);
    TallyZero(s.threads, Waiting(BY_TYPE, Is([("type", eventType)])));
    TallyZero(s.threads, Waiting(BY_ROOT, Is([("root", root)])));
    forall f | 0 <= f < FAMILIES
      ensures s.total == Shown(s.families[f], Any()) + Tally(s.threads, Flushed())
    {
      TotalIsFamilyPlusBetween(states, steps, i, f);
      TallyZero(s.threads, Between(f));
    }
  }
}
