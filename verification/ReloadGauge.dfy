/**
 Start-up, and the two ways to reload a running monitor: the dashboard's reload route and the hang-up
 signal. Every shared variable is locked on its own, so the steps of concurrent reloads interleave.
*/
module ReloadGauge {
  import opened Options
  import opened PathKeys
  import opened WatcherManager

  // ---------------------------------------------------------------- start-up

  /** The initial watches: existing paths are added, and each watcher that could be added is counted. */
  method AddInitialWatches(m: Manager, configs: seq<WatchConfig>, existing: set<string>, creatable: set<string>)
    returns (gauge: int)
    requires m.Valid() && m.view == map[]
    modifies m
    ensures m.Valid() && gauge == |m.view|
    ensures Watched(configs, |configs|, existing * creatable, m.view)
  {
    hide KeyOf, Tracks, Watched;
    gauge := 0;
    NothingWatched(configs, existing * creatable);
    for i := 0 to |configs|
      invariant m.Valid() && gauge == |m.view|
      invariant Watched(configs, i, existing * creatable, m.view)
    {
      ghost var before := m.view;
      var id: Option<nat> := None;
      if configs[i].path in existing {
        id := m.AddWatcher(configs[i], configs[i].path in creatable);
        if id.Some? {
          OneMore(before, KeyOf(configs[i]), m.view[KeyOf(configs[i])]);
          gauge := gauge + 1;
        }
      }
      ghost var entry := Entry(if id.Some? then id.value else 0, configs[i].recursive, configs[i]);
      WatchedStep(configs, i, existing * creatable, before, entry);
    }
  }

  /** The first `n` configured watches have been tried; `watchable` are the texts of paths that can be watched. */
  ghost predicate Watched(configs: seq<WatchConfig>, n: nat, watchable: set<string>, v: View)
    requires n <= |configs|
  {
    && (forall i :: 0 <= i < n && configs[i].path in watchable ==> KeyOf(configs[i]) in v)
    && (forall p :: p in v ==> p == KeyOf(v[p].config) && v[p].recursiveWatch == v[p].config.recursive)
    && (forall p :: p in v ==> exists i :: i < n && FirstWatched(configs, watchable, i, v[p].config))
  }

  lemma NothingWatched(configs: seq<WatchConfig>, watchable: set<string>)
    ensures Watched(configs, 0, watchable, map[])
  {
  }

  lemma OneMore(v: View, p: Key, e: Entry)
    requires p !in v
    ensures |v[p := e]| == |v| + 1
  {
    assert v[p := e].Keys == v.Keys + {p};
  }

  lemma WatchedStep(configs: seq<WatchConfig>, n: nat, watchable: set<string>, v: View, e: Entry)
    requires n < |configs| && Watched(configs, n, watchable, v)
    requires e.config == configs[n] && e.recursiveWatch == configs[n].recursive
    ensures KeyOf(configs[n]) in v || configs[n].path !in watchable ==> Watched(configs, n + 1, watchable, v)
    ensures KeyOf(configs[n]) !in v && configs[n].path in watchable ==>
      Watched(configs, n + 1, watchable, v[KeyOf(configs[n]) := e])
  {
    hide KeyOf;
    forall p | p in v ensures exists i :: i < n + 1 && FirstWatched(configs, watchable, i, v[p].config) {
      var i :| i < n && FirstWatched(configs, watchable, i, v[p].config);
      assert i < n + 1 && FirstWatched(configs, watchable, i, v[p].config);
    }
    if KeyOf(configs[n]) !in v && configs[n].path in watchable {
      assert FirstWatched(configs, watchable, n, configs[n]);
    }
  }

  /** `c` is the first watch of its path that can be watched as it is spelled: the first duplicate wins. */
  ghost predicate FirstWatched(configs: seq<WatchConfig>, watchable: set<string>, i: int, c: WatchConfig)
  {
    && 0 <= i < |configs| && configs[i] == c && c.path in watchable
    && forall j :: 0 <= j < i && configs[j].path in watchable ==> KeyOf(configs[j]) != KeyOf(c)
  }

  // ---------------------------------------------------------------- one reload, undisturbed

  type Config = seq<WatchConfig>

  /** The settings in force, by path. */
  ghost function ConfigsOf(v: View): map<Key, WatchConfig>
  {
    map p | p in v :: v[p].config
  }

  /** The watchers are those of configuration `c`. */
  ghost predicate Watching(v: View, c: Config)
  {
    ConfigsOf(v) == NewPaths(c)
  }

  lemma ReloadedIsWatching(v: View, c: Config, w: View, firstId: nat, r: ReloadResult)
    requires Reloaded(v, NewPaths(c), w, firstId, r)
    ensures Watching(w, c)
  {
    forall p | p in w ensures w[p].config == NewPaths(c)[p] {
      assert p in v || p !in v;
    }
  }

  /** What reloads share: the manager, the stored configuration, the configuration behind the filters, the gauge. */
  class Server {
    const manager: Manager
    var config: Config
    var filters: Config
    var gauge: int

    constructor (manager: Manager, config: Config, gauge: int)
      ensures this.manager == manager && this.config == this.filters == config && this.gauge == gauge
    {
      this.manager, this.config, this.filters, this.gauge := manager, config, config, gauge;
    }

    /** The dashboard's reload route; `loaded` is what the configuration file reads as. */
    method ReloadFromDashboard(loaded: Option<Config>, creatable: set<Key>) returns (ok: bool)
      requires manager.Valid()
      modifies this, manager
      ensures manager.Valid()
      ensures ok <==> loaded.Some? && NewPaths(loaded.value).Keys - old(manager.view).Keys <= creatable
      ensures ok ==> config == filters == loaded.value && Watching(manager.view, loaded.value)
      ensures ok ==> gauge - |manager.view| == old(gauge) - |old(manager.view)|
      ensures !ok ==> config == old(config) && filters == old(filters) && gauge == old(gauge)
      ensures loaded.None? ==> manager.view == old(manager.view)
      ensures !ok && loaded.Some? && Harmless(old(manager.view), NewPaths(loaded.value), creatable) ==>
        gauge - |manager.view| == old(gauge) - |old(manager.view)|
    {
      hide Tracks, Reloaded, PartlyReloaded, NewPaths, Watching;
      if loaded.None? {
        return false;
      }
      ghost var before, firstId := manager.view, manager.nextId;
      var result: ReloadResult;
      ok, result := manager.Reload(loaded.value, creatable);
      if ok {
        config := loaded.value;
        filters := loaded.value;
        var netChange := |result.added| - |result.removed|;
        if netChange != 0 {
          gauge := gauge + netChange;
        }
        ReloadPartitions(before, NewPaths(loaded.value), manager.view, firstId, result);
        ReloadedIsWatching(before, loaded.value, manager.view, firstId, result);
      } else {
        FailedReloadKeepsCount(before, NewPaths(loaded.value), firstId, creatable);
      }
    }

    /** The reload on a hang-up signal leaves the stored configuration as it is. */
    method ReloadOnHangup(loaded: Option<Config>, creatable: set<Key>) returns (ok: bool)
      requires manager.Valid()
      modifies this, manager
      ensures manager.Valid() && config == old(config)
      ensures ok <==> loaded.Some? && NewPaths(loaded.value).Keys - old(manager.view).Keys <= creatable
      ensures ok ==> filters == loaded.value && Watching(manager.view, loaded.value)
      ensures ok ==> gauge - |manager.view| == old(gauge) - |old(manager.view)|
      ensures !ok ==> filters == old(filters) && gauge == old(gauge)
      ensures loaded.None? ==> manager.view == old(manager.view)
      ensures !ok && loaded.Some? && Harmless(old(manager.view), NewPaths(loaded.value), creatable) ==>
        gauge - |manager.view| == old(gauge) - |old(manager.view)|
    {
      hide Tracks, Reloaded, PartlyReloaded, NewPaths, Watching;
      if loaded.None? {
        return false;
      }
      ghost var before, firstId := manager.view, manager.nextId;
      var result: ReloadResult;
      ok, result := manager.Reload(loaded.value, creatable);
      if ok {
        filters := loaded.value;
        var netChange := |result.added| - |result.removed|;
        if netChange != 0 {
          gauge := gauge + netChange;
        }
        ReloadPartitions(before, NewPaths(loaded.value), manager.view, firstId, result);
        ReloadedIsWatching(before, loaded.value, manager.view, firstId, result);
      } else {
        FailedReloadKeepsCount(before, NewPaths(loaded.value), firstId, creatable);
      }
    }
  }

  // ---------------------------------------------------------------- reload steps

  datatype Kind = Dashboard | Hangup

  /** What a reload still has to do. `net` is the change it will report to the gauge. */
  datatype Phase = Loaded | StoreConfig(net: int) | StoreFilters(net: int) | Adjust(net: int) | Finished

  /** A reload and the configuration it has loaded. */
  datatype Task = Task(kind: Kind, config: Config, phase: Phase)

  /** `unreported` sums what failed reloads did to the number of watchers; no variable of the program holds it. */
  datatype State = State(
    file: Config, view: View, nextId: nat, gauge: int, config: Config, filters: Config, tasks: seq<Task>,
    unreported: int)

  /**
   The file is edited from outside, or the dashboard edits the stored configuration and then writes the file,
   if it can. A failed reload has watched the paths in `added`; `creatable` are those it could have watched.
  */
  datatype Step =
    | EditFile(content: Config)
    | EditStored(edited: Config, written: bool)
    | Load(kind: Kind)
    | ReloadDone(task: nat, result: ReloadResult)
    | ReloadFailed(task: nat, creatable: set<Key>, added: set<Key>)
    | SetConfig(task: nat)
    | SetFilters(task: nat)
    | AddNet(task: nat)

  ghost predicate Next(s: State, step: Step, t: State)
  {
    match step
    case EditFile(content) => t == s.(file := content)
    case EditStored(edited, written) => t == s.(config := edited, file := if written then edited else s.file)
    case Load(kind) =>
      && (kind.Hangup? ==> forall k :: 0 <= k < |s.tasks| ==> s.tasks[k].kind.Hangup? ==> s.tasks[k].phase.Finished?)
      && t == s.(tasks := s.tasks + [Task(kind, s.file, Loaded)])
    case ReloadDone(k, r) =>
      && k < |s.tasks| && s.tasks[k].phase.Loaded? && t.nextId >= s.nextId
      && Reloaded(s.view, NewPaths(s.tasks[k].config), t.view, s.nextId, r)
      && var net := |r.added| - |r.removed|;
      && t == s.(view := t.view, nextId := t.nextId,
                 tasks := Move(s, k, if s.tasks[k].kind.Dashboard? then StoreConfig(net) else StoreFilters(net)))
    case ReloadFailed(k, creatable, added) =>
      && k < |s.tasks| && s.tasks[k].phase.Loaded? && t.nextId >= s.nextId
      && !(NewPaths(s.tasks[k].config).Keys - s.view.Keys <= creatable)
      && PartlyReloaded(s.view, NewPaths(s.tasks[k].config), t.view, s.nextId, creatable)
      && added == t.view.Keys - s.view.Keys
      && t == s.(view := t.view, nextId := t.nextId, tasks := Move(s, k, Finished),
                 unreported := s.unreported + |t.view| - |s.view|)
    case SetConfig(k) =>
      && k < |s.tasks| && s.tasks[k].phase.StoreConfig?
      && t == s.(config := s.tasks[k].config, tasks := Move(s, k, StoreFilters(s.tasks[k].phase.net)))
    case SetFilters(k) =>
      && k < |s.tasks| && s.tasks[k].phase.StoreFilters?
      && t == s.(filters := s.tasks[k].config, tasks := Move(s, k, Adjust(s.tasks[k].phase.net)))
    case AddNet(k) =>
      && k < |s.tasks| && s.tasks[k].phase.Adjust?
      && t == s.(gauge := s.gauge + s.tasks[k].phase.net, tasks := Move(s, k, Finished))
  }

  function Move(s: State, k: nat, phase: Phase): seq<Task>
    requires k < |s.tasks|
  {
    s.tasks[k := s.tasks[k].(phase := phase)]
  }

  /** The monitor begins to serve with the gauge that start-up left. */
  ghost predicate Init(s: State)
  {
    s.gauge == |s.view| && s.tasks == [] && s.unreported == 0
  }

  ghost predicate Run(states: seq<State>, steps: seq<Step>)
  {
    && |states| == |steps| + 1 && Init(states[0])
    && forall i :: 0 <= i < |steps| ==> Next(states[i], steps[i], states[i + 1])
  }

  ghost predicate Quiescent(s: State)
  {
    forall k :: 0 <= k < |s.tasks| ==> s.tasks[k].phase.Finished?
  }

  /** Some run leads to `s`; a clean one has no failed reload. */
  ghost predicate Reachable(s: State, clean: bool)
  {
    exists states, steps :: LeadsTo(states, steps, s, clean)
  }

  ghost predicate LeadsTo(states: seq<State>, steps: seq<Step>, s: State, clean: bool)
  {
    && Run(states, steps) && states[|steps|] == s
    && (clean ==> forall j :: 0 <= j < |steps| ==> !steps[j].ReloadFailed?)
  }

  lemma ReachInit(s: State, clean: bool)
    requires Init(s)
    ensures Reachable(s, clean)
  {
    assert LeadsTo([s], [], s, clean);
  }

  lemma ReachNext(s: State, step: Step, t: State, clean: bool)
    requires Reachable(s, clean) && Next(s, step, t) && (clean ==> !step.ReloadFailed?)
    ensures Reachable(t, clean)
  {
    hide Next;
    var states, steps :| LeadsTo(states, steps, s, clean);
    assert LeadsTo(states + [t], steps + [step], t, clean);
  }

  // ---------------------------------------------------------------- the gauge

  function Net(t: Task): int
  {
    match t.phase
    case StoreConfig(net) => net
    case StoreFilters(net) => net
    case Adjust(net) => net
    case _ => 0
  }

  /** What the reloads under way have still to report. */
  function PendingNet(tasks: seq<Task>): int
  {
    if tasks == [] then 0 else PendingNet(tasks[..|tasks| - 1]) + Net(tasks[|tasks| - 1])
  }

  lemma PendingNetSnoc(tasks: seq<Task>, t: Task)
    ensures PendingNet(tasks + [t]) == PendingNet(tasks) + Net(t)
  {
    assert (tasks + [t])[..|tasks|] == tasks;
  }

  lemma {:induction false} PendingNetUpdate(tasks: seq<Task>, k: nat, t: Task)
    requires k < |tasks|
    ensures PendingNet(tasks[k := t]) == PendingNet(tasks) - Net(tasks[k]) + Net(t)
  {
    var n := |tasks| - 1;
    if k == n {
      assert tasks[k := t][..n] == tasks[..n];
    } else {
      assert tasks[k := t][..n] == tasks[..n][k := t];
      PendingNetUpdate(tasks[..n], k, t);
    }
  }

  lemma {:induction false} NothingPending(tasks: seq<Task>)
    requires forall k :: 0 <= k < |tasks| ==> tasks[k].phase.Finished?
    ensures PendingNet(tasks) == 0
  {
    if tasks != [] {
      NothingPending(tasks[..|tasks| - 1]);
    }
  }

  ghost predicate GaugeBalance(s: State)
  {
    s.gauge + PendingNet(s.tasks) + s.unreported == |s.view|
  }

  lemma GaugeStep(s: State, step: Step, t: State)
    requires GaugeBalance(s) && Next(s, step, t)
    ensures GaugeBalance(t)
  {
    hide Reloaded, PartlyReloaded, NewPaths, PendingNet;
    if step.Load? {
      PendingNetSnoc(s.tasks, Task(step.kind, s.file, Loaded));
    } else if !step.EditFile? && !step.EditStored? {
      PendingNetUpdate(s.tasks, step.task, t.tasks[step.task]);
      if step.ReloadDone? {
        ReloadPartitions(s.view, NewPaths(s.tasks[step.task].config), t.view, s.nextId, step.result);
      }
    }
  }

  /** Gauge, changes still to be reported and what failed reloads left unreported always make up the watchers. */
  lemma {:induction false} GaugeBalances(states: seq<State>, steps: seq<Step>, i: nat)
    requires Run(states, steps) && i < |states|
    ensures GaugeBalance(states[i])
  {
    if i > 0 {
      GaugeBalances(states, steps, i - 1);
      GaugeStep(states[i - 1], steps[i - 1], states[i]);
    }
  }

  /** A failed reload, if this is one, is harmless. */
  ghost predicate HarmlessStep(s: State, step: Step)
  {
    step.ReloadFailed? ==>
      step.task < |s.tasks| && Harmless(s.view, NewPaths(s.tasks[step.task].config), step.creatable)
  }

  /** Whenever no reload is under way the gauge is right, if every reload that failed was harmless. */
  lemma GaugeIsRightAtRest(states: seq<State>, steps: seq<Step>, i: nat)
    requires Run(states, steps) && i < |states| && Quiescent(states[i])
    ensures states[i].gauge == |states[i].view| <==> states[i].unreported == 0
    ensures (forall j :: 0 <= j < i ==> HarmlessStep(states[j], steps[j])) ==> states[i].gauge == |states[i].view|
  {
    GaugeBalances(states, steps, i);
    NothingPending(states[i].tasks);
    if forall j :: 0 <= j < i ==> HarmlessStep(states[j], steps[j]) {
      NothingUnreported(states, steps, i);
    }
  }

  lemma {:induction false} NothingUnreported(states: seq<State>, steps: seq<Step>, i: nat)
    requires Run(states, steps) && i < |states| && forall j :: 0 <= j < i ==> HarmlessStep(states[j], steps[j])
    ensures states[i].unreported == 0
  {
    hide NewPaths, PartlyReloaded, Harmless, Reloaded;
    if i > 0 {
      NothingUnreported(states, steps, i - 1);
      var s, step := states[i - 1], steps[i - 1];
      assert Next(s, step, states[i]) && HarmlessStep(s, step);
      if step.ReloadFailed? {
        FailedReloadKeepsCount(s.view, NewPaths(s.tasks[step.task].config), s.nextId, step.creatable);
      }
    }
  }

  /** A reload begins at `s`, fails, and leaves `t`. */
  ghost predicate FailsTo(s: State, kind: Kind, creatable: set<Key>, t: State)
  {
    var loaded := s.(tasks := s.tasks + [Task(kind, s.file, Loaded)]);
    Next(s, Load(kind), loaded) && Next(loaded, ReloadFailed(|s.tasks|, creatable, t.view.Keys - s.view.Keys), t)
  }

  /**
   Exactly when a failing reload keeps a right gauge right: in every order of the maps if and only if nothing
   is obsolete and nothing new can be watched. Otherwise some order leaves the gauge wrong with no reload
   under way that would correct it.
  */
  lemma FailureKeepsTheGaugeRight(s: State, kind: Kind, creatable: set<Key>)
    requires Quiescent(s) && s.gauge == |s.view| && !(NewPaths(s.file).Keys - s.view.Keys <= creatable)
    ensures (forall t :: FailsTo(s, kind, creatable, t) ==> t.gauge == |t.view|) <==>
      Harmless(s.view, NewPaths(s.file), creatable)
    ensures forall t :: FailsTo(s, kind, creatable, t) ==> Quiescent(t)
  {
    hide NewPaths, PartlyReloaded, Harmless;
    var n := NewPaths(s.file);
    FailedReloadKeepsCount(s.view, n, s.nextId, creatable);
    forall t | FailsTo(s, kind, creatable, t)
      ensures PartlyReloaded(s.view, n, t.view, s.nextId, creatable) && t.gauge == s.gauge && Quiescent(t)
    {
    }
    if !Harmless(s.view, n, creatable) {
      var w := HarmfulFailure(s.view, n, s.nextId, creatable);
      var loaded := s.(tasks := s.tasks + [Task(kind, s.file, Loaded)]);
      var t := loaded.(view := w, nextId := loaded.nextId + 1, tasks := Move(loaded, |s.tasks|, Finished),
                       unreported := loaded.unreported + |w| - |s.view|);
      assert FailsTo(s, kind, creatable, t);
    }
  }

  /** A reachable state at rest with a wrong gauge: the only watch is replaced by one that cannot be created. */
  lemma FailureCanLeaveTheGaugeWrong(a: WatchConfig, b: WatchConfig) returns (s: State)
    requires KeyOf(a) != KeyOf(b)
    ensures Reachable(s, false) && Quiescent(s) && s.view == map[] && s.gauge == 1
  {
    hide KeyOf;
    var v: View := map[KeyOf(a) := Entry(0, a.recursive, a)];
    var s0 := State([b], v, 1, 1, [a], [a], [], 0);
    var s1 := s0.(tasks := [Task(Dashboard, [b], Loaded)]);
    s := s1.(view := map[], tasks := [Task(Dashboard, [b], Finished)], unreported := -1);
    OnePath(b);
    assert KeyOf(b) in NewPaths([b]).Keys - v.Keys;
    assert PartlyReloaded(v, NewPaths([b]), map[], 1, {});
    hide NewPaths, PartlyReloaded, Reachable;
    assert |v| == 1 by { assert v.Keys == {KeyOf(a)}; }
    ReachInit(s0, false);
    ReachNext(s0, Load(Dashboard), s1, false);
    assert s.view.Keys - v.Keys == {};
    ReachNext(s1, ReloadFailed(0, {}, {}), s, false);
  }

  // ---------------------------------------------------------------- what the variables hold

  /** Who has stored the configuration. */
  datatype Writer = Nobody | ByReload(task: nat) | ByEdit(edited: Config)

  /** The last step that stored a configuration: a reload's, or an edit on the dashboard. */
  function LastConfig(steps: seq<Step>): Writer
  {
    if steps == [] then Nobody
    else
      var last := steps[|steps| - 1];
      if last.SetConfig? then ByReload(last.task)
      else if last.EditStored? then ByEdit(last.edited)
      else LastConfig(steps[..|steps| - 1])
  }

  function LastFilters(steps: seq<Step>): Option<nat>
  {
    if steps == [] then None
    else
      var last := steps[|steps| - 1];
      if last.SetFilters? then Some(last.task) else LastFilters(steps[..|steps| - 1])
  }

  /** The task whose reload succeeded last, unless a reload has failed since. */
  function LastReload(steps: seq<Step>): Option<nat>
  {
    if steps == [] then None
    else
      var last := steps[|steps| - 1];
      if last.ReloadDone? then Some(last.task)
      else if last.ReloadFailed? then None
      else LastReload(steps[..|steps| - 1])
  }

  /** The configuration a task has loaded. */
  function LoadedBy(s: State, task: Option<nat>, initial: Config): Config
  {
    match task
    case Some(k) => if k < |s.tasks| then s.tasks[k].config else initial
    case None => initial
  }

  /** The configuration a writer has stored. */
  function StoredBy(s: State, writer: Writer, initial: Config): Config
  {
    match writer
    case ByReload(k) => LoadedBy(s, Some(k), initial)
    case ByEdit(edited) => edited
    case Nobody => initial
  }

  lemma LastStep(steps: seq<Step>, i: nat)
    requires 0 < i <= |steps|
    ensures steps[..i][..i - 1] == steps[..i - 1] && steps[..i][i - 1] == steps[i - 1]
  {
  }

  /** The stored configuration is what was stored last, and the filters are those of the last task to set them. */
  lemma {:induction false} VariablesAreLastSet(states: seq<State>, steps: seq<Step>, i: nat)
    requires Run(states, steps) && i < |states|
    ensures states[i].config == StoredBy(states[i], LastConfig(steps[..i]), states[0].config)
    ensures states[i].filters == LoadedBy(states[i], LastFilters(steps[..i]), states[0].filters)
    ensures LastConfig(steps[..i]).ByReload? ==> LastConfig(steps[..i]).task < |states[i].tasks|
    ensures LastFilters(steps[..i]).Some? ==> LastFilters(steps[..i]).value < |states[i].tasks|
  {
    hide Next;
    if i > 0 {
      VariablesAreLastSet(states, steps, i - 1);
      LastStep(steps, i);
      StepSets(states[i - 1], steps[i - 1], states[i]);
    }
  }

  /** What a step does to the two variables and to the tasks' configurations. */
  lemma StepSets(s: State, step: Step, t: State)
    requires Next(s, step, t)
    ensures step.SetConfig? ==> step.task < |s.tasks| && t.config == s.tasks[step.task].config
    ensures step.EditStored? ==> t.config == step.edited
    ensures !step.SetConfig? && !step.EditStored? ==> t.config == s.config
    ensures step.SetFilters? ==> step.task < |s.tasks| && t.filters == s.tasks[step.task].config
    ensures !step.SetFilters? ==> t.filters == s.filters
    ensures step.ReloadDone? ==> step.task < |s.tasks|
    ensures |t.tasks| >= |s.tasks| && forall k :: 0 <= k < |s.tasks| ==> t.tasks[k].config == s.tasks[k].config
  {
    hide Reloaded, PartlyReloaded, NewPaths;
  }

  /**
   The settings in force after a step, by those before it: a successful reload's own, and after a failed one
   those that both configurations have a path for and those it could add.
  */
  function After(before: map<Key, WatchConfig>, step: Step, tasks: seq<Task>): map<Key, WatchConfig>
  {
    if step.ReloadDone? && step.task < |tasks| then NewPaths(tasks[step.task].config)
    else if step.ReloadFailed? && step.task < |tasks| then
      var n := NewPaths(tasks[step.task].config);
      map p | p in n && (p in before || p in step.added) :: if p in before then before[p] else n[p]
    else before
  }

  /** The settings in force after `i` steps, by the history alone. */
  ghost function InForce(states: seq<State>, steps: seq<Step>, i: nat): map<Key, WatchConfig>
    requires i <= |steps| && |states| == |steps| + 1
  {
    if i == 0 then ConfigsOf(states[0].view)
    else After(InForce(states, steps, i - 1), steps[i - 1], states[i].tasks)
  }

  lemma AfterStep(s: State, step: Step, t: State)
    requires Next(s, step, t)
    ensures ConfigsOf(t.view) == After(ConfigsOf(s.view), step, t.tasks)
  {
    hide NewPaths, Reloaded, PartlyReloaded, ConfigsOf;
    if step.ReloadDone? {
      ReloadedIsWatching(s.view, s.tasks[step.task].config, t.view, s.nextId, step.result);
    } else if step.ReloadFailed? {
      FailureInForce(s.view, NewPaths(s.tasks[step.task].config), t.view, s.nextId, step.creatable);
    }
  }

  lemma {:induction false} ViewIsInForce(states: seq<State>, steps: seq<Step>, i: nat)
    requires Run(states, steps) && i < |states|
    ensures ConfigsOf(states[i].view) == InForce(states, steps, i)
  {
    hide Next, After, ConfigsOf;
    if i > 0 {
      ViewIsInForce(states, steps, i - 1);
      AfterStep(states[i - 1], steps[i - 1], states[i]);
    }
  }

  lemma FailureInForce(v: View, n: map<Key, WatchConfig>, w: View, firstId: nat, creatable: set<Key>)
    requires PartlyReloaded(v, n, w, firstId, creatable)
    ensures var before, added := ConfigsOf(v), w.Keys - v.Keys;
      ConfigsOf(w) == map p | p in n && (p in before || p in added) :: if p in before then before[p] else n[p]
  {
    var before, added, after := ConfigsOf(v), w.Keys - v.Keys, ConfigsOf(w);
    var m := map p | p in n && (p in before || p in added) :: if p in before then before[p] else n[p];
    assert forall p :: p in after <==> p in w;
    forall p ensures p in after <==> p in m {
      if p in w {
        assert p in n.Keys;
      }
    }
    forall p | p in after ensures after[p] == m[p] {
      assert p in w && p in n.Keys;
    }
  }

  lemma {:induction false} LastReloadInForce(states: seq<State>, steps: seq<Step>, i: nat)
    requires Run(states, steps) && i < |states| && LastReload(steps[..i]).Some?
    ensures LastReload(steps[..i]).value < |states[i].tasks|
    ensures InForce(states, steps, i) == NewPaths(states[i].tasks[LastReload(steps[..i]).value].config)
  {
    hide Next, NewPaths;
    if i > 0 {
      LastStep(steps, i);
      StepSets(states[i - 1], steps[i - 1], states[i]);
      if !steps[i - 1].ReloadDone? {
        LastReloadInForce(states, steps, i - 1);
      }
    }
  }

  // ---------------------------------------------------------------- one configuration everywhere

  ghost predicate Settled(s: State)
  {
    Watching(s.view, s.config) && s.filters == s.config
  }

  /**
   Exactly when watchers, filters and stored configuration agree, at any moment of any run, with reloads of
   both kinds, one at a time or at once, failed or not, and edits on the dashboard among them: when the history
   has the settings of the configuration stored last in force, and the filters set last are its filters. If the
   last reload to be tried succeeded, its configuration and the one stored last have the same watches.
  */
  lemma AgreementExactly(states: seq<State>, steps: seq<Step>, i: nat)
    requires Run(states, steps) && i < |states|
    ensures var stored := StoredBy(states[i], LastConfig(steps[..i]), states[0].config);
      var filtered := LoadedBy(states[i], LastFilters(steps[..i]), states[0].filters);
      && (Settled(states[i]) <==> InForce(states, steps, i) == NewPaths(stored) && filtered == stored)
      && (LastReload(steps[..i]).Some? ==>
            var reloaded := LoadedBy(states[i], LastReload(steps[..i]), states[0].config);
            Settled(states[i]) <==> NewPaths(reloaded) == NewPaths(stored) && filtered == stored)
  {
    hide NewPaths, ConfigsOf, InForce, LastConfig, LastFilters, LastReload, Next;
    VariablesAreLastSet(states, steps, i);
    ViewIsInForce(states, steps, i);
    if LastReload(steps[..i]).Some? {
      LastReloadInForce(states, steps, i);
    }
  }

  /** Reloads of both kinds, one at a time, none failing. */
  ghost predicate OneAtATime(states: seq<State>, steps: seq<Step>)
  {
    && Run(states, steps)
    && (forall j :: 0 <= j < |steps| ==> !steps[j].ReloadFailed?)
    && (forall j :: 0 <= j < |steps| && steps[j].Load? ==> Quiescent(states[j]))
  }

  /** How far the last task has got, and what it has set. */
  ghost predicate LastTaskFirst(s: State, steps: seq<Step>)
  {
    && (forall k :: 0 <= k < |s.tasks| - 1 ==> s.tasks[k].phase.Finished?)
    && (s.tasks != [] ==>
          var k := |s.tasks| - 1;
          var reloaded := LastReload(steps) == Some(k);
          var stored := s.tasks[k].kind.Dashboard? ==> LastConfig(steps) == ByReload(k) || LastConfig(steps).ByEdit?;
          match s.tasks[k].phase
          case Loaded => true
          case StoreConfig(_) => reloaded && s.tasks[k].kind.Dashboard?
          case StoreFilters(_) => reloaded && stored
          case Adjust(_) => reloaded && stored && LastFilters(steps) == Some(k)
          case Finished => reloaded && stored && LastFilters(steps) == Some(k))
  }

  lemma {:induction false} SequentialOrder(states: seq<State>, steps: seq<Step>, i: nat)
    requires OneAtATime(states, steps) && i < |states|
    ensures LastTaskFirst(states[i], steps[..i])
  {
    hide Next, LastTaskFirst, Quiescent;
    if i == 0 {
      NoTaskYet(states[0]);
    } else {
      SequentialOrder(states, steps, i - 1);
      SequentialStep(states[i - 1], steps[..i - 1], steps[i - 1], states[i]);
      assert steps[..i] == steps[..i - 1] + [steps[i - 1]];
    }
  }

  lemma NoTaskYet(s: State)
    requires Init(s)
    ensures LastTaskFirst(s, [])
  {
  }

  lemma SequentialStep(s: State, before: seq<Step>, step: Step, t: State)
    requires LastTaskFirst(s, before) && Next(s, step, t) && !step.ReloadFailed? && (step.Load? ==> Quiescent(s))
    ensures LastTaskFirst(t, before + [step])
  {
    hide Reloaded, PartlyReloaded, NewPaths;
    assert (before + [step])[..|before|] == before;
  }

  /**
   For reloads one at a time, with edits on the dashboard at any moment: at rest everything agrees if and only
   if the last reload loaded the configuration that is stored. So it does after a dashboard reload, unless the
   stored configuration was edited after that reload had set it.
  */
  lemma SequentialReloadsSettle(states: seq<State>, steps: seq<Step>, i: nat)
    requires OneAtATime(states, steps) && i < |states| && Quiescent(states[i]) && states[i].tasks != []
    ensures var last := states[i].tasks[|states[i].tasks| - 1];
      && (Settled(states[i]) <==> last.config == states[i].config)
      && (last.kind.Dashboard? && !LastConfig(steps[..i]).ByEdit? ==> Settled(states[i]))
  {
    hide Settled, Next, InForce, LastConfig, LastFilters, LastReload, NewPaths;
    SequentialOrder(states, steps, i);
    AgreementExactly(states, steps, i);
    VariablesAreLastSet(states, steps, i);
  }

  /** A hang-up never stores the configuration it applies. */
  lemma {:induction false} HangupsKeepTheStoredConfig(states: seq<State>, steps: seq<Step>, i: nat)
    requires Run(states, steps) && i < |states|
    requires forall j :: 0 <= j < |steps| ==> !steps[j].EditStored? && (steps[j].Load? ==> steps[j].kind.Hangup?)
    ensures states[i].config == states[0].config
    ensures forall k :: 0 <= k < |states[i].tasks| ==>
      states[i].tasks[k].kind.Hangup? && !states[i].tasks[k].phase.StoreConfig?
  {
    hide Reloaded, PartlyReloaded, NewPaths;
    if i > 0 {
      HangupsKeepTheStoredConfig(states, steps, i - 1);
      assert Next(states[i - 1], steps[i - 1], states[i]);
    }
  }

  // ---------------------------------------------------------------- edits on the dashboard

  /** Where everything agrees, an edit on the dashboard ends the agreement unless it changes nothing. */
  lemma EditsEndAgreement(s: State, edited: Config, written: bool, t: State)
    requires Settled(s) && Next(s, EditStored(edited, written), t)
    ensures Settled(t) <==> edited == s.config
  {
    hide NewPaths;
  }

  /** What a dashboard reload has still to do can follow at once. */
  lemma ReachEnd(s: State, k: nat, clean: bool) returns (t: State)
    requires Reachable(s, clean) && k < |s.tasks| && s.tasks[k].phase.StoreConfig?
    ensures Reachable(t, clean)
    ensures var c := s.tasks[k].config;
      t == s.(config := c, filters := c, gauge := s.gauge + s.tasks[k].phase.net, tasks := Move(s, k, Finished))
  {
    hide Reloaded, PartlyReloaded, NewPaths, Reachable;
    var net := s.tasks[k].phase.net;
    var s1 := s.(config := s.tasks[k].config, tasks := Move(s, k, StoreFilters(net)));
    var s2 := s1.(filters := s1.tasks[k].config, tasks := Move(s1, k, Adjust(net)));
    t := s2.(gauge := s2.gauge + net, tasks := Move(s2, k, Finished));
    ReachNext(s, SetConfig(k), s1, clean);
    ReachNext(s1, SetFilters(k), s2, clean);
    ReachNext(s2, AddNet(k), t, clean);
    assert t.tasks == Move(s, k, Finished);
  }

  /**
   An edit between a reload's reading of the file and its setting of the stored configuration: at rest watchers,
   filters and stored configuration agree without the edit, which only the file has.
  */
  lemma EditsCanBeOverwritten(w: WatchConfig) returns (s: State)
    ensures Reachable(s, true) && Quiescent(s) && Settled(s)
    ensures s.config == [] && s.file == [w]
  {
    hide KeyOf, Reloaded, NewPaths, Watching, Reachable;
    ReloadFromNothing(w);
    var nothing := ReloadResult([], [], []);
    var s0 := State([], map[], 0, 0, [], [], [], 0);
    var s1 := s0.(tasks := [Task(Dashboard, [], Loaded)]);
    var s2 := s1.(config := [w], file := [w]);
    var s3 := s2.(tasks := Move(s2, 0, StoreConfig(0)));
    ReachInit(s0, true);
    ReachNext(s0, Load(Dashboard), s1, true);
    ReachNext(s1, EditStored([w], true), s2, true);
    ReachNext(s2, ReloadDone(0, nothing), s3, true);
    s := ReachEnd(s3, 0, true);
    ReloadedIsWatching(map[], [], map[], 0, nothing);
  }

  // ---------------------------------------------------------------- two reloads at once

  lemma ReloadFromNothing(w: WatchConfig)
    ensures var v: View := map[KeyOf(w) := Entry(0, w.recursive, w)];
      Reloaded(map[], NewPaths([w]), v, 0, ReloadResult([KeyOf(w)], [], []))
    ensures Reloaded(map[], NewPaths([]), map[], 0, ReloadResult([], [], []))
  {
    hide KeyOf;
    OnePath(w);
    var n := NewPaths([w]);
    assert n.Keys == {KeyOf(w)};
  }

  /** Two dashboard reloads load the file, one before and one after an edit, and then both reload the watchers. */
  lemma BothReloaded(w: WatchConfig) returns (s: State)
    ensures Reachable(s, true) && s.file == [w] && Watching(s.view, [w])
    ensures s.tasks == [Task(Dashboard, [], StoreConfig(0)), Task(Dashboard, [w], StoreConfig(1))]
  {
    hide KeyOf, Reloaded, NewPaths, Watching, Reachable;
    ReloadFromNothing(w);
    var v: View := map[KeyOf(w) := Entry(0, w.recursive, w)];
    var one := ReloadResult([KeyOf(w)], [], []);
    var s0 := State([], map[], 0, 0, [], [], [], 0);
    var s1 := s0.(tasks := [Task(Dashboard, [], Loaded)]);
    var s2 := s1.(file := [w]);
    var s3 := s2.(tasks := s2.tasks + [Task(Dashboard, [w], Loaded)]);
    var s4 := s3.(tasks := Move(s3, 0, StoreConfig(0)));
    s := s4.(view := v, nextId := 1, tasks := Move(s4, 1, StoreConfig(1)));
    ReachInit(s0, true);
    ReachNext(s0, Load(Dashboard), s1, true);
    ReachNext(s1, EditFile([w]), s2, true);
    ReachNext(s2, Load(Dashboard), s3, true);
    ReachNext(s3, ReloadDone(0, ReloadResult([], [], [])), s4, true);
    ReachNext(s4, ReloadDone(1, one), s, true);
    ReloadedIsWatching(map[], [w], v, 0, one);
  }

  /** The newer stores its configuration, then the older stores its own. */
  lemma BothStored(w: WatchConfig) returns (s: State)
    ensures Reachable(s, true) && s.file == [w] && Watching(s.view, [w]) && s.config == []
    ensures s.tasks == [Task(Dashboard, [], StoreFilters(0)), Task(Dashboard, [w], StoreFilters(1))]
  {
    var s5 := BothReloaded(w);
    hide KeyOf, Reloaded, PartlyReloaded, NewPaths, Watching, Reachable;
    var s6 := s5.(config := [w], tasks := Move(s5, 1, StoreFilters(1)));
    s := s6.(config := [], tasks := Move(s6, 0, StoreFilters(0)));
    ReachNext(s5, SetConfig(1), s6, true);
    ReachNext(s6, SetConfig(0), s, true);
  }

  /**
   The older of them may store its configuration last and its filters first: everything comes to rest with
   the edited watches and filters in force and the configuration from before the edit stored.
  */
  lemma ConcurrentReloadsCanEndApart(w: WatchConfig) returns (s: State)
    ensures Reachable(s, true) && Quiescent(s)
    ensures Watching(s.view, [w]) && s.filters == s.file == [w] && s.config == []
  {
    var s7 := BothStored(w);
    hide KeyOf, Reloaded, PartlyReloaded, NewPaths, Watching, Reachable;
    var s8 := s7.(filters := [], tasks := Move(s7, 0, Adjust(0)));
    var s9 := s8.(filters := [w], tasks := Move(s8, 1, Adjust(1)));
    var s10 := s9.(gauge := s9.gauge + 0, tasks := Move(s9, 0, Finished));
    s := s10.(gauge := s10.gauge + 1, tasks := Move(s10, 1, Finished));
    ReachNext(s7, SetFilters(0), s8, true);
    ReachNext(s8, SetFilters(1), s9, true);
    ReachNext(s9, AddNet(0), s10, true);
    ReachNext(s10, AddNet(1), s, true);
  }
}
