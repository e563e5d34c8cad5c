/** `WatcherManager`: watchers by id, added, removed and reloaded against a configuration. */
module WatcherManager {
  import opened Options
  import opened PathKeys

  datatype WatchConfig = WatchConfig(
    path: string, recursive: bool, includes: seq<string>, excludes: seq<string>, eventTypes: seq<string>, other: string)

  /** The path as the manager compares it. */
  function KeyOf(c: WatchConfig): Key
  {
    PathKey(c.path)
  }

  /** `recursiveWatch` is the mode the operating system watch was created with. */
  datatype Entry = Entry(id: nat, recursiveWatch: bool, config: WatchConfig)

  type Watchers = map<nat, Entry>

  /** Keys are entry ids, ids are below the next id, and no path is watched twice. */
  ghost predicate ValidWatchers(ws: Watchers, nextId: nat)
  {
    && (forall i :: i in ws ==> ws[i].id == i < nextId)
    && (forall i, j :: i in ws && j in ws && i != j ==> KeyOf(ws[i].config) != KeyOf(ws[j].config))
  }

  // ---------------------------------------------------------------- the watchers seen by path

  // Below, paths are keys: the manager's maps and comparisons do not tell two spellings of one path apart.

  type View = map<Key, Entry>

  /** `v` holds the same watchers as `ws`, by path. */
  ghost predicate ViewOf(ws: Watchers, v: View)
  {
    && (forall i :: i in ws ==> ws[i].id == i && KeyOf(ws[i].config) in v && v[KeyOf(ws[i].config)] == ws[i])
    && (forall p :: p in v ==> KeyOf(v[p].config) == p && v[p].id in ws && ws[v[p].id] == v[p])
  }

  /** Paths are unique exactly when there is a view, and then there is only one. */
  lemma ViewIsUnique(ws: Watchers, v: View, w: View)
    requires ViewOf(ws, v) && ViewOf(ws, w)
    ensures v == w
  {
    hide KeyOf;
    forall p | p in v ensures p in w && w[p] == v[p] {
      assert KeyOf(ws[v[p].id].config) == p;
    }
    forall p | p in w ensures p in v {
      assert KeyOf(ws[w[p].id].config) == p;
    }
  }

  /** The manager's invariant: there is a view, and ids are below the next one. */
  ghost predicate Tracks(ws: Watchers, v: View, nextId: nat)
  {
    ViewOf(ws, v) && forall i :: i in ws ==> i < nextId
  }

  lemma TrackedWatchersAreValid(ws: Watchers, v: View, nextId: nat)
    requires Tracks(ws, v, nextId)
    ensures ValidWatchers(ws, nextId)
  {
    hide KeyOf;
    forall i, j | i in ws && j in ws && i != j ensures KeyOf(ws[i].config) != KeyOf(ws[j].config) {
      assert v[KeyOf(ws[i].config)].id == i && v[KeyOf(ws[j].config)].id == j;
    }
  }

  lemma TrackInsert(ws: Watchers, v: View, nextId: nat, e: Entry)
    requires Tracks(ws, v, nextId) && e.id == nextId && KeyOf(e.config) !in v
    ensures Tracks(ws[e.id := e], v[KeyOf(e.config) := e], nextId + 1)
  {
    hide KeyOf;
  }

  lemma TrackRemove(ws: Watchers, v: View, nextId: nat, id: nat)
    requires Tracks(ws, v, nextId) && id in ws
    ensures KeyOf(ws[id].config) in v && v[KeyOf(ws[id].config)] == ws[id]
    ensures Tracks(ws - {id}, v - {KeyOf(ws[id].config)}, nextId)
  {
    hide KeyOf;
  }

  lemma TrackUpdate(ws: Watchers, v: View, nextId: nat, e: Entry)
    requires Tracks(ws, v, nextId) && e.id in ws && KeyOf(e.config) == KeyOf(ws[e.id].config)
    ensures Tracks(ws[e.id := e], v[KeyOf(e.config) := e], nextId)
  {
    hide KeyOf;
  }

  lemma TrackedEntry(ws: Watchers, v: View, nextId: nat, p: Key)
    requires Tracks(ws, v, nextId) && p in v
    ensures v[p].id in ws && ws[v[p].id] == v[p] && KeyOf(v[p].config) == p
  {
    hide KeyOf;
  }

  lemma OneLess<K, V>(m: map<K, V>, k: K)
    requires k in m
    ensures |m| == |m - {k}| + 1
  {
    assert m.Keys == (m - {k}).Keys + {k};
  }

  /** Counting by id and counting by path agree. */
  lemma {:induction false} ViewSize(ws: Watchers, v: View, nextId: nat)
    requires Tracks(ws, v, nextId)
    ensures |v| == |ws|
    decreases |ws|
  {
    hide KeyOf;
    if ws == map[] {
      assert v == map[];
    } else {
      var id :| id in ws;
      var p := KeyOf(ws[id].config);
      TrackRemove(ws, v, nextId, id);
      hide Tracks;
      ViewSize(ws - {id}, v - {p}, nextId);
      OneLess(ws, id);
      OneLess(v, p);
    }
  }

  // ---------------------------------------------------------------- the new configuration

  /** The `collect` into a map from path to config: the last duplicate wins. */
  function NewPaths(configs: seq<WatchConfig>): map<Key, WatchConfig>
  {
    if configs == [] then map[]
    else NewPaths(configs[..|configs| - 1])[KeyOf(configs[|configs| - 1]) := configs[|configs| - 1]]
  }

  ghost predicate IsLast(configs: seq<WatchConfig>, i: int, p: Key)
  {
    0 <= i < |configs| && KeyOf(configs[i]) == p && forall j :: i < j < |configs| ==> KeyOf(configs[j]) != p
  }

  lemma LastSnoc(configs: seq<WatchConfig>, i: int, p: Key)
    requires configs != []
    ensures var n := |configs| - 1;
      IsLast(configs, i, p) <==>
        (i == n && p == KeyOf(configs[n])) || (p != KeyOf(configs[n]) && IsLast(configs[..n], i, p))
  {
    hide KeyOf;
  }

  /** Each configured path is mapped to the last config that has it, and no other path is. */
  lemma {:induction false} NewPathsAreLast(configs: seq<WatchConfig>)
    ensures forall i :: 0 <= i < |configs| ==> KeyOf(configs[i]) in NewPaths(configs)
    ensures forall p :: p in NewPaths(configs) ==> exists i :: IsLast(configs, i, p)
    ensures forall p, i :: IsLast(configs, i, p) ==> p in NewPaths(configs) && NewPaths(configs)[p] == configs[i]
  {
    hide KeyOf;
    if configs != [] {
      var n := |configs| - 1;
      var before := configs[..n];
      NewPathsAreLast(before);
      assert NewPaths(configs) == NewPaths(before)[KeyOf(configs[n]) := configs[n]];
      hide NewPaths;
      hide IsLast;
      forall i | 0 <= i < |configs| ensures KeyOf(configs[i]) in NewPaths(configs) {
        if i < n { assert before[i] == configs[i]; }
      }
      forall p, i ensures IsLast(configs, i, p) <==>
        (i == n && p == KeyOf(configs[n])) || (p != KeyOf(configs[n]) && IsLast(before, i, p))
      {
        LastSnoc(configs, i, p);
      }
      forall p | p in NewPaths(configs) ensures exists i :: IsLast(configs, i, p) {
        if p == KeyOf(configs[n]) {
          assert IsLast(configs, n, p);
        }
      }
    }
  }

  lemma NewPathsOwnTheirPath(configs: seq<WatchConfig>)
    ensures forall p :: p in NewPaths(configs) ==> KeyOf(NewPaths(configs)[p]) == p
  {
    hide KeyOf;
    NewPathsAreLast(configs);
  }

  lemma OnePath(c: WatchConfig)
    ensures NewPaths([c]) == map[KeyOf(c) := c]
  {
    hide KeyOf;
    assert [c][..0] == [];
  }

  // ---------------------------------------------------------------- what a reload does

  /** `s` lists the paths, each once. */
  ghost predicate Lists(s: seq<Key>, paths: set<Key>)
  {
    && (forall i, j :: 0 <= i < j < |s| ==> s[i] != s[j])
    && (forall p :: p in s <==> p in paths)
  }

  lemma ListsNothing()
    ensures Lists([], {})
  {
  }

  lemma ListsSnoc(s: seq<Key>, paths: set<Key>, p: Key)
    requires Lists(s, paths) && p !in paths
    ensures Lists(s + [p], paths + {p})
  {
  }

  lemma ListsDisjoint(s: seq<Key>, a: set<Key>, t: seq<Key>, b: set<Key>)
    requires Lists(s, a) && Lists(t, b) && a !! b
    ensures Lists(s + t, a + b)
  {
    var u := s + t;
    forall i, j | 0 <= i < j < |u| ensures u[i] != u[j] {
      if i < |s| <= j {
        assert u[i] in a && t[j - |s|] in b;
      }
    }
    forall p ensures p in u <==> p in a + b {
      assert p in u <==> p in s || p in t;
    }
  }

  lemma {:induction false} ListsSize(s: seq<Key>, paths: set<Key>)
    requires Lists(s, paths)
    ensures |s| == |paths|
  {
    if s == [] {
      assert paths == {};
    } else {
      var p := s[|s| - 1];
      assert paths == (paths - {p}) + {p};
      assert forall q :: q in s <==> q in s[..|s| - 1] || q == p;
      ListsSize(s[..|s| - 1], paths - {p});
    }
  }

  lemma Split(a: set<Key>, b: set<Key>)
    ensures (a - b) + (a * b) == a && (a - b) !! (a * b) && |a - b| + |a * b| == |a|
  {
    assert (a - b) + (a * b) == a;
  }

  datatype ReloadResult = ReloadResult(added: seq<Key>, removed: seq<Key>, kept: seq<Key>)

  /** A successful reload of configuration `n` turns view `v` into `w`. */
  ghost predicate Reloaded(v: View, n: map<Key, WatchConfig>, w: View, firstId: nat, r: ReloadResult)
  {
    && w.Keys == n.Keys
    && (forall p :: p in n && p in v ==> w[p] == v[p].(config := n[p]))
    && (forall p :: p in n && p !in v ==> w[p] == Entry(w[p].id, n[p].recursive, n[p]) && w[p].id >= firstId)
    && Lists(r.added, n.Keys - v.Keys) && Lists(r.removed, v.Keys - n.Keys) && Lists(r.kept, v.Keys * n.Keys)
  }

  /**
   A failed reload has removed what is obsolete and added some, but not all, of what is new, and only paths
   that can be watched; watchers on paths in both configurations are untouched.
  */
  ghost predicate PartlyReloaded(
    v: View, n: map<Key, WatchConfig>, w: View, firstId: nat, creatable: set<Key>)
  {
    && w.Keys < n.Keys && w.Keys - v.Keys <= creatable
    && (forall p :: p in n && p in v ==> p in w && w[p] == v[p])
    && (forall p :: p in w && p !in v ==> w[p] == Entry(w[p].id, n[p].recursive, n[p]) && w[p].id >= firstId)
  }

  /** Nothing is obsolete, and nothing that is new can be watched. */
  ghost predicate Harmless(v: View, n: map<Key, WatchConfig>, creatable: set<Key>)
  {
    v.Keys <= n.Keys && (n.Keys - v.Keys) !! creatable
  }

  /**
   A reload that has to fail keeps the number of watchers in every order of the maps if and only if it is
   harmless, which can be seen before it begins.
  */
  lemma FailedReloadKeepsCount(v: View, n: map<Key, WatchConfig>, firstId: nat, creatable: set<Key>)
    requires !(n.Keys - v.Keys <= creatable)
    ensures (forall w :: PartlyReloaded(v, n, w, firstId, creatable) ==> |w| == |v|) <==> Harmless(v, n, creatable)
  {
    if Harmless(v, n, creatable) {
      forall w | PartlyReloaded(v, n, w, firstId, creatable) ensures |w| == |v| {
        assert w.Keys - v.Keys <= (n.Keys - v.Keys) * creatable;
        forall p | p in w.Keys ensures p in v.Keys { assert p !in w.Keys - v.Keys; }
        forall p | p in v.Keys ensures p in w.Keys { assert p in n.Keys; }
        assert w.Keys == v.Keys;
      }
    } else {
      var w := HarmfulFailure(v, n, firstId, creatable);
    }
  }

  /** The outcome when the first new path to be tried cannot be watched. */
  lemma FailsAtOnce(v: View, n: map<Key, WatchConfig>, firstId: nat, creatable: set<Key>) returns (w: View)
    requires !(n.Keys - v.Keys <= creatable)
    ensures w.Keys == v.Keys * n.Keys && PartlyReloaded(v, n, w, firstId, creatable)
  {
    w := map p | p in v && p in n :: v[p];
    var q :| q in n.Keys - v.Keys && q !in creatable;
    assert q !in w.Keys && q in n.Keys;
  }

  lemma FailsAfterOne(v: View, n: map<Key, WatchConfig>, w: View, firstId: nat, creatable: set<Key>, p: Key)
    requires !(n.Keys - v.Keys <= creatable) && PartlyReloaded(v, n, w, firstId, creatable)
    requires w.Keys == v.Keys * n.Keys && p in n && p !in v && p in creatable
    ensures PartlyReloaded(v, n, w[p := Entry(firstId, n[p].recursive, n[p])], firstId, creatable)
  {
    var q :| q in n.Keys - v.Keys && q !in creatable;
    var u := w[p := Entry(firstId, n[p].recursive, n[p])];
    assert u.Keys == w.Keys + {p} && q !in u.Keys && q in n.Keys;
  }

  /** An outcome with fewer watchers, or with one more. */
  lemma HarmfulFailure(v: View, n: map<Key, WatchConfig>, firstId: nat, creatable: set<Key>) returns (w: View)
    requires !(n.Keys - v.Keys <= creatable) && !Harmless(v, n, creatable)
    ensures PartlyReloaded(v, n, w, firstId, creatable) && |w| != |v|
  {
    w := FailsAtOnce(v, n, firstId, creatable);
    hide PartlyReloaded;
    if v.Keys <= n.Keys {
      assert w.Keys == v.Keys;
      var p :| p in n.Keys - v.Keys && p in creatable;
      FailsAfterOne(v, n, w, firstId, creatable, p);
      w := w[p := Entry(firstId, n[p].recursive, n[p])];
      assert w.Keys == v.Keys + {p};
    } else {
      var p :| p in v.Keys && p !in n.Keys;
      FewerKeys(v.Keys, n.Keys, p);
    }
  }

  lemma FewerKeys(a: set<Key>, b: set<Key>, p: Key)
    requires p in a && p !in b
    ensures |a * b| < |a|
  {
    Split(a, b);
    assert p in a - b;
  }

  /** Removed and kept partition the old paths, added and kept the new ones; the count moves by the difference. */
  lemma ReloadPartitions(v: View, n: map<Key, WatchConfig>, w: View, firstId: nat, r: ReloadResult)
    requires Reloaded(v, n, w, firstId, r)
    ensures Lists(r.removed + r.kept, v.Keys) && Lists(r.added + r.kept, w.Keys)
    ensures |w| == |v| + |r.added| - |r.removed|
  {
    hide Lists;
    var old', new', common := v.Keys - n.Keys, n.Keys - v.Keys, v.Keys * n.Keys;
    Split(v.Keys, n.Keys);
    Split(n.Keys, v.Keys);
    assert n.Keys * v.Keys == common;
    ListsDisjoint(r.removed, old', r.kept, common);
    ListsDisjoint(r.added, new', r.kept, common);
    ListsSize(r.removed, old');
    ListsSize(r.added, new');
  }

  /** Whatever was reloaded before, the resulting configurations depend on the new configuration only. */
  lemma ReloadDependsOnConfigOnly(
    v: View, v': View, n: map<Key, WatchConfig>, w: View, w': View, f: nat, f': nat, r: ReloadResult,
    r': ReloadResult)
    requires Reloaded(v, n, w, f, r) && Reloaded(v', n, w', f', r')
    ensures w.Keys == w'.Keys == n.Keys && forall p :: p in n ==> w[p].config == w'[p].config == n[p]
  {
    forall p | p in n ensures w[p].config == w'[p].config == n[p] {
      assert p in v || p !in v;
      assert p in v' || p !in v';
    }
  }

  /** Every watch observes the directory in the mode its configuration asks for. */
  ghost predicate ModesAgree(v: View)
  {
    forall p :: p in v ==> v[p].recursiveWatch == v[p].config.recursive
  }

  /**
   A kept watcher keeps its operating system watch. So after a successful reload the modes agree exactly
   when no kept path asks for another mode than the one its watch was created with.
  */
  lemma KeptWatchesKeepTheirMode(v: View, n: map<Key, WatchConfig>, w: View, firstId: nat, r: ReloadResult)
    requires Reloaded(v, n, w, firstId, r)
    ensures ModesAgree(w) <==> forall p :: p in v && p in n ==> n[p].recursive == v[p].recursiveWatch
  {
    if ModesAgree(w) {
      forall p | p in v && p in n ensures n[p].recursive == v[p].recursiveWatch {
        assert p in w;
      }
    }
  }

  // ---------------------------------------------------------------- the manager

  /** `current` maps each watched path to the id of its entry. */
  ghost predicate IndexOf(v: View, current: map<Key, nat>)
  {
    current.Keys == v.Keys && forall p :: p in v ==> current[p] == v[p].id
  }

  /** `w` holds what `v` holds on the paths in `keys`, and nothing else. */
  ghost predicate Restricted(v: View, keys: set<Key>, w: View)
  {
    w.Keys == v.Keys * keys && forall p :: p in w ==> w[p] == v[p]
  }

  /** `w` is `v` with watchers created for the paths in `fresh`. */
  ghost predicate Extended(v: View, created: set<Key>, n: map<Key, WatchConfig>, w: View, firstId: nat)
    requires created <= n.Keys
  {
    && w.Keys == v.Keys + created
    && (forall p :: p in v ==> p in w && w[p] == v[p])
    && (forall p :: p in created ==> p in w && w[p] == Entry(w[p].id, n[p].recursive, n[p]) && w[p].id >= firstId)
  }

  /** `w` is `v` with the new settings on the paths in `kept`. */
  ghost predicate Updated(v: View, kept: set<Key>, n: map<Key, WatchConfig>, w: View)
    requires kept <= n.Keys
  {
    && w.Keys == v.Keys
    && forall p :: p in v ==> w[p] == if p in kept then v[p].(config := n[p]) else v[p]
  }

  // ---------------------------------------------------------------- the three loops, one path at a time

  /** Paths outside `n` among those no longer to do are removed and listed. */
  ghost predicate Removing(v: View, n: set<Key>, todo: set<Key>, w: View, removed: seq<Key>)
  {
    && todo <= v.Keys && Restricted(v, n + todo, w)
    && Lists(removed, v.Keys - todo - n)
  }

  lemma RemovingStart(v: View, n: set<Key>)
    ensures Removing(v, n, v.Keys, v, [])
  {
    ListsNothing();
    assert v.Keys - v.Keys - n == {};
  }

  lemma RemovingStep(v: View, n: set<Key>, todo: set<Key>, w: View, removed: seq<Key>, p: Key)
    requires Removing(v, n, todo, w, removed) && p in todo
    ensures p in w && w[p] == v[p]
    ensures p in n ==> Removing(v, n, todo - {p}, w, removed)
    ensures p !in n ==> Removing(v, n, todo - {p}, w - {p}, removed + [p])
  {
    hide Lists;
    var rest := todo - {p};
    if p in n {
      assert n + rest == n + todo && v.Keys - rest - n == v.Keys - todo - n;
    } else {
      assert v.Keys - rest - n == v.Keys - todo - n + {p};
      ListsSnoc(removed, v.Keys - todo - n, p);
      assert Restricted(v, n + rest, w - {p});
    }
  }

  lemma RemovingEnd(v: View, n: set<Key>, w: View, removed: seq<Key>)
    requires Removing(v, n, {}, w, removed)
    ensures Restricted(v, n, w) && Lists(removed, v.Keys - n)
  {
    assert v.Keys - {} == v.Keys && n + {} == n;
  }

  /** Of the new paths, those no longer to do are watched and listed. */
  ghost predicate Adding(
    v: View, c: set<Key>, n: map<Key, WatchConfig>, todo: set<Key>, w: View, firstId: nat, added: seq<Key>)
  {
    && todo <= n.Keys && v.Keys == c * n.Keys
    && Extended(v, n.Keys - todo - c, n, w, firstId) && Lists(added, n.Keys - todo - c)
  }

  lemma AddingStart(v: View, c: set<Key>, n: map<Key, WatchConfig>, firstId: nat)
    requires v.Keys == c * n.Keys
    ensures Adding(v, c, n, n.Keys, v, firstId, [])
  {
    ListsNothing();
    assert n.Keys - n.Keys - c == {};
  }

  lemma AddingStep(
    v: View, c: set<Key>, n: map<Key, WatchConfig>, todo: set<Key>, w: View, firstId: nat, added: seq<Key>,
    p: Key, id: nat)
    requires Adding(v, c, n, todo, w, firstId, added) && p in todo && id >= firstId
    ensures p in c ==> Adding(v, c, n, todo - {p}, w, firstId, added)
    ensures p !in c ==> p !in w
    ensures p !in c ==> Adding(v, c, n, todo - {p}, w[p := Entry(id, n[p].recursive, n[p])], firstId, added + [p])
  {
    hide Lists;
    var rest := todo - {p};
    if p in c {
      assert n.Keys - rest - c == n.Keys - todo - c;
    } else {
      assert n.Keys - rest - c == n.Keys - todo - c + {p};
      ListsSnoc(added, n.Keys - todo - c, p);
    }
  }

  lemma AddingEnd(
    v: View, c: set<Key>, n: map<Key, WatchConfig>, todo: set<Key>, w: View, firstId: nat, added: seq<Key>)
    requires Adding(v, c, n, todo, w, firstId, added)
    ensures todo == {} ==> Extended(v, n.Keys - c, n, w, firstId) && Lists(added, n.Keys - c)
    ensures w.Keys - c == n.Keys - todo - c && Extended(v, w.Keys - c, n, w, firstId)
    ensures !(todo <= c) ==> w.Keys < n.Keys
  {
    assert w.Keys - c == n.Keys - todo - c;
    if todo == {} {
      assert n.Keys - todo == n.Keys;
    }
    if !(todo <= c) {
      var p :| p in todo && p !in c;
      assert p in n.Keys && p !in w.Keys;
    }
  }

  /** Of the paths in both configurations, those no longer to do have their new settings and are listed. */
  ghost predicate Updating(
    v: View, c: set<Key>, n: map<Key, WatchConfig>, todo: set<Key>, w: View, kept: seq<Key>)
  {
    && todo <= n.Keys == v.Keys
    && Updated(v, c * (n.Keys - todo), n, w) && Lists(kept, c * (n.Keys - todo))
  }

  lemma UpdatingStart(v: View, c: set<Key>, n: map<Key, WatchConfig>)
    requires n.Keys == v.Keys
    ensures Updating(v, c, n, n.Keys, v, [])
  {
    ListsNothing();
    assert c * (n.Keys - n.Keys) == {};
  }

  lemma UpdatingStep(
    v: View, c: set<Key>, n: map<Key, WatchConfig>, todo: set<Key>, w: View, kept: seq<Key>, p: Key)
    requires Updating(v, c, n, todo, w, kept) && p in todo
    ensures p in w && w[p] == v[p]
    ensures p !in c ==> Updating(v, c, n, todo - {p}, w, kept)
    ensures p in c ==> Updating(v, c, n, todo - {p}, w[p := v[p].(config := n[p])], kept + [p])
  {
    hide Lists;
    var rest := todo - {p};
    if p in c {
      assert c * (n.Keys - rest) == c * (n.Keys - todo) + {p};
      ListsSnoc(kept, c * (n.Keys - todo), p);
    } else {
      assert c * (n.Keys - rest) == c * (n.Keys - todo);
    }
  }

  lemma UpdatingEnd(v: View, c: set<Key>, n: map<Key, WatchConfig>, w: View, kept: seq<Key>)
    requires Updating(v, c, n, {}, w, kept)
    ensures Updated(v, c * n.Keys, n, w) && Lists(kept, c * n.Keys)
  {
    assert n.Keys - {} == n.Keys;
  }

  class Manager {
    var watchers: Watchers
    var nextId: nat
    ghost var view: View

    ghost predicate Valid()
      reads this
    {
      Tracks(watchers, view, nextId)
    }

    constructor ()
      ensures Valid() && watchers == map[] && nextId == 0
    {
      watchers, nextId, view := map[], 0, map[];
    }

    /** `add_watcher`; creating the operating system watch may fail, as the environment decides. */
    method AddWatcher(config: WatchConfig, creatable: bool) returns (id: Option<nat>)
      requires Valid()
      modifies this
      ensures Valid()
      ensures id.Some? <==> KeyOf(config) !in old(view) && creatable
      ensures id.None? ==> watchers == old(watchers) && view == old(view) && nextId == old(nextId)
      ensures id.Some? ==> id.value == old(nextId) && nextId == old(nextId) + 1
      ensures id.Some? ==> view == old(view)[KeyOf(config) := Entry(id.value, config.recursive, config)]
    {
      hide KeyOf;
      var todo := watchers.Keys;
      while todo != {}
        invariant todo <= watchers.Keys
        invariant forall i :: i in watchers && i !in todo ==> KeyOf(watchers[i].config) != KeyOf(config)
        decreases |todo|
      {
        var i :| i in todo;
        if KeyOf(watchers[i].config) == KeyOf(config) {
          return None;
        }
        todo := todo - {i};
      }
      if !creatable {
        return None;
      }
      var entry := Entry(nextId, config.recursive, config);
      TrackInsert(watchers, view, nextId, entry);
      id := Some(nextId);
      watchers, nextId, view := watchers[nextId := entry], nextId + 1, view[KeyOf(config) := entry];
    }

    /** `remove_watcher`. */
    method RemoveWatcher(id: nat) returns (path: Option<string>)
      requires Valid()
      modifies this
      ensures Valid() && nextId == old(nextId) && watchers == old(watchers) - {id}
      ensures path.None? ==> id !in old(watchers) && view == old(view)
      ensures path.Some? ==>
        var key := PathKey(path.value);
        && key in old(view) && old(view)[key].id == id && old(view)[key].config.path == path.value
        && view == old(view) - {key}
    {
      hide PathKey;
      if id in watchers {
        path := Some(watchers[id].config.path);
        TrackRemove(watchers, view, nextId, id);
        view := view - {KeyOf(watchers[id].config)};
        watchers := watchers - {id};
      } else {
        path := None;
        assert watchers - {id} == watchers;
      }
    }

    /**
     `reload`: remove, then add, then update; the maps are traversed in any order. `creatable` says which
     paths the operating system lets the manager watch, each as the configuration watched last spells it.
    */
    method Reload(configs: seq<WatchConfig>, creatable: set<Key>) returns (ok: bool, r: ReloadResult)
      requires Valid()
      modifies this
      ensures Valid() && nextId >= old(nextId)
      ensures ok <==> NewPaths(configs).Keys - old(view).Keys <= creatable
      ensures ok ==> Reloaded(old(view), NewPaths(configs), view, old(nextId), r)
      ensures !ok ==> PartlyReloaded(old(view), NewPaths(configs), view, old(nextId), creatable)
    {
      hide KeyOf, Tracks, Lists, NewPaths;
      var current := CurrentPaths();
      var next := NewPaths(configs);
      NewPathsOwnTheirPath(configs);
      var removed := RemoveObsolete(current, next);
      var created, added := AddNew(current, next, creatable);
      if !created {
        return false, ReloadResult(added, removed, []);
      }
      var kept := UpdateKept(current, next);
      return true, ReloadResult(added, removed, kept);
    }

    /** Collects the watched paths with their ids. */
    method CurrentPaths() returns (current: map<Key, nat>)
      requires Valid()
      ensures IndexOf(view, current)
    {
      hide KeyOf;
      current := map[];
      var todo := watchers.Keys;
      while todo != {}
        invariant todo <= watchers.Keys
        invariant forall p :: p in current <==> p in view && view[p].id !in todo
        invariant forall p :: p in current ==> current[p] == view[p].id
        decreases |todo|
      {
        var i :| i in todo;
        current := current[KeyOf(watchers[i].config) := watchers[i].id];
        todo := todo - {i};
      }
    }

    /** First loop: watchers whose path is not in the new configuration. */
    method RemoveObsolete(current: map<Key, nat>, next: map<Key, WatchConfig>) returns (removed: seq<Key>)
      requires Valid() && IndexOf(view, current)
      modifies this
      ensures Valid() && nextId == old(nextId)
      ensures Restricted(old(view), next.Keys, view)
      ensures Lists(removed, current.Keys - next.Keys)
    {
      hide KeyOf, Tracks, Lists, Restricted, Removing;
      removed := [];
      ghost var before := view;
      var todo := current.Keys;
      RemovingStart(before, next.Keys);
      while todo != {}
        invariant Tracks(watchers, view, nextId) && nextId == old(nextId) && todo <= current.Keys
        invariant Removing(before, next.Keys, todo, view, removed)
        decreases |todo|
      {
        var path :| path in todo;
        RemovingStep(before, next.Keys, todo, view, removed, path);
        todo := todo - {path};
        if path !in next {
          var id := current[path];
          TrackedEntry(watchers, view, nextId, path);
          if id in watchers {
            removed := removed + [KeyOf(watchers[id].config)];
            TrackRemove(watchers, view, nextId, id);
            watchers, view := watchers - {id}, view - {path};
          }
        }
      }
      RemovingEnd(before, next.Keys, view, removed);
    }

    /** Second loop: new paths. The first watch that cannot be created ends the reload. */
    method AddNew(current: map<Key, nat>, next: map<Key, WatchConfig>, creatable: set<Key>)
      returns (created: bool, added: seq<Key>)
      requires Valid() && view.Keys == current.Keys * next.Keys
      requires forall p :: p in next ==> KeyOf(next[p]) == p
      modifies this
      ensures Valid() && nextId >= old(nextId)
      ensures created <==> next.Keys - current.Keys <= creatable
      ensures created ==> Extended(old(view), next.Keys - current.Keys, next, view, old(nextId))
      ensures created ==> Lists(added, next.Keys - current.Keys)
      ensures !created ==> view.Keys < next.Keys && view.Keys - current.Keys <= creatable
      ensures !created ==> Extended(old(view), view.Keys - current.Keys, next, view, old(nextId))
    {
      hide KeyOf, Tracks, Lists, Extended, Adding;
      added := [];
      ghost var before, firstId := view, nextId;
      var todo := next.Keys;
      AddingStart(before, current.Keys, next, firstId);
      while todo != {}
        invariant Tracks(watchers, view, nextId) && nextId >= firstId && todo <= next.Keys
        invariant forall p :: p in next && p !in current && p !in todo ==> p in creatable
        invariant Adding(before, current.Keys, next, todo, view, firstId, added)
        decreases |todo|
      {
        var path :| path in todo;
        AddingStep(before, current.Keys, next, todo, view, firstId, added, path, nextId);
        if path !in current {
          if path !in creatable {
            AddingEnd(before, current.Keys, next, todo, view, firstId, added);
            return false, added;
          }
          var entry := Entry(nextId, next[path].recursive, next[path]);
          TrackInsert(watchers, view, nextId, entry);
          watchers, nextId, view := watchers[nextId := entry], nextId + 1, view[path := entry];
          added := added + [path];
        }
        todo := todo - {path};
      }
      AddingEnd(before, current.Keys, next, todo, view, firstId, added);
      created := true;
    }

    /** Third loop: paths in both configurations take the new settings and keep their watcher. */
    method UpdateKept(current: map<Key, nat>, next: map<Key, WatchConfig>) returns (kept: seq<Key>)
      requires Valid() && view.Keys == next.Keys
      requires forall p :: p in next ==> KeyOf(next[p]) == p
      requires forall p :: p in next && p in current ==> view[p].id == current[p]
      modifies this
      ensures Valid() && nextId == old(nextId)
      ensures Updated(old(view), current.Keys * next.Keys, next, view)
      ensures Lists(kept, current.Keys * next.Keys)
    {
      hide KeyOf, Tracks, Lists, Updated, Updating;
      kept := [];
      ghost var before := view;
      var todo := next.Keys;
      UpdatingStart(before, current.Keys, next);
      while todo != {}
        invariant Tracks(watchers, view, nextId) && nextId == old(nextId) && todo <= next.Keys
        invariant Updating(before, current.Keys, next, todo, view, kept)
        decreases |todo|
      {
        var path :| path in todo;
        UpdatingStep(before, current.Keys, next, todo, view, kept, path);
        todo := todo - {path};
        if path in current {
          var id := current[path];
          TrackedEntry(watchers, view, nextId, path);
          if id in watchers {
            var entry := watchers[id].(config := next[path]);
            TrackUpdate(watchers, view, nextId, entry);
            watchers, view := watchers[id := entry], view[path := entry];
            kept := kept + [path];
          }
        }
      }
      UpdatingEnd(before, current.Keys, next, view, kept);
    }
  }
}
