/**
 The dashboard's `pending_reload` flag, and the edits of the watch list that raise it. Both compare paths as
 texts, where the manager compares them as paths.
*/
module PendingReload {
  import opened Options
  import opened PathKeys
  import opened WatcherManager

  /** What `list_watchers` reports of one watcher. */
  datatype Info = Info(
    id: nat, path: string, recursive: bool, includes: seq<string>, excludes: seq<string>, eventTypes: seq<string>)

  function InfoOf(e: Entry): Info
  {
    Info(e.id, e.config.path, e.config.recursive, e.config.includes, e.config.excludes, e.config.eventTypes)
  }

  /** `active` reports every watcher of `v` once, in some order. */
  ghost predicate Listing(active: seq<Info>, v: View)
  {
    && |active| == |v|
    && (forall a :: a in active ==> PathKey(a.path) in v && a == InfoOf(v[PathKey(a.path)]))
    && (forall i, j :: 0 <= i < j < |active| ==> PathKey(active[i].path) != PathKey(active[j].path))
    && (forall p :: p in v ==> InfoOf(v[p]) in active)
  }

  /** Every watcher is kept by its own path. */
  ghost predicate Keyed(v: View)
  {
    forall p :: p in v ==> KeyOf(v[p].config) == p
  }

  /** `active` reports the watchers of `ws` that are no longer to do. */
  ghost predicate Listed(ws: Watchers, todo: set<nat>, active: seq<Info>)
  {
    && todo <= ws.Keys && |active| + |todo| == |ws|
    && (forall a :: a in active ==> a.id in ws && a.id !in todo && a == InfoOf(ws[a.id]))
    && (forall i, j :: 0 <= i < j < |active| ==> active[i].id != active[j].id)
    && (forall i :: i in ws && i !in todo ==> InfoOf(ws[i]) in active)
  }

  lemma NothingListed(ws: Watchers)
    ensures Listed(ws, ws.Keys, [])
  {
  }

  lemma ListedStep(ws: Watchers, todo: set<nat>, active: seq<Info>, i: nat)
    requires Listed(ws, todo, active) && i in todo && ws[i].id == i
    ensures Listed(ws, todo - {i}, active + [InfoOf(ws[i])])
  {
    var after := active + [InfoOf(ws[i])];
    assert forall a :: a in after <==> a in active || a == InfoOf(ws[i]);
  }

  lemma ListedIsListing(ws: Watchers, v: View, nextId: nat, active: seq<Info>)
    requires Tracks(ws, v, nextId) && Listed(ws, {}, active)
    ensures Listing(active, v)
  {
    hide PathKey;
    ViewSize(ws, v, nextId);
    forall a | a in active ensures PathKey(a.path) in v && a == InfoOf(v[PathKey(a.path)]) {
      assert PathKey(a.path) == KeyOf(ws[a.id].config);
    }
    forall i, j | 0 <= i < j < |active| ensures PathKey(active[i].path) != PathKey(active[j].path) {
      assert v[PathKey(active[i].path)].id == active[i].id && v[PathKey(active[j].path)].id == active[j].id;
    }
  }

  /** `list_watchers`: the map's values in any order. */
  method ListWatchers(m: Manager) returns (active: seq<Info>)
    requires m.Valid()
    ensures Listing(active, m.view) && Keyed(m.view)
  {
    hide KeyOf, Listed, Listing;
    active := [];
    var todo := m.watchers.Keys;
    assert Listed(m.watchers, todo, active) by { NothingListed(m.watchers); }
    while todo != {}
      invariant todo <= m.watchers.Keys && Listed(m.watchers, todo, active)
      decreases |todo|
    {
      var i :| i in todo;
      ListedStep(m.watchers, todo, active, i);
      active := active + [InfoOf(m.watchers[i])];
      todo := todo - {i};
    }
    ListedIsListing(m.watchers, m.view, m.nextId, active);
  }

  function FindFirst(active: seq<Info>, path: string): (found: Option<Info>)
    ensures found.Some? ==> found.value in active && found.value.path == path
    ensures found.None? ==> forall a :: a in active ==> a.path != path
  {
    if active == [] then None
    else if active[0].path == path then Some(active[0])
    else FindFirst(active[1..], path)
  }

  /** The settings the handler compares differ. */
  predicate Differs(a: Info, c: WatchConfig)
  {
    || a.recursive != c.recursive || a.includes != c.includes || a.excludes != c.excludes
    || a.eventTypes != c.eventTypes
  }

  /** A configured watch has an active watcher with its settings. */
  predicate Active(active: seq<Info>, c: WatchConfig)
  {
    FindFirst(active, c.path).Some? && !Differs(FindFirst(active, c.path).value, c)
  }

  predicate Pending(configs: seq<WatchConfig>, active: seq<Info>)
  {
    |active| != |configs| || exists i :: 0 <= i < |configs| && !Active(active, configs[i])
  }

  /** Watcher `k` is the first to have the text of `c`, and has its four settings. */
  ghost predicate Matched(active: seq<Info>, c: WatchConfig, k: int)
  {
    && 0 <= k < |active| && active[k].path == c.path && (forall j :: 0 <= j < k ==> active[j].path != c.path)
    && active[k].recursive == c.recursive && active[k].includes == c.includes
    && active[k].excludes == c.excludes && active[k].eventTypes == c.eventTypes
  }

  ghost predicate Shown(active: seq<Info>, c: WatchConfig)
  {
    exists k :: Matched(active, c, k)
  }

  lemma {:induction false} ActiveIsMatched(active: seq<Info>, c: WatchConfig)
    ensures Active(active, c) <==> Shown(active, c)
  {
    if active != [] && active[0].path == c.path {
      assert Active(active, c) ==> Matched(active, c, 0);
    } else if active != [] {
      var rest := active[1..];
      ActiveIsMatched(rest, c);
      if k :| Matched(rest, c, k) {
        forall j | 0 <= j < k + 1 ensures active[j].path != c.path {
          if j > 0 { assert rest[j - 1] == active[j]; }
        }
        assert Matched(active, c, k + 1);
      }
      if k :| Matched(active, c, k) {
        assert forall j :: 0 <= j < |rest| ==> rest[j] == active[j + 1];
        assert Matched(rest, c, k - 1);
      }
    }
  }

  lemma NotPendingIsShown(configs: seq<WatchConfig>, active: seq<Info>)
    ensures !Pending(configs, active) <==>
      |active| == |configs| && forall i :: 0 <= i < |configs| ==> Shown(active, configs[i])
  {
    forall i | 0 <= i < |configs| ensures Active(active, configs[i]) <==> Shown(active, configs[i]) {
      ActiveIsMatched(active, configs[i]);
    }
    hide Active, Shown;
  }

  /** The loop of the configuration handler. */
  method ComputePendingReload(configs: seq<WatchConfig>, active: seq<Info>) returns (pending: bool)
    ensures pending == Pending(configs, active)
    ensures !pending <==> |active| == |configs| && forall i :: 0 <= i < |configs| ==> Shown(active, configs[i])
  {
    NotPendingIsShown(configs, active);
    if |active| != |configs| {
      return true;
    }
    var differs := false;
    for i := 0 to |configs|
      invariant !differs && forall j :: 0 <= j < i ==> Active(active, configs[j])
    {
      match FindFirst(active, configs[i].path)
      case Some(a) =>
        if Differs(a, configs[i]) {
          differs := true;
          return differs;
        }
      case None =>
        differs := true;
        return differs;
    }
    pending := differs;
  }

  // ---------------------------------------------------------------- what the flag means

  /** No path is configured twice, in whatever spelling. */
  predicate DistinctPaths(configs: seq<WatchConfig>)
  {
    forall i, j :: 0 <= i < j < |configs| ==> KeyOf(configs[i]) != KeyOf(configs[j])
  }

  /** No path is configured twice in one spelling: what adding a watch checks. */
  predicate DistinctTexts(configs: seq<WatchConfig>)
  {
    forall i, j :: 0 <= i < j < |configs| ==> configs[i].path != configs[j].path
  }

  /** `d` spells its path as `c` does and has its settings. */
  predicate Same(d: WatchConfig, c: WatchConfig)
  {
    && d.path == c.path && d.recursive == c.recursive
    && d.includes == c.includes && d.excludes == c.excludes && d.eventTypes == c.eventTypes
  }

  /** `e` has the settings of `c` and spells its path as `c` does. */
  predicate Shows(e: Entry, c: WatchConfig)
  {
    Same(e.config, c)
  }

  /** The watchers are on exactly the configured paths, as they are spelled and with the configured settings. */
  ghost predicate InSync(v: View, configs: seq<WatchConfig>)
  {
    && v.Keys == NewPaths(configs).Keys
    && forall i :: 0 <= i < |configs| && KeyOf(configs[i]) in v ==> Shows(v[KeyOf(configs[i])], configs[i])
  }

  lemma DistinctSnoc(configs: seq<WatchConfig>, n: nat)
    requires |configs| == n + 1
    ensures DistinctPaths(configs) <==>
      DistinctPaths(configs[..n]) && forall i :: 0 <= i < n ==> KeyOf(configs[i]) != KeyOf(configs[n])
  {
    hide KeyOf;
    var before := configs[..n];
    assert forall i :: 0 <= i < n ==> before[i] == configs[i];
  }

  lemma KeyCount(m: map<Key, WatchConfig>, p: Key, c: WatchConfig)
    ensures |m[p := c]| == if p in m then |m| else |m| + 1
  {
    if p in m {
      assert m[p := c].Keys == m.Keys;
    } else {
      assert m[p := c].Keys == m.Keys + {p};
      assert |m[p := c].Keys| == |m.Keys| + 1;
    }
  }

  lemma NotConfigured(configs: seq<WatchConfig>, p: Key)
    ensures p !in NewPaths(configs) <==> forall i :: 0 <= i < |configs| ==> KeyOf(configs[i]) != p
  {
    hide KeyOf;
    NewPathsAreLast(configs);
    if p in NewPaths(configs) {
      var i :| IsLast(configs, i, p);
      assert KeyOf(configs[i]) == p;
    }
  }

  lemma {:induction false} PathCount(configs: seq<WatchConfig>)
    ensures |NewPaths(configs)| <= |configs|
    ensures |NewPaths(configs)| == |configs| <==> DistinctPaths(configs)
  {
    hide KeyOf;
    if configs != [] {
      var n := |configs| - 1;
      var before := configs[..n];
      assert NewPaths(configs) == NewPaths(before)[KeyOf(configs[n]) := configs[n]];
      PathCount(before);
      hide NewPaths, DistinctPaths;
      DistinctSnoc(configs, n);
      NotConfigured(before, KeyOf(configs[n]));
      KeyCount(NewPaths(before), KeyOf(configs[n]), configs[n]);
      assert forall i :: 0 <= i < n ==> before[i] == configs[i];
    }
  }

  lemma SubsetOfSameSize(a: set<Key>, b: set<Key>)
    requires a <= b && |a| == |b|
    ensures a == b
  {
    assert b == a + (b - a);
  }

  lemma ActiveMeans(v: View, active: seq<Info>, c: WatchConfig)
    requires Listing(active, v) && Keyed(v)
    ensures Active(active, c) <==> KeyOf(c) in v && Shows(v[KeyOf(c)], c)
  {
    hide PathKey;
    if KeyOf(c) in v {
      assert InfoOf(v[KeyOf(c)]) in active;
    }
  }

  /** The flag is down exactly when there are as many watchers as watches and each watch is shown. */
  lemma NotPendingMeans(v: View, active: seq<Info>, configs: seq<WatchConfig>)
    requires Listing(active, v) && Keyed(v)
    ensures !Pending(configs, active) <==>
      && |v| == |configs|
      && forall i :: 0 <= i < |configs| ==> KeyOf(configs[i]) in v && Shows(v[KeyOf(configs[i])], configs[i])
  {
    hide KeyOf, Shows, Keyed, Active;
    assert |active| == |v|;
    hide Listing;
    forall i | 0 <= i < |configs|
      ensures Active(active, configs[i]) <==> KeyOf(configs[i]) in v && Shows(v[KeyOf(configs[i])], configs[i])
    {
      ActiveMeans(v, active, configs[i]);
    }
  }

  /** Where every watch is shown, one path has one spelling. */
  lemma ShownTextsArePaths(v: View, configs: seq<WatchConfig>)
    requires forall i :: 0 <= i < |configs| ==> KeyOf(configs[i]) in v && Shows(v[KeyOf(configs[i])], configs[i])
    ensures DistinctTexts(configs) <==> DistinctPaths(configs)
  {
    hide PathKey;
    if DistinctTexts(configs) {
      forall i, j | 0 <= i < j < |configs| ensures KeyOf(configs[i]) != KeyOf(configs[j]) {
        assert Shows(v[KeyOf(configs[i])], configs[i]) && Shows(v[KeyOf(configs[j])], configs[j]);
      }
    }
    if DistinctPaths(configs) {
      forall i, j | 0 <= i < j < |configs| ensures configs[i].path != configs[j].path {
        assert KeyOf(configs[i]) != KeyOf(configs[j]);
      }
    }
  }

  /**
   With texts that differ the flag is down exactly when watchers and configuration are in sync. A path that
   is configured twice, in whatever spelling, keeps it up while they are in sync.
  */
  lemma PendingMeansOutOfSync(v: View, active: seq<Info>, configs: seq<WatchConfig>)
    requires Listing(active, v) && Keyed(v)
    ensures DistinctTexts(configs) ==> (!Pending(configs, active) <==> InSync(v, configs))
    ensures InSync(v, configs) ==> (!Pending(configs, active) <==> DistinctPaths(configs))
    ensures !Pending(configs, active) ==> (InSync(v, configs) <==> DistinctPaths(configs))
  {
    hide KeyOf, Shows, NewPaths, Listing, Keyed, Pending, DistinctPaths, DistinctTexts;
    NewPathsAreLast(configs);
    PathCount(configs);
    NotPendingMeans(v, active, configs);
    if !Pending(configs, active) || InSync(v, configs) {
      forall i | 0 <= i < |configs|
        ensures KeyOf(configs[i]) in v && Shows(v[KeyOf(configs[i])], configs[i])
      {
        assert InSync(v, configs) ==> KeyOf(configs[i]) in NewPaths(configs).Keys;
      }
      ShownTextsArePaths(v, configs);
    }
    if !Pending(configs, active) && DistinctPaths(configs) {
      forall p | p in NewPaths(configs) ensures p in v {
        var i :| IsLast(configs, i, p);
        assert KeyOf(configs[i]) in v;
      }
      SubsetOfSameSize(NewPaths(configs).Keys, v.Keys);
    }
  }

  /** After a successful reload of `configs` the flag is down if and only if no path is configured twice. */
  lemma PendingAfterReload(
    before: View, v: View, active: seq<Info>, configs: seq<WatchConfig>, firstId: nat, r: ReloadResult)
    requires Reloaded(before, NewPaths(configs), v, firstId, r)
    requires Listing(active, v) && Keyed(v)
    ensures Pending(configs, active) <==> !DistinctPaths(configs)
  {
    hide KeyOf, NewPaths, Listing, Keyed, Pending;
    PathCount(configs);
    NotPendingMeans(v, active, configs);
    if DistinctPaths(configs) {
      NewPathsAreLast(configs);
      forall i | 0 <= i < |configs|
        ensures KeyOf(configs[i]) in v && Shows(v[KeyOf(configs[i])], configs[i])
      {
        assert IsLast(configs, i, KeyOf(configs[i]));
      }
    }
  }

  /**
   Two spellings of one path are added without a conflict. A reload makes one watcher of them, as `w` here,
   and whatever the watchers were before, it leaves the flag up.
  */
  lemma TwoSpellingsKeepTheFlagUp(path: string, c: WatchConfig)
    requires path != ""
    ensures var configs := [c.(path := path), c.(path := path + "/")];
      var k := PathKey(path);
      var w: View := map[k := Entry(0, c.recursive, configs[1])];
      && DistinctTexts(configs) && !DistinctPaths(configs)
      && Reloaded(map[], NewPaths(configs), w, 0, ReloadResult([k], [], []))
      && forall before, v, active, firstId, r ::
          Reloaded(before, NewPaths(configs), v, firstId, r) && Listing(active, v) && Keyed(v) ==>
            Pending(configs, active)
  {
    hide PathKey, NewPaths, Listing, Keyed, Pending;
    var configs := [c.(path := path), c.(path := path + "/")];
    SpellingsOfOnePath(path, "");
    assert KeyOf(configs[0]) == KeyOf(configs[1]) == PathKey(path);
    LastOfTwo(configs[0], configs[1]);
    assert map[PathKey(path) := configs[1]].Keys == {PathKey(path)};
    hide Reloaded;
    forall before, v, active, firstId, r
      | Reloaded(before, NewPaths(configs), v, firstId, r) && Listing(active, v) && Keyed(v)
      ensures Pending(configs, active)
    {
      PendingAfterReload(before, v, active, configs, firstId, r);
    }
  }

  /** Some watch of `configs` has the text and the settings of `c`. */
  ghost predicate Offers(configs: seq<WatchConfig>, c: WatchConfig)
  {
    exists i :: 0 <= i < |configs| && Same(configs[i], c)
  }

  /** Two lists a dashboard user cannot tell apart, but for the order and for repetitions. */
  ghost predicate SameWatches(a: seq<WatchConfig>, b: seq<WatchConfig>)
  {
    (forall i :: 0 <= i < |a| ==> Offers(b, a[i])) && (forall j :: 0 <= j < |b| ==> Offers(a, b[j]))
  }

  lemma OffersMeansShown(v: View, configs: seq<WatchConfig>, c: WatchConfig)
    requires InSync(v, configs)
    ensures Offers(configs, c) <==> KeyOf(c) in v && Shows(v[KeyOf(c)], c)
  {
    hide PathKey, NewPaths;
    NewPathsAreLast(configs);
    if Offers(configs, c) {
      var i :| 0 <= i < |configs| && Same(configs[i], c);
      assert KeyOf(configs[i]) in NewPaths(configs).Keys;
    }
    if KeyOf(c) in v && Shows(v[KeyOf(c)], c) {
      assert KeyOf(c) in NewPaths(configs).Keys;
      var i :| IsLast(configs, i, KeyOf(c));
      assert KeyOf(configs[i]) in v;
    }
  }

  /**
   Starting in sync, any edits leave the flag down exactly when the list is as long as there were paths and
   each of its watches was there before; and if its texts differ, exactly when the same watches are configured.
  */
  lemma EditsRaiseTheFlag(v: View, active: seq<Info>, before: seq<WatchConfig>, after: seq<WatchConfig>)
    requires Listing(active, v) && Keyed(v) && InSync(v, before)
    ensures !Pending(after, active) <==>
      |after| == |NewPaths(before)| && forall j :: 0 <= j < |after| ==> Offers(before, after[j])
    ensures DistinctTexts(after) ==> (Pending(after, active) <==> !SameWatches(before, after))
  {
    hide KeyOf, Shows, NewPaths, Listing, Keyed, Pending, Offers, DistinctTexts, DistinctPaths;
    NotPendingMeans(v, active, after);
    assert |v| == |v.Keys| == |NewPaths(before).Keys| == |NewPaths(before)|;
    forall j | 0 <= j < |after|
      ensures Offers(before, after[j]) <==> KeyOf(after[j]) in v && Shows(v[KeyOf(after[j])], after[j])
    {
      OffersMeansShown(v, before, after[j]);
    }
    PendingMeansOutOfSync(v, active, after);
    if DistinctTexts(after) && InSync(v, after) {
      NewPathsAreLast(before);
      forall i | 0 <= i < |before| ensures Offers(after, before[i]) {
        assert KeyOf(before[i]) in NewPaths(before).Keys;
        OffersMeansShown(v, after, before[i]);
      }
    }
    if SameWatches(before, after) {
      SameWatchesSamePaths(before, after);
    }
  }

  lemma SameWatchesSamePaths(a: seq<WatchConfig>, b: seq<WatchConfig>)
    requires SameWatches(a, b)
    ensures NewPaths(a).Keys == NewPaths(b).Keys
  {
    OfferedPaths(a, b);
    OfferedPaths(b, a);
  }

  lemma OfferedPaths(a: seq<WatchConfig>, b: seq<WatchConfig>)
    requires forall i :: 0 <= i < |a| ==> Offers(b, a[i])
    ensures NewPaths(a).Keys <= NewPaths(b).Keys
  {
    hide PathKey, NewPaths;
    NewPathsAreLast(a);
    NewPathsAreLast(b);
    forall p | p in NewPaths(a).Keys ensures p in NewPaths(b).Keys {
      var i :| IsLast(a, i, p);
      assert Offers(b, a[i]);
      var j :| 0 <= j < |b| && b[j].path == a[i].path;
      assert KeyOf(b[j]) in NewPaths(b);
    }
  }

  lemma LastOfTwo(c: WatchConfig, d: WatchConfig)
    requires KeyOf(c) == KeyOf(d)
    ensures NewPaths([c, d]) == map[KeyOf(d) := d]
  {
    hide KeyOf;
    assert [c, d][..1] == [c];
    OnePath(c);
  }

  /** A watch whose mode is changed: the reload succeeds and the flag is down, and the old mode is in force. */
  lemma ReportedWithoutBeingInForce(c: WatchConfig)
    ensures var changed := c.(recursive := !c.recursive);
      var v: View := map[KeyOf(c) := Entry(0, c.recursive, c)];
      var w: View := map[KeyOf(c) := Entry(0, c.recursive, changed)];
      && ModesAgree(v) && !ModesAgree(w)
      && Reloaded(v, NewPaths([changed]), w, 1, ReloadResult([], [], [KeyOf(c)]))
      && Listing([InfoOf(w[KeyOf(c)])], w) && Keyed(w) && !Pending([changed], [InfoOf(w[KeyOf(c)])])
  {
    hide PathKey, NewPaths;
    var changed := c.(recursive := !c.recursive);
    var v: View := map[KeyOf(c) := Entry(0, c.recursive, c)];
    var w: View := map[KeyOf(c) := Entry(0, c.recursive, changed)];
    OnePath(changed);
    assert KeyOf(changed) == KeyOf(c) && KeyOf(c) in w;
    assert FindFirst([InfoOf(w[KeyOf(c)])], c.path) == Some(InfoOf(w[KeyOf(c)]));
  }

  /** A path configured twice can hide a watcher that is not configured at all. */
  lemma DuplicateHidesAWatcher(a: WatchConfig, b: WatchConfig)
    requires KeyOf(a) != KeyOf(b)
    ensures var v: View := map[KeyOf(a) := Entry(0, a.recursive, a), KeyOf(b) := Entry(1, b.recursive, b)];
      var active := [InfoOf(v[KeyOf(a)]), InfoOf(v[KeyOf(b)])];
      Listing(active, v) && Keyed(v) && !Pending([a, a], active) && KeyOf(b) !in NewPaths([a, a])
  {
    hide PathKey, NewPaths;
    var v: View := map[KeyOf(a) := Entry(0, a.recursive, a), KeyOf(b) := Entry(1, b.recursive, b)];
    var active := [InfoOf(v[KeyOf(a)]), InfoOf(v[KeyOf(b)])];
    assert v.Keys == {KeyOf(a), KeyOf(b)};
    assert FindFirst(active, a.path) == Some(active[0]);
    NewPathsAreLast([a, a]);
  }

  // ---------------------------------------------------------------- editing the watch list

  datatype Reply = Done | BadRequest | NotFound | Conflict | SaveFailed

  /** The fields a request may replace. */
  datatype Edit = Edit(
    recursive: Option<bool>, includes: Option<seq<string>>, excludes: Option<seq<string>>,
    eventTypes: Option<seq<string>>)

  function Or<T>(o: Option<T>, d: T): T
  {
    match o case Some(x) => x case None => d
  }

  function Edited(c: WatchConfig, e: Edit): WatchConfig
  {
    c.(recursive := Or(e.recursive, c.recursive), includes := Or(e.includes, c.includes),
       excludes := Or(e.excludes, c.excludes), eventTypes := Or(e.eventTypes, c.eventTypes))
  }

  lemma AddedPath(configs: seq<WatchConfig>, c: WatchConfig)
    ensures DistinctPaths(configs + [c]) <==> DistinctPaths(configs) && PathKey(c.path) !in NewPaths(configs)
  {
    var after := configs + [c];
    assert KeyOf(c) == PathKey(c.path) && after[..|configs|] == configs;
    hide KeyOf, NewPaths, DistinctPaths;
    DistinctSnoc(after, |configs|);
    NotConfigured(configs, KeyOf(c));
    assert forall i :: 0 <= i < |configs| ==> after[i] == configs[i];
  }

  /** A given field is taken and an absent one kept. */
  predicate Taken<T(==)>(given: Option<T>, was: T, now: T)
  {
    (given.Some? ==> now == given.value) && (given.None? ==> now == was)
  }

  /** `d` is `c` with the fields the request gives, and the same path and everything else. */
  predicate EditedAs(c: WatchConfig, e: Edit, d: WatchConfig)
  {
    && Taken(e.recursive, c.recursive, d.recursive) && Taken(e.includes, c.includes, d.includes)
    && Taken(e.excludes, c.excludes, d.excludes) && Taken(e.eventTypes, c.eventTypes, d.eventTypes)
    && d.path == c.path && d.other == c.other
  }

  lemma EditedTakes(c: WatchConfig, e: Edit)
    ensures EditedAs(c, e, Edited(c, e)) && Edited(c, e).path == c.path
  {
  }

  /** The stored configuration's watches, and those last written to the configuration file. */
  class WatchList {
    var watches: seq<WatchConfig>
    var saved: seq<WatchConfig>

    constructor (loaded: seq<WatchConfig>)
      ensures watches == saved == loaded
    {
      watches, saved := loaded, loaded;
    }

    /** `config.save`; the stored configuration keeps the edit even when writing the file fails. */
    method Save(writable: bool) returns (reply: Reply)
      modifies this
      ensures watches == old(watches) && saved == if writable then watches else old(saved)
      ensures reply == if writable then Done else SaveFailed
    {
      if writable {
        saved := watches;
        return Done;
      }
      return SaveFailed;
    }

    /** POST: a new path with defaults for what the request leaves out. */
    method Add(path: string, e: Edit, writable: bool) returns (reply: Reply)
      modifies this
      ensures DistinctTexts(old(watches)) ==> DistinctTexts(watches)
      ensures reply !in {BadRequest, Conflict} ==>
        (DistinctPaths(watches) <==> DistinctPaths(old(watches)) && PathKey(path) !in NewPaths(old(watches)))
      ensures reply == BadRequest <==> path == ""
      ensures reply == Conflict <==>
        path != "" && exists i :: 0 <= i < |old(watches)| && old(watches)[i].path == path
      ensures reply in {BadRequest, Conflict} ==> watches == old(watches) && saved == old(saved)
      ensures reply !in {BadRequest, Conflict} ==>
        && |watches| == |old(watches)| + 1 && watches[..|old(watches)|] == old(watches)
        && EditedAs(WatchConfig(path, true, [], [], [], ""), e, watches[|old(watches)|])
      ensures reply == Done ==> saved == watches
      ensures reply == SaveFailed ==> saved == old(saved)
      ensures reply != NotFound
    {
      if path == "" {
        return BadRequest;
      }
      hide KeyOf, PathKey, NewPaths, DistinctPaths, EditedAs;
      var added := Edited(WatchConfig(path, true, [], [], [], ""), e);
      EditedTakes(WatchConfig(path, true, [], [], [], ""), e);
      for i := 0 to |watches|
        invariant forall j :: 0 <= j < i ==> watches[j].path != path
      {
        if watches[i].path == path {
          return Conflict;
        }
      }
      AddedPath(watches, added);
      watches := watches + [added];
      reply := Save(writable);
    }

    /** PUT: replaces the given settings of one watch, never its path. */
    method Update(idx: nat, e: Edit, writable: bool) returns (reply: Reply)
      modifies this
      ensures DistinctTexts(old(watches)) ==> DistinctTexts(watches)
      ensures DistinctPaths(old(watches)) ==> DistinctPaths(watches)
      ensures reply == NotFound <==> idx >= |old(watches)|
      ensures reply == NotFound ==> watches == old(watches) && saved == old(saved)
      ensures idx < |old(watches)| ==>
        && |watches| == |old(watches)| && EditedAs(old(watches)[idx], e, watches[idx])
        && watches == old(watches)[idx := watches[idx]]
      ensures reply == Done ==> saved == watches
      ensures reply == SaveFailed ==> saved == old(saved)
      ensures reply !in {BadRequest, Conflict}
    {
      if idx >= |watches| {
        return NotFound;
      }
      watches := watches[idx := Edited(watches[idx], e)];
      reply := Save(writable);
    }

    /** DELETE. */
    method Delete(idx: nat, writable: bool) returns (reply: Reply)
      modifies this
      ensures DistinctTexts(old(watches)) ==> DistinctTexts(watches)
      ensures DistinctPaths(old(watches)) ==> DistinctPaths(watches)
      ensures reply == NotFound <==> idx >= |old(watches)|
      ensures reply == NotFound ==> watches == old(watches) && saved == old(saved)
      ensures idx < |old(watches)| ==> watches == old(watches)[..idx] + old(watches)[idx + 1..]
      ensures reply == Done ==> saved == watches
      ensures reply == SaveFailed ==> saved == old(saved)
      ensures reply !in {BadRequest, Conflict}
    {
      if idx >= |watches| {
        return NotFound;
      }
      watches := watches[..idx] + watches[idx + 1..];
      reply := Save(writable);
    }
  }
}
