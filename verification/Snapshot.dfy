/** `DirectorySnapshot`: scanning a directory tree, and the events that lead from one scan to a later one. */
module Snapshot {
  import opened Options

  type Path = seq<string>

  datatype Meta = Meta(modified: Option<int>, size: nat, isDir: bool)

  type Files = map<Path, Meta>

  // ---------------------------------------------------------------- scanning

  /** A directory entry. `statable` and `readable` say whether its metadata and its own entries can be read. */
  datatype Tree = Tree(name: string, meta: Meta, statable: bool, readable: bool, entries: seq<Tree>)

  /** Names are distinct within each directory. */
  predicate DistinctNames(entries: seq<Tree>)
  {
    && (forall i, j :: 0 <= i < j < |entries| ==> entries[i].name != entries[j].name)
    && forall t :: t in entries ==> DistinctNames(t.entries)
  }

  /** Everything a scan has to read can be read. */
  predicate Accessible(readable: bool, entries: seq<Tree>, recursive: bool)
    decreases entries
  {
    && readable
    && forall t :: t in entries ==>
      t.statable && (recursive && t.meta.isDir ==> Accessible(t.readable, t.entries, recursive))
  }

  /** `names` lead to `t`, through directories only if `recursive`. */
  ghost predicate LeadTo(entries: seq<Tree>, names: Path, recursive: bool, t: Tree)
    decreases |names|
  {
    names != [] && exists e :: e in entries && Follows(e, names, recursive, t)
  }

  ghost predicate Follows(e: Tree, names: Path, recursive: bool, t: Tree)
    requires names != []
    decreases |names|, 0
  {
    && e.name == names[0]
    && if |names| == 1 then e == t else recursive && e.meta.isDir && LeadTo(e.entries, names[1..], recursive, t)
  }

  /** Every entry that is come to can be read, and so can the directories among them if they are entered. */
  ghost predicate AllRead(entries: seq<Tree>, recursive: bool)
  {
    forall names, t :: LeadTo(entries, names, recursive, t) ==>
      t.statable && (recursive && t.meta.isDir ==> t.readable)
  }

  /** What a scan has to read: the directory, every entry it comes to, and below them if it is recursive. */
  lemma {:induction false} AccessibleMeans(readable: bool, entries: seq<Tree>, recursive: bool)
    ensures Accessible(readable, entries, recursive) <==> readable && AllRead(entries, recursive)
    decreases entries
  {
    hide Follows, AllRead;
    AllReadMeans(entries, recursive);
    forall e | e in entries && recursive && e.meta.isDir
      ensures Accessible(e.readable, e.entries, recursive) <==> e.readable && AllRead(e.entries, recursive)
    {
      AccessibleMeans(e.readable, e.entries, recursive);
    }
  }

  lemma AllReadMeans(entries: seq<Tree>, recursive: bool)
    ensures AllRead(entries, recursive) <==>
      forall e :: e in entries ==>
        e.statable && (recursive && e.meta.isDir ==> e.readable && AllRead(e.entries, recursive))
  {
    hide LeadTo, AllRead;
    if AllRead(entries, recursive) {
      forall e | e in entries
        ensures e.statable && (recursive && e.meta.isDir ==> e.readable && AllRead(e.entries, recursive))
      {
        ReadBelow(entries, recursive, e);
      }
    } else {
      var names, t := Unread(entries, recursive);
      var e := LedThrough(entries, names, recursive, t);
      if |names| > 1 { NotAllRead(e.entries, names[1..], recursive, t); }
    }
  }

  lemma ReadBelow(entries: seq<Tree>, recursive: bool, e: Tree)
    requires AllRead(entries, recursive) && e in entries
    ensures e.statable && (recursive && e.meta.isDir ==> e.readable && AllRead(e.entries, recursive))
  {
    hide LeadTo;
    LeadToEntry(entries, recursive, e);
    if recursive && e.meta.isDir {
      forall names, t | LeadTo(e.entries, names, recursive, t)
        ensures t.statable && (recursive && t.meta.isDir ==> t.readable)
      {
        LeadBelow(entries, names, recursive, e, t);
      }
    }
  }

  lemma LeadToEntry(entries: seq<Tree>, recursive: bool, e: Tree)
    requires e in entries
    ensures LeadTo(entries, [e.name], recursive, e)
  {
    assert Follows(e, [e.name], recursive, e);
  }

  lemma LeadBelow(entries: seq<Tree>, names: Path, recursive: bool, e: Tree, t: Tree)
    requires e in entries && recursive && e.meta.isDir && LeadTo(e.entries, names, recursive, t)
    ensures LeadTo(entries, [e.name] + names, recursive, t)
  {
    assert ([e.name] + names)[1..] == names;
    assert Follows(e, [e.name] + names, recursive, t);
  }

  lemma LedThrough(entries: seq<Tree>, names: Path, recursive: bool, t: Tree) returns (e: Tree)
    requires LeadTo(entries, names, recursive, t)
    ensures names != [] && e in entries
    ensures if |names| == 1 then e == t else recursive && e.meta.isDir && LeadTo(e.entries, names[1..], recursive, t)
  {
    e :| e in entries && Follows(e, names, recursive, t);
  }

  lemma Unread(entries: seq<Tree>, recursive: bool) returns (names: Path, t: Tree)
    requires !AllRead(entries, recursive)
    ensures LeadTo(entries, names, recursive, t) && !(t.statable && (recursive && t.meta.isDir ==> t.readable))
  {
    hide LeadTo;
    names, t :| LeadTo(entries, names, recursive, t) && !(t.statable && (recursive && t.meta.isDir ==> t.readable));
  }

  lemma NotAllRead(entries: seq<Tree>, names: Path, recursive: bool, t: Tree)
    requires LeadTo(entries, names, recursive, t) && !(t.statable && (recursive && t.meta.isDir ==> t.readable))
    ensures !AllRead(entries, recursive)
  {
  }

  predicate Visitable(t: Tree, recursive: bool)
  {
    t.statable && (recursive && t.meta.isDir ==> Accessible(t.readable, t.entries, recursive))
  }

  function Find(entries: seq<Tree>, name: string): (found: Option<Tree>)
    ensures found.Some? ==> found.value in entries && found.value.name == name
  {
    if entries == [] then None
    else if entries[|entries| - 1].name == name then Some(entries[|entries| - 1])
    else Find(entries[..|entries| - 1], name)
  }

  /** What a path below the directory leads to, name by name; without recursion only one name is followed. */
  function Lookup(entries: seq<Tree>, names: Path, recursive: bool): Option<Meta>
    decreases |names|
  {
    if names == [] then None
    else
      match Find(entries, names[0])
      case None => None
      case Some(t) => Below(t, names, recursive)
  }

  function Below(t: Tree, names: Path, recursive: bool): Option<Meta>
    requires names != []
    decreases |names|, 0
  {
    if |names| == 1 then Some(t.meta)
    else if recursive && t.meta.isDir then Lookup(t.entries, names[1..], recursive)
    else None
  }

  /** The file the directory's path and entries lead to at `p`, if `p` is below the directory. */
  function FileAt(dir: Path, entries: seq<Tree>, recursive: bool, p: Path): Option<Meta>
  {
    if dir <= p then Lookup(entries, p[|dir|..], recursive) else None
  }

  function At(files: Files, p: Path): Option<Meta>
  {
    if p in files then Some(files[p]) else None
  }

  /** `after` is `before` with every entry of the directory, and below it if `recursive`, at its path. */
  ghost predicate Scanned(before: Files, dir: Path, entries: seq<Tree>, recursive: bool, after: Files)
  {
    forall p :: At(after, p) ==
      if FileAt(dir, entries, recursive, p).Some? then FileAt(dir, entries, recursive, p) else At(before, p)
  }

  lemma NothingScanned(files: Files, dir: Path, recursive: bool)
    ensures Scanned(files, dir, [], recursive, files)
  {
  }

  lemma FileAtSnoc(dir: Path, entries: seq<Tree>, t: Tree, recursive: bool, p: Path)
    requires forall e :: e in entries ==> e.name != t.name
    ensures FileAt(dir, entries + [t], recursive, p) ==
      if dir < p && p[|dir|] == t.name then Below(t, p[|dir|..], recursive) else FileAt(dir, entries, recursive, p)
  {
    assert (entries + [t])[..|entries|] == entries;
  }

  lemma BelowIsFileAt(dir: Path, t: Tree, recursive: bool, p: Path)
    requires dir < p && p[|dir|] == t.name
    ensures dir + [t.name] <= p
    ensures recursive && t.meta.isDir ==>
      Below(t, p[|dir|..], recursive) ==
        if p == dir + [t.name] then Some(t.meta) else FileAt(dir + [t.name], t.entries, recursive, p)
    ensures !(recursive && t.meta.isDir) ==>
      Below(t, p[|dir|..], recursive) == if p == dir + [t.name] then Some(t.meta) else None
  {
    assert p[|dir|..][1..] == p[|dir| + 1..];
    assert p == dir + [t.name] + p[|dir| + 1..];
  }

  lemma ScannedSnoc(
    before: Files, dir: Path, entries: seq<Tree>, t: Tree, recursive: bool, middle: Files, after: Files)
    requires Scanned(before, dir, entries, recursive, middle) && forall e :: e in entries ==> e.name != t.name
    requires recursive && t.meta.isDir ==>
      Scanned(middle[dir + [t.name] := t.meta], dir + [t.name], t.entries, recursive, after)
    requires !(recursive && t.meta.isDir) ==> after == middle[dir + [t.name] := t.meta]
    ensures Scanned(before, dir, entries + [t], recursive, after)
  {
    hide FileAt, Below;
    var path := dir + [t.name];
    forall p ensures At(after, p) ==
      if FileAt(dir, entries + [t], recursive, p).Some? then FileAt(dir, entries + [t], recursive, p) else At(before, p)
    {
      FileAtSnoc(dir, entries, t, recursive, p);
      if dir < p && p[|dir|] == t.name {
        BelowIsFileAt(dir, t, recursive, p);
        NamedOnce(dir, entries, t, recursive, p);
        if p == path { NotBelowItself(path, t.entries, recursive); }
      } else {
        NotUnder(dir, t, recursive, p);
      }
    }
  }

  lemma NamedOnce(dir: Path, entries: seq<Tree>, t: Tree, recursive: bool, p: Path)
    requires forall e :: e in entries ==> e.name != t.name
    requires dir < p && p[|dir|] == t.name
    ensures FileAt(dir, entries, recursive, p) == None
  {
  }

  lemma NotBelowItself(path: Path, entries: seq<Tree>, recursive: bool)
    ensures FileAt(path, entries, recursive, path) == None
  {
  }

  lemma NotUnder(dir: Path, t: Tree, recursive: bool, p: Path)
    requires !(dir < p && p[|dir|] == t.name)
    ensures p != dir + [t.name] && FileAt(dir + [t.name], t.entries, recursive, p) == None
  {
    if dir + [t.name] <= p {
      Under(dir, t.name, p);
    }
  }

  lemma Under(dir: Path, name: string, p: Path)
    requires dir + [name] <= p
    ensures dir < p && p[|dir|] == name
  {
    var path := dir + [name];
    assert p[|dir|] == path[|dir|] && p[..|dir|] == path[..|dir|] == dir;
  }

  /** `scan_directory`: the first entry or directory that cannot be read ends the scan. */
  method ScanDirectory(dir: Path, readable: bool, entries: seq<Tree>, recursive: bool, files: Files)
    returns (ok: bool, after: Files)
    requires DistinctNames(entries)
    ensures ok <==> Accessible(readable, entries, recursive)
    ensures ok ==> Scanned(files, dir, entries, recursive, after)
    decreases entries
  {
    hide Scanned;
    after := files;
    if !readable {
      return false, after;
    }
    NothingScanned(files, dir, recursive);
    for i := 0 to |entries|
      invariant forall t :: t in entries[..i] ==> Visitable(t, recursive)
      invariant Scanned(files, dir, entries[..i], recursive, after)
    {
      ghost var middle := after;
      var t := entries[i];
      if !t.statable {
        return false, after;
      }
      after := after[dir + [t.name] := t.meta];
      ok := true;
      if recursive && t.meta.isDir {
        ok, after := ScanDirectory(dir + [t.name], t.readable, t.entries, recursive, after);
      }
      if !ok {
        return false, after;
      }
      ScannedSnoc(files, dir, entries[..i], t, recursive, middle, after);
      assert entries[..i + 1] == entries[..i] + [t];
    }
    assert entries[..|entries|] == entries;
    ok := true;
  }

  /** `new`: the snapshot has exactly the entries of the tree, each once and with its metadata. */
  method TakeSnapshot(root: Path, readable: bool, entries: seq<Tree>, recursive: bool) returns (files: Option<Files>)
    requires DistinctNames(entries)
    ensures files.Some? <==> Accessible(readable, entries, recursive)
    ensures files.Some? ==> forall p :: At(files.value, p) == FileAt(root, entries, recursive, p)
  {
    var ok, found := ScanDirectory(root, readable, entries, recursive, map[]);
    files := if ok then Some(found) else None;
  }

  // ---------------------------------------------------------------- comparing

  datatype Kind = Created | Modified | Deleted

  datatype Event = Event(kind: Kind, path: Path, isDir: bool)

  predicate SameContent(a: Meta, b: Meta)
  {
    a.modified == b.modified && a.size == b.size
  }

  /** The event a path gives rise to, if any. */
  function EventFor(old': Files, newer: Files, p: Path): Option<Event>
  {
    if p in newer && p !in old' then Some(Event(Created, p, newer[p].isDir))
    else if p in newer && p in old' && !SameContent(old'[p], newer[p]) then Some(Event(Modified, p, newer[p].isDir))
    else if p in old' && p !in newer then Some(Event(Deleted, p, old'[p].isDir))
    else None
  }

  /** One event for each path in `paths` that has one, in some order, and no other event. */
  ghost predicate Reports(events: seq<Event>, old': Files, newer: Files, paths: set<Path>)
  {
    && (forall i, j :: 0 <= i < j < |events| ==> events[i].path != events[j].path)
    && (forall e :: e in events ==> e.path in paths && EventFor(old', newer, e.path) == Some(e))
    && (forall p :: p in paths && EventFor(old', newer, p).Some? ==> EventFor(old', newer, p).value in events)
  }

  lemma ReportsSnoc(events: seq<Event>, old': Files, newer: Files, paths: set<Path>, p: Path)
    requires Reports(events, old', newer, paths) && p !in paths
    ensures EventFor(old', newer, p).None? ==> Reports(events, old', newer, paths + {p})
    ensures EventFor(old', newer, p).Some? ==>
      Reports(events + [EventFor(old', newer, p).value], old', newer, paths + {p})
  {
    hide EventFor;
    if EventFor(old', newer, p).Some? {
      var e := EventFor(old', newer, p).value;
      EventIsAtItsPath(old', newer, p);
      assert forall x :: x in events + [e] <==> x in events || x == e;
    }
  }

  lemma EventIsAtItsPath(old': Files, newer: Files, p: Path)
    requires EventFor(old', newer, p).Some?
    ensures EventFor(old', newer, p).value.path == p
  {
  }

  /** The first loop has dealt with the newer snapshot's paths except those in `todo`. */
  ghost predicate NewerReported(events: seq<Event>, old': Files, newer: Files, todo: set<Path>)
  {
    todo <= newer.Keys && Reports(events, old', newer, newer.Keys - todo)
  }

  lemma NewerStep(events: seq<Event>, old': Files, newer: Files, todo: set<Path>, p: Path)
    requires NewerReported(events, old', newer, todo) && p in todo
    ensures p !in old' ==> NewerReported(events + [Event(Created, p, newer[p].isDir)], old', newer, todo - {p})
    ensures p in old' && SameContent(old'[p], newer[p]) ==> NewerReported(events, old', newer, todo - {p})
    ensures p in old' && !SameContent(old'[p], newer[p]) ==>
      NewerReported(events + [Event(Modified, p, newer[p].isDir)], old', newer, todo - {p})
  {
    hide Reports, SameContent;
    assert newer.Keys - todo + {p} == newer.Keys - (todo - {p});
    ReportsSnoc(events, old', newer, newer.Keys - todo, p);
  }

  /** The second loop has dealt with the older snapshot's paths except those in `todo`. */
  ghost predicate OlderReported(events: seq<Event>, old': Files, newer: Files, todo: set<Path>)
  {
    todo <= old'.Keys && Reports(events, old', newer, newer.Keys + (old'.Keys - todo))
  }

  lemma OlderStep(events: seq<Event>, old': Files, newer: Files, todo: set<Path>, p: Path)
    requires OlderReported(events, old', newer, todo) && p in todo
    ensures p in newer ==> OlderReported(events, old', newer, todo - {p})
    ensures p !in newer ==> OlderReported(events + [Event(Deleted, p, old'[p].isDir)], old', newer, todo - {p})
  {
    hide Reports, SameContent;
    var paths := newer.Keys + (old'.Keys - todo);
    assert paths + {p} == newer.Keys + (old'.Keys - (todo - {p}));
    if p in newer {
      assert paths + {p} == paths;
    } else {
      ReportsSnoc(events, old', newer, paths, p);
    }
  }

  lemma ReportsStages(events: seq<Event>, old': Files, newer: Files)
    ensures NewerReported([], old', newer, newer.Keys)
    ensures NewerReported(events, old', newer, {}) ==> OlderReported(events, old', newer, old'.Keys)
    ensures OlderReported(events, old', newer, {}) ==> IsDiff(events, old', newer)
  {
    assert newer.Keys - {} == newer.Keys + (old'.Keys - old'.Keys) && old'.Keys - {} == old'.Keys;
  }

  /** `diff`: first the paths of the newer snapshot, then those of the older one, each in any order. */
  method Diff(old': Files, newer: Files) returns (events: seq<Event>)
    ensures IsDiff(events, old', newer)
  {
    hide NewerReported, OlderReported, IsDiff;
    events := [];
    ReportsStages(events, old', newer);
    var todo := newer.Keys;
    while todo != {}
      invariant todo <= newer.Keys && NewerReported(events, old', newer, todo)
      decreases |todo|
    {
      var path :| path in todo;
      NewerStep(events, old', newer, todo, path);
      if path !in old' {
        events := events + [Event(Created, path, newer[path].isDir)];
      } else if old'[path].modified != newer[path].modified || old'[path].size != newer[path].size {
        events := events + [Event(Modified, path, newer[path].isDir)];
      }
      todo := todo - {path};
    }
    ReportsStages(events, old', newer);
    todo := old'.Keys;
    while todo != {}
      invariant todo <= old'.Keys && OlderReported(events, old', newer, todo)
      decreases |todo|
    {
      var path :| path in todo;
      OlderStep(events, old', newer, todo, path);
      if path !in newer {
        events := events + [Event(Deleted, path, old'[path].isDir)];
      }
      todo := todo - {path};
    }
    ReportsStages(events, old', newer);
  }

  ghost predicate IsDiff(events: seq<Event>, old': Files, newer: Files)
  {
    Reports(events, old', newer, newer.Keys + old'.Keys)
  }

  // ---------------------------------------------------------------- replaying

  /** Follows the events: created and modified paths are looked at anew, deleted ones forgotten. */
  function Replay(events: seq<Event>, files: Files, newer: Files): Files
  {
    if events == [] then files
    else
      var e := events[|events| - 1];
      var before := Replay(events[..|events| - 1], files, newer);
      if e.kind == Deleted then before - {e.path}
      else if e.path in newer then before[e.path := newer[e.path]]
      else before
  }

  ghost predicate DistinctPaths(events: seq<Event>)
  {
    forall i, j :: 0 <= i < j < |events| ==> events[i].path != events[j].path
  }

  lemma {:induction false} ReplayUntouched(events: seq<Event>, files: Files, newer: Files, p: Path)
    requires forall e :: e in events ==> e.path != p
    ensures At(Replay(events, files, newer), p) == At(files, p)
  {
    if events != [] {
      var n := |events| - 1;
      assert events[n] in events && forall e :: e in events[..n] ==> e in events;
      ReplayUntouched(events[..n], files, newer, p);
    }
  }

  lemma {:induction false} ReplayTouched(events: seq<Event>, files: Files, newer: Files, k: nat)
    requires DistinctPaths(events) && k < |events|
    requires events[k].kind == Deleted || events[k].path in newer
    ensures At(Replay(events, files, newer), events[k].path) ==
      if events[k].kind == Deleted then None else Some(newer[events[k].path])
  {
    var n := |events| - 1;
    if k < n {
      assert events[..n][k] == events[k];
      ReplayTouched(events[..n], files, newer, k);
    }
  }

  /**
   Replaying the difference of two snapshots on the older one leads to the newer one's paths, with its
   modification time and size everywhere.
  */
  lemma ReplayLeadsToNewer(events: seq<Event>, old': Files, newer: Files)
    requires IsDiff(events, old', newer)
    ensures Replay(events, old', newer).Keys == newer.Keys
    ensures forall p :: p in newer ==> SameContent(Replay(events, old', newer)[p], newer[p])
    ensures Replay(events, old', newer) == newer <==>
      forall p :: p in newer && p in old' && SameContent(old'[p], newer[p]) ==> old'[p].isDir == newer[p].isDir
  {
    hide Replay, SameContent;
    var after := Replay(events, old', newer);
    forall p ensures At(after, p) ==
      if p in newer && p in old' && SameContent(old'[p], newer[p]) then Some(old'[p]) else At(newer, p)
    {
      ReplayAt(events, old', newer, p);
    }
    forall p ensures p in after <==> p in newer {
      assert At(after, p).Some? <==> p in after;
    }
    forall p | p in newer ensures SameContent(after[p], newer[p]) {
      assert At(after, p) == Some(after[p]);
      SameAsItself(newer[p]);
    }
    if after == newer {
      forall p | p in newer && p in old' && SameContent(old'[p], newer[p]) ensures old'[p].isDir == newer[p].isDir {
        assert At(after, p) == Some(old'[p]);
      }
    }
    if forall p :: p in newer && p in old' && SameContent(old'[p], newer[p]) ==> old'[p].isDir == newer[p].isDir {
      forall p | p in newer ensures after[p] == newer[p] {
        assert At(after, p) == Some(after[p]);
        if p in old' && SameContent(old'[p], newer[p]) { SameIsEqual(old'[p], newer[p]); }
      }
    }
  }

  lemma SameAsItself(m: Meta)
    ensures SameContent(m, m)
  {
  }

  lemma SameIsEqual(a: Meta, b: Meta)
    requires SameContent(a, b) && a.isDir == b.isDir
    ensures a == b
  {
  }

  lemma ReplayAt(events: seq<Event>, old': Files, newer: Files, p: Path)
    requires IsDiff(events, old', newer)
    ensures At(Replay(events, old', newer), p) ==
      if p in newer && p in old' && SameContent(old'[p], newer[p]) then Some(old'[p]) else At(newer, p)
  {
    hide Replay;
    if k :| 0 <= k < |events| && events[k].path == p {
      assert events[k] in events;
      ReplayTouched(events, old', newer, k);
    } else {
      ReplayUntouched(events, old', newer, p);
    }
  }

  /** There are no events exactly when the snapshots have the same paths with the same contents. */
  lemma EmptyDiffMeansSame(events: seq<Event>, old': Files, newer: Files)
    requires IsDiff(events, old', newer)
    ensures events == [] <==>
      old'.Keys == newer.Keys && forall p :: p in newer && p in old' ==> SameContent(old'[p], newer[p])
  {
    if events == [] {
      forall p ensures p in old' <==> p in newer {
        assert p in newer.Keys + old'.Keys ==> EventFor(old', newer, p).None?;
      }
    } else {
      assert events[0] in events;
    }
  }

  function Swapped(kind: Kind): Kind
  {
    match kind case Created => Deleted case Deleted => Created case Modified => Modified
  }

  /** Comparing the other way round reports the same paths, with creations and deletions exchanged. */
  lemma SwapExchanges(events: seq<Event>, swapped: seq<Event>, old': Files, newer: Files)
    requires IsDiff(events, old', newer) && IsDiff(swapped, newer, old')
    ensures |swapped| == |events|
    ensures forall e :: e in events ==> exists f :: f in swapped && f.path == e.path && f.kind == Swapped(e.kind)
    ensures forall f :: f in swapped ==> exists e :: e in events && f.path == e.path && f.kind == Swapped(e.kind)
  {
    forall e | e in events ensures exists f :: f in swapped && f.path == e.path && f.kind == Swapped(e.kind) {
      assert EventFor(newer, old', e.path).value in swapped;
    }
    forall f | f in swapped ensures exists e :: e in events && f.path == e.path && f.kind == Swapped(e.kind) {
      assert EventFor(old', newer, f.path).value in events;
    }
    assert PathsOf(events) == PathsOf(swapped);
    PathsCount(events);
    PathsCount(swapped);
  }

  ghost function PathsOf(events: seq<Event>): set<Path>
  {
    set e | e in events :: e.path
  }

  lemma {:induction false} PathsCount(events: seq<Event>)
    requires DistinctPaths(events)
    ensures |PathsOf(events)| == |events|
  {
    if events == [] {
      assert PathsOf(events) == {};
    } else {
      var n := |events| - 1;
      PathsCount(events[..n]);
      assert events == events[..n] + [events[n]];
      assert PathsOf(events) == PathsOf(events[..n]) + {events[n].path};
    }
  }
}
