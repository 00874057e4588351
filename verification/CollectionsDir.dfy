/** The collections directory of the library, and the edits other processes make to it. */
module CollectionsDir {
  import opened Text

  datatype Config = Config(mtime: nat, tags: set<string>)

  /** `root` is the directory's own mtime, `None` while it does not exist. */
  datatype Library = Library(root: Option<nat>, dirs: set<string>, configs: map<string, Config>)

  /**
   * A save carries the mtime its file got when it was written, which is before the rename that makes it
   * visible. Deleting a config does not touch the collections directory itself.
   */
  datatype Edit =
    | MakeRoot
    | RemoveRoot
    | Create(name: string)
    | Remove(name: string)
    | Rename(name: string, to: string)
    | Save(name: string, tags: set<string>, stamp: nat)
    | DeleteConfig(name: string)

  /** What a one-slot cache holds: a value under the mtime it was looked up by. */
  datatype Entry = Entry(key: nat, value: set<string>)

  predicate CanEdit(lib: Library, e: Edit) {
    match e
    case MakeRoot => lib.root.None?
    case RemoveRoot => lib.root.Some?
    case Create(name) => lib.root.Some? && name !in lib.dirs
    case Remove(name) => name in lib.dirs
    case Rename(name, to) => name in lib.dirs && to !in lib.dirs
    case Save(_, _, _) => true
    case DeleteConfig(name) => name in lib.configs
  }

  /** The directory after an edit made at time `t`. */
  function Edited(lib: Library, e: Edit, t: nat): Library
    requires CanEdit(lib, e)
  {
    match e
    case MakeRoot => Library(Some(t), {}, map[])
    case RemoveRoot => Library(None, {}, map[])
    case Create(name) => lib.(root := Some(t), dirs := lib.dirs + {name})
    case Remove(name) => Library(Some(t), lib.dirs - {name}, lib.configs - {name})
    case Rename(name, to) =>
      Library(Some(t), lib.dirs - {name} + {to},
              if name in lib.configs then (lib.configs - {name})[to := lib.configs[name]] else lib.configs - {name})
    case Save(name, tags, stamp) =>
      Library(if name in lib.dirs then lib.root else Some(t),
              lib.dirs + {name}, lib.configs[name := Config(stamp, tags)])
    case DeleteConfig(name) => lib.(configs := lib.configs - {name})
  }

  /** Configs live in listed directories, and nothing is dated after `now`. */
  ghost predicate Sound(lib: Library, now: nat) {
    && lib.configs.Keys <= lib.dirs
    && (lib.root.None? ==> lib.dirs == {})
    && (lib.root.Some? ==> lib.root.value <= now)
    && forall name :: name in lib.configs ==> lib.configs[name].mtime <= now
  }

  lemma EditIsSound(lib: Library, e: Edit, now: nat, t: nat)
    requires Sound(lib, now) && CanEdit(lib, e) && now < t && (e.Save? ==> e.stamp <= t)
    ensures Sound(Edited(lib, e, t), t)
  {
  }

  /** An edit dates the directory anew, removes it, or leaves its names alone. */
  lemma RootIsDated(lib: Library, e: Edit, t: nat)
    requires CanEdit(lib, e)
    ensures var lib' := Edited(lib, e, t);
            lib'.root == Some(t) || lib'.root.None? || (lib'.root == lib.root && lib'.dirs == lib.dirs)
  {
    if e.Save? && e.name in lib.dirs { assert lib.dirs + {e.name} == lib.dirs; }
  }

  /** What a fresh walk over the configs collects. */
  function TagsOf(lib: Library): set<string> {
    set name, tag | name in lib.configs && tag in lib.configs[name].tags :: tag
  }

  /** `k` is the newest mtime of the directory and its configs. */
  ghost predicate IsNewest(lib: Library, k: nat) {
    && lib.root.Some? && lib.root.value <= k
    && (forall name :: name in lib.configs ==> lib.configs[name].mtime <= k)
    && (lib.root.value == k || exists name :: name in lib.configs && lib.configs[name].mtime == k)
  }

  /** An edit whose time becomes the newest mtime: every edit except a deletion or a late rename of a save. */
  predicate Noticed(e: Edit, t: nat) {
    !e.DeleteConfig? && (e.Save? ==> e.stamp == t)
  }

  lemma NoticedIsNewest(lib: Library, e: Edit, now: nat, t: nat, k: nat)
    requires Sound(lib, now) && CanEdit(lib, e) && now < t && Noticed(e, t)
    ensures IsNewest(Edited(lib, e, t), k) ==> k == t
  {
    var lib' := Edited(lib, e, t);
    EditIsSound(lib, e, now, t);
    if e.Save? { assert e.name in lib'.configs && lib'.configs[e.name].mtime == t; }
  }

  /** `_aggregate_mtime_ns`, undisturbed: the loop over the directory's entries; 0 for a directory that has vanished. */
  method AggregateMtime(lib: Library) returns (maxNs: nat)
    requires lib.configs.Keys <= lib.dirs
    ensures if lib.root.Some? then IsNewest(lib, maxNs) else maxNs == 0
  {
    if lib.root.None? { return 0; }
    maxNs := lib.root.value;
    var entries := lib.dirs;
    while entries != {}
      invariant lib.root.value <= maxNs && entries <= lib.dirs
      invariant forall name :: name in lib.configs ==> name in entries || lib.configs[name].mtime <= maxNs
      invariant lib.root.value == maxNs || exists name :: name in lib.configs && lib.configs[name].mtime == maxNs
    {
      var entry :| entry in entries;
      entries := entries - {entry};
      if entry in lib.configs && lib.configs[entry].mtime > maxNs {
        maxNs := lib.configs[entry].mtime;
      }
    }
  }

  /** The walk on a cache miss: the union of the configs' tags, one record after another. */
  method WalkTags(lib: Library) returns (tags: set<string>)
    requires lib.configs.Keys <= lib.dirs
    ensures tags == TagsOf(lib)
  {
    tags := {};
    var entries := lib.dirs;
    while entries != {}
      invariant entries <= lib.dirs
      invariant forall tag :: tag in tags ==> tag in TagsOf(lib)
      invariant forall name :: name in lib.configs && name !in entries ==> lib.configs[name].tags <= tags
    {
      var entry :| entry in entries;
      entries := entries - {entry};
      if entry in lib.configs {
        tags := tags + lib.configs[entry].tags;
      }
    }
  }
}
