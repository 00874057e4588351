/** `registry.py` as one undisturbed process uses it: cached answers are the answers of a fresh walk. */
module Registry {
  import opened Text
  import opened CollectionsDir

  class CollectionRegistry {
    var lib: Library
    var now: nat
    var namesSlot: Option<Entry>
    var tagsSlot: Option<Entry>

    constructor (lib: Library, now: nat)
      requires Sound(lib, now)
      ensures Valid() && this.lib == lib && this.now == now
    {
      this.lib, this.now := lib, now;
      namesSlot, tagsSlot := None, None;
    }

    /** A slot whose key is still current holds what a fresh walk would find; no key is from the future. */
    ghost predicate Valid()
      reads this
    {
      && Sound(lib, now)
      && (namesSlot.Some? ==> namesSlot.value.key <= now
                              && (lib.root == Some(namesSlot.value.key) ==> namesSlot.value.value == lib.dirs))
      && (tagsSlot.Some? ==> tagsSlot.value.key <= now
                             && (IsNewest(lib, tagsSlot.value.key) ==> tagsSlot.value.value == TagsOf(lib)))
    }

    /** `library_collection_names` and its cached inner function. */
    method LibraryCollectionNames() returns (names: set<string>)
      requires Valid()
      modifies this`namesSlot
      ensures Valid() && names == lib.dirs
      ensures lib.root.Some? ==> namesSlot == Some(Entry(lib.root.value, lib.dirs))
    {
      if lib.root.None? { return {}; }
      var key := lib.root.value;
      if namesSlot.Some? && namesSlot.value.key == key { return namesSlot.value.value; }
      names := lib.dirs;
      namesSlot := Some(Entry(key, names));
    }

    /** `library_collection_tags` and its cached inner function. */
    method LibraryCollectionTags() returns (tags: set<string>)
      requires Valid()
      modifies this`tagsSlot
      ensures Valid() && tags == TagsOf(lib)
      ensures lib.root.Some? ==> tagsSlot.Some? && IsNewest(lib, tagsSlot.value.key) && tagsSlot.value.value == tags
    {
      if lib.root.None? {
        assert TagsOf(lib) == {};
        return {};
      }
      var key := AggregateMtime(lib);
      if tagsSlot.Some? && tagsSlot.value.key == key { return tagsSlot.value.value; }
      tags := WalkTags(lib);
      tagsSlot := Some(Entry(key, tags));
    }

    /** Another process edits the directory; the slots stay as they are, and stay truthful. */
    method Change(e: Edit, seconds: nat)
      requires Valid() && CanEdit(lib, e) && seconds > 0 && Noticed(e, now + seconds)
      modifies this`lib, this`now
      ensures Valid() && now == old(now) + seconds && lib == Edited(old(lib), e, now)
    {
      ghost var before, t := now, now + seconds;
      EditIsSound(lib, e, now, t);
      forall k: nat | k <= before ensures !IsNewest(Edited(lib, e, t), k) {
        NoticedIsNewest(lib, e, before, t, k);
      }
      RootIsDated(lib, e, t);
      lib, now := Edited(lib, e, now + seconds), now + seconds;
    }
  }
}
