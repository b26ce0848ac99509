/** The kernelspec cache and its watcher's handlers as objects over the manager they ask. */
module SpecCacheObject {
  import opened Collections
  import opened SpecCache

  /** The manager, reading the disk: names there are in lower case. */
  class KernelSpecManager {
    var disk: map<Name, Spec>

    ghost predicate Valid()
      reads this
    {
      forall n :: n in disk ==> Lower(n) == n
    }

    constructor (disk: map<Name, Spec>)
      requires forall n :: n in disk ==> Lower(n) == n
      ensures Valid() && this.disk == disk
    {
      this.disk := disk;
    }

    method GetKernelSpec(name: Name) returns (spec: Option<Spec>)
      ensures spec == Uncached(disk, name)
    {
      var lower := Lower(name);
      if lower in disk {
        return Some(disk[lower]);
      }
      spec := None;
    }
  }

  class KernelSpecCache {
    const cacheEnabled: bool
    const manager: KernelSpecManager
    var cacheItems: map<Name, Spec>
    var observedDirs: set<string>
    var cacheMisses: nat

    function Current(): Cache
      reads this
    {
      Cache(cacheItems, observedDirs)
    }

    /** Seeds the cache from the disk, then watches those of the manager's directories that exist. */
    constructor (cacheEnabled: bool, manager: KernelSpecManager, kernelDirs: seq<string>, existing: set<string>)
      requires manager.Valid()
      ensures this.cacheEnabled == cacheEnabled && this.manager == manager
      ensures Current() == if cacheEnabled
                           then Seeded(manager.disk, Elements(kernelDirs) * existing).cache
                           else Cache(map[], {})
    {
      this.cacheEnabled := cacheEnabled;
      this.manager := manager;
      this.cacheItems := map[];
      this.observedDirs := {};
      this.cacheMisses := 0;
      new;
      if cacheEnabled {
        PutAllItems(manager.disk);
        var i := 0;
        while i < |kernelDirs|
          invariant 0 <= i <= |kernelDirs|
          invariant cacheItems == manager.disk
          invariant observedDirs == Dirs(manager.disk) + Elements(kernelDirs[..i]) * existing
        {
          if kernelDirs[i] !in observedDirs && kernelDirs[i] in existing {
            observedDirs := observedDirs + {kernelDirs[i]};
          }
          ElementsAppend(kernelDirs[..i], kernelDirs[i]);
          assert kernelDirs[..i + 1] == kernelDirs[..i] + [kernelDirs[i]];
          i := i + 1;
        }
        assert kernelDirs[..i] == kernelDirs;
      }
    }

    /** `vanished` is the file-not-found error of converting a cached item, treated as a miss. */
    method GetItem(name: Name, vanished: bool) returns (spec: Option<Spec>)
      modifies this`cacheMisses
      ensures spec == if cacheEnabled && Lower(name) in cacheItems && !vanished
                      then Some(cacheItems[Lower(name)]) else None
      ensures cacheMisses == old(cacheMisses) + if cacheEnabled && spec.None? then 1 else 0
    {
      spec := None;
      if cacheEnabled {
        if Lower(name) in cacheItems && !vanished {
          spec := Some(cacheItems[Lower(name)]);
        }
        if spec.None? {
          cacheMisses := cacheMisses + 1;
        }
      }
    }

    method GetAllItems() returns (items: map<Name, Spec>)
      modifies this`cacheMisses
      ensures items == if cacheEnabled then cacheItems else map[]
      ensures cacheMisses == old(cacheMisses) + if cacheEnabled && items == map[] then 1 else 0
    {
      items := map[];
      if cacheEnabled {
        items := cacheItems;
        if items == map[] {
          cacheMisses := cacheMisses + 1;
        }
      }
    }

    method PutItem(name: Name, spec: Spec)
      modifies this`cacheItems, this`observedDirs
      ensures Current() == if cacheEnabled then Put(old(Current()), name, spec) else old(Current())
    {
      if cacheEnabled {
        cacheItems := cacheItems[Lower(name) := spec];
        if spec.dir !in observedDirs {
          observedDirs := observedDirs + {spec.dir};
        } else {
          assert observedDirs == observedDirs + {spec.dir};
        }
      }
    }

    method PutAllItems(specs: map<Name, Spec>)
      requires forall n :: n in specs ==> Lower(n) == n
      modifies this`cacheItems, this`observedDirs
      ensures Current() == if cacheEnabled then PutAll(old(Current()), specs) else old(Current())
    {
      var names := Enumerate(specs.Keys);
      ghost var c := Current();
      ChosenEnds(c, specs, names);
      for i := 0 to |names|
        invariant Current() == if cacheEnabled then PutAll(c, ChosenTo(specs, names, i)) else c
      {
        PutOneMore(c, specs, names, i);
        PutItem(names[i], specs[names[i]]);
      }
    }

    /** The specs of the first `i` names. */
    static ghost function ChosenTo(specs: map<Name, Spec>, names: seq<Name>, i: nat): map<Name, Spec>
      requires i <= |names|
    {
      Chosen(specs, Elements(names[..i]))
    }

    static lemma PutOneMore(c: Cache, specs: map<Name, Spec>, names: seq<Name>, i: nat)
      requires i < |names| && Elements(names) == specs.Keys
      requires forall n :: n in specs ==> Lower(n) == n
      ensures names[i] in specs
      ensures PutAll(c, ChosenTo(specs, names, i + 1))
           == Put(PutAll(c, ChosenTo(specs, names, i)), names[i], specs[names[i]])
    {
      assert names[i] in Elements(names);
      ChosenStep(c, specs, Elements(names[..i]), names[i]);
      ElementsAppend(names[..i], names[i]);
      assert names[..i + 1] == names[..i] + [names[i]];
    }

    static function Chosen(specs: map<Name, Spec>, names: set<Name>): map<Name, Spec> {
      map n | n in specs && n in names :: specs[n]
    }

    static lemma ChosenEnds(c: Cache, specs: map<Name, Spec>, names: seq<Name>)
      requires Elements(names) == specs.Keys
      ensures PutAll(c, ChosenTo(specs, names, 0)) == c
      ensures ChosenTo(specs, names, |names|) == specs
    {
      assert names[..0] == [] && names[..|names|] == names;
      assert Chosen(specs, {}) == map[];
    }

    static lemma ChosenStep(c: Cache, specs: map<Name, Spec>, names: set<Name>, n: Name)
      requires n in specs && Lower(n) == n
      ensures PutAll(c, Chosen(specs, names + {n})) == Put(PutAll(c, Chosen(specs, names)), n, specs[n])
    {
      var before, after := Chosen(specs, names), Chosen(specs, names + {n});
      assert after == before[n := specs[n]];
      MergeThenUpdate(c.items, before, n, specs[n]);
      assert Dirs(after) == Dirs(before) + {specs[n].dir} by {
        forall d | d in Dirs(before)
          ensures d in Dirs(after)
        {
          var m :| m in before && before[m].dir == d;
          assert after[m].dir == d;
        }
        assert after[n].dir in Dirs(after);
      }
      UnionAssociative(c.observed, Dirs(before), {specs[n].dir});
    }

    method RemoveItem(name: Name) returns (item: Option<Spec>)
      modifies this`cacheItems
      ensures Current() == if cacheEnabled then Remove(old(Current()), name) else old(Current())
      ensures item == if cacheEnabled && Lower(name) in old(cacheItems)
                      then Some(old(cacheItems)[Lower(name)]) else None
    {
      item := None;
      if cacheEnabled && Lower(name) in cacheItems {
        item := Some(cacheItems[Lower(name)]);
        cacheItems := cacheItems - {Lower(name)};
      } else if cacheEnabled {
        assert cacheItems == cacheItems - {Lower(name)};
      }
    }

    /** `None` is the manager's no-such-kernel error. */
    method GetKernelSpec(name: Name, vanished: bool) returns (spec: Option<Spec>)
      modifies this
      ensures spec == if cacheEnabled then Found(old(Current()), manager.disk, name, vanished)
                      else Uncached(manager.disk, name)
      ensures Current() == if cacheEnabled then Looked(old(Current()), manager.disk, name, vanished) else old(Current())
    {
      spec := GetItem(name, vanished);
      if spec.None? {
        spec := manager.GetKernelSpec(name);
        if spec.Some? {
          PutItem(name, spec.value);
        }
      }
    }

    method GetAllSpecs() returns (specs: map<Name, Spec>)
      requires manager.Valid()
      modifies this
      ensures specs == if cacheEnabled then FoundAll(old(Current()), manager.disk) else manager.disk
      ensures Current() == if cacheEnabled then LookedAll(old(Current()), manager.disk) else old(Current())
    {
      specs := GetAllItems();
      if specs == map[] {
        specs := manager.disk;
        if specs != map[] {
          PutAllItems(specs);
        } else {
          assert PutAll(Current(), map[]) == Current();
        }
      }
    }
  }

  /** The handlers the watcher thread runs for events on `kernel.json` files. */
  class KernelSpecChangeHandler {
    const cache: KernelSpecCache

    constructor (cache: KernelSpecCache)
      ensures this.cache == cache
    {
      this.cache := cache;
    }

    /** `raised` is the error of moving an item that is not cached; other errors are logged and dropped. */
    method Dispatch(e: Event) returns (raised: bool)
      requires cache.cacheEnabled
      modifies cache
      ensures cache.Current() == Handled(old(cache.Current()), cache.manager.disk, e)
      ensures raised <==> e.Moved? && Lower(e.name) !in old(cache.cacheItems)
    {
      raised := false;
      match e
      case Created(name) => Refetch(name);
      case Modified(name) => Refetch(name);
      case Deleted(name) =>
        var _ := cache.RemoveItem(name);
      case Moved(name, to) =>
        var item := cache.RemoveItem(name);
        match item
        case None =>
          raised := true;
          assert old(cache.cacheItems) - {Lower(name)} == old(cache.cacheItems);
        case Some(spec) => cache.PutItem(to, spec);
    }

    /** Created and modified alike: ask the manager for the spec as it is now, and put it if there is one. */
    method Refetch(name: Name)
      requires cache.cacheEnabled
      modifies cache
      ensures cache.Current() == Handled(old(cache.Current()), cache.manager.disk, Modified(name))
    {
      var spec := cache.manager.GetKernelSpec(name);
      if spec.Some? {
        cache.PutItem(name, spec.value);
      }
    }
  }
}
