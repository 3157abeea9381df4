/**
  `CacheCtl` of plumbca/cache.py: the registry from collection name to
  collection instance, with create-if-absent and lookup-or-None.
 */
module Cache {
  import opened Results
  import opened Seqs

  /** A collection instance, known here only by the class and the name it
      was built from. */
  datatype Collection = Collection(ctype: string, name: string)

  /** `ensure_collection` builds the instance with `globals()[ctype](name)`;
      the only collection class among the module's globals is this one. */
  const Constructible: set<string> := {"IncreaseCollection"}

  /** The exception `globals()[ctype](name)` raises for any other `ctype`. */
  datatype Error = NotAClass(ctype: string)

  /** The registry after `ensure_collection(name, ctype)`: an existing entry
      is kept whatever `ctype` says; a new name gets a fresh instance, or the
      call fails and the registry is unchanged. */
  function Ensured(collmap: map<string, Collection>, name: string, ctype: string): (r: Result<map<string, Collection>, Error>)
    ensures r.Err? <==> name !in collmap && ctype !in Constructible
    ensures r.Ok? ==> r.value.Keys == collmap.Keys + {name}
    ensures r.Ok? ==> forall n :: n in collmap ==> r.value[n] == collmap[n]
    ensures r.Ok? && name !in collmap ==> r.value[name] == Collection(ctype, name)
  {
    if name !in collmap then
      if ctype in Constructible then Ok(collmap[name := Collection(ctype, name)])
      else Err(NotAClass(ctype))
    else
      Ok(collmap)
  }

  /** `ensure_collection` called for each name in turn. */
  function EnsureAll(collmap: map<string, Collection>, names: seq<string>, ctype: string): Result<map<string, Collection>, Error>
    decreases |names|
  {
    if names == [] then Ok(collmap)
    else
      match Ensured(collmap, names[0], ctype)
      case Err(e) => Err(e)
      case Ok(next) => EnsureAll(next, names[1..], ctype)
  }

  /** Ensuring any sequence of names, repeats included, registers each
      distinct name once and keeps every instance already registered: five
      names ensured twice each give a registry of five entries. */
  lemma {:induction false} EnsureAllRegistersEachNameOnce(collmap: map<string, Collection>, names: seq<string>, ctype: string)
    requires ctype in Constructible
    ensures EnsureAll(collmap, names, ctype).Ok?
    ensures EnsureAll(collmap, names, ctype).value.Keys == collmap.Keys + Elements(names)
    ensures forall n :: n in collmap ==> EnsureAll(collmap, names, ctype).value[n] == collmap[n]
    decreases |names|
  {
    if names != [] {
      var next := Ensured(collmap, names[0], ctype).value;
      EnsureAllRegistersEachNameOnce(next, names[1..], ctype);
      assert forall n :: n in names <==> n == names[0] || n in names[1..];
    }
  }

  class CacheCtl {
    /** name -> collection instance */
    var collmap: map<string, Collection>

    /** `CacheCtl(try_restore=False)`: an empty registry. */
    constructor ()
      ensures collmap == map[]
    {
      collmap := map[];
    }

    /** `get_collection(name)`: the registered instance, or `None`. */
    method GetCollection(name: string) returns (r: Option<Collection>)
      ensures r.Some? <==> name in collmap
      ensures r.Some? ==> r.value == collmap[name]
    {
      if name !in collmap {
        return None;
      }
      r := Some(collmap[name]);
    }

    /** `ensure_collection(name, ctype)`. */
    method EnsureCollection(name: string, ctype: string) returns (r: Result<(), Error>)
      modifies this
      ensures r.Err? <==> Ensured(old(collmap), name, ctype).Err?
      ensures r.Ok? ==> collmap == Ensured(old(collmap), name, ctype).value
      ensures r.Err? ==> collmap == old(collmap)
    {
      if name !in collmap {
        if ctype !in Constructible {
          return Err(NotAClass(ctype));
        }
        collmap := collmap[name := Collection(ctype, name)];
      }
      r := Ok(());
    }
  }
}
