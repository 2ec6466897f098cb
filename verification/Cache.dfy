/** `GetOrLoadCache` as one caller at a time sees it.  Interleavings are in module `SingleFlight`. */
module Cache {
  import opened Common

  class GetOrLoadCache<T> {
    var entries: map<string, T>

    constructor ()
      ensures entries == map[]
    {
      entries := map[];
    }

    method GetCached(key: string) returns (r: Option<T>)
      ensures r == if key in entries then Some(entries[key]) else None
    {
      r := if key in entries then Some(entries[key]) else None;
    }

    /** Serves a cached value, and otherwise calls the loader (`called`) and keeps what it returns unless it fails. */
    method GetOrLoad(key: string, loader: string -> Result<T>) returns (r: Result<T>, called: bool)
      modifies this
      ensures called <==> key !in old(entries)
      ensures !called ==> r == Ok(old(entries)[key]) && entries == old(entries)
      ensures called ==> r == loader(key)
      ensures called ==> entries == if r.Ok? then old(entries)[key := r.value] else old(entries)
    {
      var cached := GetCached(key);
      if cached.Some? {
        return Ok(cached.value), false;
      }
      r := Refresh(key, loader);
      called := true;
    }

    /** Always calls the loader; a failed load leaves the entry as it was. */
    method Refresh(key: string, loader: string -> Result<T>) returns (r: Result<T>)
      modifies this
      ensures r == loader(key)
      ensures entries == if r.Ok? then old(entries)[key := r.value] else old(entries)
    {
      r := loader(key);
      if r.Ok? {
        Set(key, r.value);
      }
    }

    method Set(key: string, value: T)
      modifies this
      ensures entries == old(entries)[key := value]
    {
      entries := entries[key := value];
    }

    /** `evicted` is what the eviction callback gets: nothing if there was no entry. */
    method Evict(key: string) returns (evicted: Option<T>)
      modifies this
      ensures evicted == if key in old(entries) then Some(old(entries)[key]) else None
      ensures entries == old(entries) - {key}
    {
      evicted := GetCached(key);
      entries := entries - {key};
    }
  }
}
