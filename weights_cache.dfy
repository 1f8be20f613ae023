/** The per-decoder cache of weight vectors, keyed by the path of the
    weights file, so that a file named by several passes is loaded once and
    shared. Loading a file is I/O: its contents are a parameter `load`. */
module WeightsCaching {
  /** A loaded weight vector; its identity stands for the shared pointer. */
  class WeightVector {
    const values: seq<real>

    constructor (values: seq<real>)
      ensures this.values == values
    {
      this.values := values;
    }
  }

  class WeightsCache {
    var cache: map<string, WeightVector>

    /** An empty cache. */
    constructor ()
      ensures cache == map[]
    {
      cache := map[];
    }

    /** The vector stored for `path`; on a miss, a new vector holding the
        file's contents, stored under `path`. Other entries are untouched. */
    method Get(path: string, load: string -> seq<real>) returns (w: WeightVector)
      modifies this
      ensures path in old(cache) ==> w == old(cache)[path] && cache == old(cache)
      ensures path !in old(cache) ==> fresh(w) && w.values == load(path) && cache == old(cache)[path := w]
    {
      if path in cache {
        return cache[path];
      }
      w := new WeightVector(load(path));
      cache := cache[path := w];
    }

    /** After a lookup the path is cached, and a second lookup of the same
        path gives the same vector and leaves the cache as the first left it;
        entries for other paths keep their vectors. */
    method GetTwice(path: string, load: string -> seq<real>) returns (w1: WeightVector, w2: WeightVector)
      modifies this
      ensures w1 == w2 && path in cache && cache[path] == w1
      ensures forall p :: p in old(cache) ==> p in cache && cache[p] == old(cache)[p]
    {
      w1 := Get(path, load);
      w2 := Get(path, load);
    }
  }
}
