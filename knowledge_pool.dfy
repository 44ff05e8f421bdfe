/** app/services/knowledge_pool.py: a mutable key-value store shared by the pipeline stages. */
module KnowledgePool {

  /** `pool.get(key, default)` on a dictionary. */
  function Lookup<V>(pool: map<string, V>, key: string, default: V): V {
    if key in pool then pool[key] else default
  }

  class Pool<V> {
    var pool: map<string, V>

    /** `KnowledgePool()`: an empty pool. */
    constructor ()
      ensures pool == map[]
    {
      pool := map[];
    }

    /** `add(key, value)`: binds key to value, replacing any earlier binding; other keys are untouched. */
    method Add(key: string, value: V)
      modifies this
      ensures pool == old(pool)[key := value]
      ensures forall k :: k in old(pool) && k != key ==> k in pool && pool[k] == old(pool)[k]
    {
      pool := pool[key := value];
    }

    /** `get(key, default)`: the bound value, or the default for a key never added. */
    method Get(key: string, default: V) returns (r: V)
      ensures key in pool ==> r == pool[key]
      ensures key !in pool ==> r == default
    {
      r := Lookup(pool, key, default);
    }
  }

  /** A get right after an add of the same key sees the added value; other keys see what they saw before. */
  lemma GetAfterAdd<V>(pool: map<string, V>, key: string, value: V, other: string, default: V)
    ensures Lookup(pool[key := value], key, default) == value
    ensures other != key ==> Lookup(pool[key := value], other, default) == Lookup(pool, other, default)
  {
  }
}
