/**
 * An insertion-ordered map from names to working-unit values, the model of
 * java.util.LinkedHashMap<String, BigDecimal> as the splitter uses it: a
 * sequence of distinct keys in insertion order beside a map from key to value.
 * Putting a new key appends it; putting an existing key keeps its position.
 */
module LinkedMaps {
  /** No element of s occurs twice. */
  predicate Distinct<T(==)>(s: seq<T>) {
    forall i, j :: 0 <= i < j < |s| ==> s[i] != s[j]
  }

  /** The value of an insertion-ordered map: its keys in order and its entries. */
  datatype OrderedMap = OrderedMap(keys: seq<string>, vals: map<string, int>) {
    /** Each key once, and exactly the keys of the entries. */
    ghost predicate Valid() {
      Distinct(keys) && forall k :: k in vals <==> k in keys
    }
  }

  const Empty: OrderedMap := OrderedMap([], map[])

  class LinkedMap {
    var keys: seq<string>
    var vals: map<string, int>

    ghost predicate Valid()
      reads this
    {
      Value().Valid()
    }

    /** The map's contents as a value. */
    function Value(): (m: OrderedMap)
      reads this
      ensures m.keys == keys && m.vals == vals
    {
      OrderedMap(keys, vals)
    }

    /** new LinkedHashMap<>() */
    constructor ()
      ensures Valid() && Value() == Empty
    {
      keys := [];
      vals := map[];
    }

    /** containsKey(k) */
    function ContainsKey(k: string): (b: bool)
      reads this
      requires Valid()
      ensures b <==> k in keys
    {
      k in vals
    }

    /**
     * put(k, v): the entry for k becomes v; a new key goes to the end of the
     * order, an existing key keeps its place.
     */
    method Put(k: string, v: int)
      requires Valid()
      modifies this
      ensures Valid()
      ensures keys == if k in old(keys) then old(keys) else old(keys) + [k]
      ensures vals == old(vals)[k := v]
    {
      if k !in vals {
        keys := keys + [k];
      }
      vals := vals[k := v];
    }
  }
}
