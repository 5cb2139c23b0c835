/** The optional value used throughout the model for Ruby's `nil`-or-value. */
module Wrappers {

  datatype Option<+T> = None | Some(value: T) {

    /** Ruby's `a || b` on two possibly-nil values. */
    function OrElse(other: Option<T>): Option<T> {
      if Some? then this else other
    }

    /** The value, or `default` when absent. */
    function GetOr(default: T): T {
      if Some? then value else default
    }
  }

  /**
   * Ruby's `hash[key]` on a hash given as its entries in insertion order:
   * the value of the first entry with that key, if there is one.
   */
  function Find<K(==), V>(entries: seq<(K, V)>, key: K): (r: Option<V>)
    ensures r.Some? <==> exists i :: 0 <= i < |entries| && entries[i].0 == key
    ensures r.Some? ==> exists i :: 0 <= i < |entries| && entries[i] == (key, r.value)
  {
    if |entries| == 0 then None
    else if entries[0].0 == key then Some(entries[0].1)
    else Find(entries[1..], key)
  }
}
