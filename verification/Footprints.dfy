/** Objects that own disjoint sets of other objects. */
module Footprints {

  /** No two parts share an object, and all of them lie within `whole`. */
  ghost predicate Separate<K(!new)>(parts: map<K, set<object>>, whole: set<object>) {
    && (forall k | k in parts :: parts[k] <= whole)
    && (forall j, k | j in parts && k in parts && j != k :: parts[j] !! parts[k])
  }

  lemma OthersApart<K(!new)>(parts: map<K, set<object>>, whole: set<object>, k: K)
    requires Separate(parts, whole) && k in parts
    ensures parts[k] <= whole && forall j | j in parts && j != k :: parts[j] !! parts[k]
  {
  }

  /** A part may be added, or grow, by objects that are not yet in the whole. */
  lemma GrowPart<K(!new)>(parts: map<K, set<object>>, whole: set<object>, k: K, grown: set<object>)
    requires Separate(parts, whole)
    requires (if k in parts then grown - parts[k] else grown) !! whole
    ensures Separate(parts[k := grown], whole + grown)
  {
    var next := parts[k := grown];
    forall i, j | i in next && j in next && i != j ensures next[i] !! next[j] {
      if i == k {
        assert parts[j] <= whole;
      } else if j == k {
        assert parts[i] <= whole;
      }
    }
  }
}
