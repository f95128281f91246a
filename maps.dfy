/**
 * Object spreads over string-keyed dictionaries: `{ ...base, ...top }` and
 * `{ ...base, [key]: value }`, and `delete copy[key]`.
 */
module Maps {

  /** `{ ...base, ...top }`: the members of `top` win, every other member of `base` stays. */
  function Overlay<K, V>(base: map<K, V>, top: map<K, V>): (m: map<K, V>)
    ensures m.Keys == base.Keys + top.Keys
    ensures forall k :: k in top ==> m[k] == top[k]
    ensures forall k :: k in base && k !in top ==> m[k] == base[k]
  {
    base + top
  }

  /** A copy of `base` with `key` deleted. */
  function Erase<K, V>(base: map<K, V>, key: K): (m: map<K, V>)
    ensures m.Keys == base.Keys - {key}
    ensures forall k :: k in m ==> m[k] == base[k]
  {
    base - {key}
  }

  /** Overlaying the same members again changes nothing more. */
  lemma OverlayIdempotent<K, V>(base: map<K, V>, top: map<K, V>)
    ensures Overlay(Overlay(base, top), top) == Overlay(base, top)
  {
  }

  /** Overlaying a single member is setting that member. */
  lemma OverlaySingle<K, V>(base: map<K, V>, key: K, value: V)
    ensures Overlay(base, map[key := value]) == base[key := value]
  {
  }

  /** Deleting a member just set is deleting it from what was there before. */
  lemma EraseAfterSet<K, V>(base: map<K, V>, key: K, value: V)
    ensures Erase(base[key := value], key) == Erase(base, key)
  {
  }
}
