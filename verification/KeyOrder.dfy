/** Byte order as a strict total order, and searching a sorted list by it. */
module KeyOrder {
  import opened Wrappers
  import opened BitStrings
  import opened KeyBits

  lemma Irreflexive(a: Bytes)
    ensures !Less(a, a)
  {
  }

  lemma Transitive(a: Bytes, b: Bytes, c: Bytes)
    requires Less(a, b) && Less(b, c)
    ensures Less(a, c)
  {
  }

  lemma Trichotomy(a: Bytes, b: Bytes)
    ensures a == b || Less(a, b) || Less(b, a)
    ensures Less(a, b) ==> a != b && !Less(b, a)
  {
    LessIsBitLess(a, b);
    LessIsBitLess(b, a);
    LessTotal(ToBits(a), ToBits(b));
    if ToBits(a) == ToBits(b) {
      ToBitsInjective(a, b);
    }
    Irreflexive(a);
    if Less(a, b) && Less(b, a) {
      Transitive(a, b, a);
    }
  }

  ghost predicate Ordered(keys: seq<Bytes>) {
    forall i, j :: 0 <= i < j < |keys| ==> Less(keys[i], keys[j])
  }

  /** Binary search over strictly ascending keys. */
  method Search(keys: seq<Bytes>, key: Bytes) returns (at: Option<nat>)
    requires Ordered(keys)
    ensures at.Some? ==> at.value < |keys| && keys[at.value] == key
    ensures at.None? ==> key !in keys
  {
    hide Less;
    var low, high := 0, |keys|;
    while low < high
      invariant 0 <= low <= high <= |keys|
      invariant forall i :: 0 <= i < low ==> Less(keys[i], key)
      invariant forall i :: high <= i < |keys| ==> Less(key, keys[i])
    {
      var mid := (low + high) / 2;
      if keys[mid] == key {
        return Some(mid);
      }
      Trichotomy(keys[mid], key);
      if Less(keys[mid], key) {
        forall i | low <= i < mid ensures Less(keys[i], key) {
          Transitive(keys[i], keys[mid], key);
        }
        low := mid + 1;
      } else {
        forall i | mid < i < high ensures Less(key, keys[i]) {
          Transitive(key, keys[mid], keys[i]);
        }
        high := mid;
      }
    }
    forall i | 0 <= i < |keys| ensures keys[i] != key {
      Trichotomy(keys[i], key);
      Trichotomy(key, keys[i]);
    }
    return None;
  }
}
