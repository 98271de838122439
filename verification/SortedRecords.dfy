/**
 Sorted maps as sequences of records in strictly ascending key order: insertion
 with and without replacement, and the map such a sequence stands for.
 */
module SortedRecords {
  import opened KeyBits
  import opened KeyOrder

  datatype Rec<V> = Rec(key: Bytes, value: V)

  /** Keys nonempty and strictly ascending. */
  predicate Ascending<V>(es: seq<Rec<V>>) {
    forall i :: 0 <= i < |es| ==> es[i].key != [] && (i > 0 ==> Less(es[i - 1].key, es[i].key))
  }

  /** Adds a record in key order unless its key is there already. */
  function OrInsert<V>(es: seq<Rec<V>>, r: Rec<V>): seq<Rec<V>> {
    if |es| == 0 then [r]
    else if es[0].key == r.key then es
    else if Less(r.key, es[0].key) then [r] + es
    else [es[0]] + OrInsert(es[1..], r)
  }

  function OrInsertAll<V>(es: seq<Rec<V>>, older: seq<Rec<V>>): seq<Rec<V>>
    decreases |older|
  {
    if |older| == 0 then es else OrInsertAll(OrInsert(es, older[0]), older[1..])
  }

  /** Adds a record in key order, replacing one with its key. */
  function Put<V>(es: seq<Rec<V>>, r: Rec<V>): seq<Rec<V>> {
    if |es| == 0 then [r]
    else if es[0].key == r.key then [r] + es[1..]
    else if Less(r.key, es[0].key) then [r] + es
    else [es[0]] + Put(es[1..], r)
  }

  function RecMap<V>(es: seq<Rec<V>>): map<Bytes, V> {
    if |es| == 0 then map[] else RecMap(es[1..])[es[0].key := es[0].value]
  }

  lemma {:induction false} FirstIsLeast<V>(es: seq<Rec<V>>, i: nat)
    requires Ascending(es) && 0 < i < |es|
    ensures Less(es[0].key, es[i].key)
  {
    hide Less;
    if i > 1 {
      FirstIsLeast(es, i - 1);
      Transitive(es[0].key, es[i - 1].key, es[i].key);
    }
  }

  function KeysOf<V>(es: seq<Rec<V>>): (keys: seq<Bytes>)
    ensures |keys| == |es| && forall i :: 0 <= i < |es| ==> keys[i] == es[i].key
  {
    seq(|es|, i requires 0 <= i < |es| => es[i].key)
  }

  lemma {:induction false} KeysOrdered<V>(es: seq<Rec<V>>)
    requires Ascending(es)
    ensures Ordered(KeysOf(es))
  {
    hide Less;
    forall i, j | 0 <= i < j < |es| ensures Less(es[i].key, es[j].key) {
      FirstIsLeast(es[i..], j - i);
    }
  }

  /** Every key of an ascending list is looked up at its own record. */
  lemma {:induction false} RecMapAt<V>(es: seq<Rec<V>>, i: nat)
    requires Ascending(es) && i < |es|
    ensures es[i].key in RecMap(es) && RecMap(es)[es[i].key] == es[i].value
  {
    hide Less;
    if i > 0 {
      RecMapAt(es[1..], i - 1);
      FirstIsLeast(es, i);
      Trichotomy(es[0].key, es[i].key);
    }
  }

  lemma {:induction false} RecMapKey<V>(es: seq<Rec<V>>, key: Bytes) returns (i: nat)
    requires key in RecMap(es)
    ensures i < |es| && es[i].key == key
  {
    if es[0].key == key {
      i := 0;
    } else {
      i := RecMapKey(es[1..], key);
      i := i + 1;
    }
  }

  lemma NotBefore<V>(es: seq<Rec<V>>, key: Bytes)
    requires Ascending(es) && |es| > 0 && Less(key, es[0].key)
    ensures key !in RecMap(es)
  {
    hide Less, Ascending;
    forall i | 0 <= i < |es| ensures Less(key, es[i].key) {
      if i > 0 {
        FirstIsLeast(es, i);
        Transitive(key, es[0].key, es[i].key);
      }
    }
    Irreflexive(key);
    if key in RecMap(es) {
      var i := RecMapKey(es, key);
    }
  }

  lemma AscendingCons<V>(r: Rec<V>, es: seq<Rec<V>>)
    requires Ascending(es) && r.key != [] && (|es| > 0 ==> Less(r.key, es[0].key))
    ensures Ascending([r] + es)
  {
  }

  lemma {:induction false} OrInsertSpec<V>(es: seq<Rec<V>>, r: Rec<V>)
    requires Ascending(es) && r.key != []
    ensures Ascending(OrInsert(es, r)) && |OrInsert(es, r)| > 0
    ensures RecMap(OrInsert(es, r)) == map[r.key := r.value] + RecMap(es)
    ensures OrInsert(es, r)[0].key == r.key || (|es| > 0 && OrInsert(es, r)[0].key == es[0].key)
  {
    hide Less, Ascending;
    if |es| == 0 {
      AscendingCons(r, es);
      assert [r] + es == [r] && [r][1..] == [];
    } else if es[0].key == r.key {
      assert r.key in RecMap(es);
    } else if Less(r.key, es[0].key) {
      AscendingCons(r, es);
      NotBefore(es, r.key);
      assert ([r] + es)[1..] == es;
    } else {
      Trichotomy(r.key, es[0].key);
      AscendingTail(es);
      OrInsertSpec(es[1..], r);
      AscendingCons(es[0], OrInsert(es[1..], r));
      assert ([es[0]] + OrInsert(es[1..], r))[1..] == OrInsert(es[1..], r);
    }
  }

  lemma AscendingTail<V>(es: seq<Rec<V>>)
    requires Ascending(es) && |es| > 0
    ensures Ascending(es[1..]) && es[0].key != [] && (|es| > 1 ==> Less(es[0].key, es[1].key))
  {
  }

  lemma {:induction false} OrInsertAllSpec<V>(es: seq<Rec<V>>, older: seq<Rec<V>>)
    requires Ascending(es) && Ascending(older)
    ensures Ascending(OrInsertAll(es, older)) && (|es| > 0 ==> |OrInsertAll(es, older)| > 0)
    ensures RecMap(OrInsertAll(es, older)) == RecMap(older) + RecMap(es)
    decreases |older|
  {
    hide Less, Ascending;
    if |older| > 0 {
      AscendingTail(older);
      OrInsertSpec(es, older[0]);
      OrInsertAllSpec(OrInsert(es, older[0]), older[1..]);
      FirstNotLater(older);
      Exchange(RecMap(older[1..]), older[0].key, older[0].value, RecMap(es));
    }
  }

  lemma FirstNotLater<V>(es: seq<Rec<V>>)
    requires Ascending(es) && |es| > 0
    ensures es[0].key !in RecMap(es[1..])
  {
    hide Less;
    if |es| > 1 {
      NotBefore(es[1..], es[0].key);
    }
  }

  lemma Exchange<V>(m: map<Bytes, V>, key: Bytes, value: V, n: map<Bytes, V>)
    requires key !in m
    ensures m + (map[key := value] + n) == m[key := value] + n
  {
  }

  lemma {:induction false} PutSpec<V>(es: seq<Rec<V>>, r: Rec<V>)
    requires Ascending(es) && r.key != []
    ensures Ascending(Put(es, r)) && |Put(es, r)| > 0
    ensures RecMap(Put(es, r)) == RecMap(es)[r.key := r.value]
    ensures Put(es, r)[0].key == r.key || (|es| > 0 && Put(es, r)[0].key == es[0].key)
  {
    hide Less, Ascending;
    if |es| == 0 {
      AscendingCons(r, es);
      assert [r] + es == [r] && [r][1..] == [];
    } else if es[0].key == r.key {
      AscendingTail(es);
      AscendingCons(r, es[1..]);
      assert ([r] + es[1..])[1..] == es[1..];
    } else if Less(r.key, es[0].key) {
      AscendingCons(r, es);
      assert ([r] + es)[1..] == es;
    } else {
      Trichotomy(r.key, es[0].key);
      AscendingTail(es);
      PutSpec(es[1..], r);
      AscendingCons(es[0], Put(es[1..], r));
      assert ([es[0]] + Put(es[1..], r))[1..] == Put(es[1..], r);
    }
  }

  /** A sorted sequence is determined by its map. */
  lemma {:induction false} AscendingUnique<V>(a: seq<Rec<V>>, b: seq<Rec<V>>)
    requires Ascending(a) && Ascending(b) && RecMap(a) == RecMap(b)
    ensures a == b
  {
    hide Less, Ascending;
    assert |b| > 0 ==> b[0].key in RecMap(b);
    if |a| > 0 {
      assert a[0].key in RecMap(b);
      AscendingTail(a);
      AscendingTail(b);
      SameHead(a, b);
      FirstNotLater(a);
      FirstNotLater(b);
      assert RecMap(a[1..]) == RecMap(a) - {a[0].key} == RecMap(b) - {b[0].key} == RecMap(b[1..]);
      AscendingUnique(a[1..], b[1..]);
    }
  }

  lemma SameHead<V>(a: seq<Rec<V>>, b: seq<Rec<V>>)
    requires Ascending(a) && Ascending(b) && RecMap(a) == RecMap(b) && |a| > 0 && |b| > 0
    ensures a[0] == b[0]
  {
    hide Less, Ascending;
    RecMapAt(a, 0);
    RecMapAt(b, 0);
    Trichotomy(a[0].key, b[0].key);
    if Less(a[0].key, b[0].key) {
      NotBefore(b, a[0].key);
    }
    if Less(b[0].key, a[0].key) {
      NotBefore(a, b[0].key);
    }
  }
}
