/** The hash table of lib/hash.c and its iterator. A slot's llist is a sequence;
    the hash function is any function into the slots, and keys compare equal
    exactly when they are equal. */
module HashTable {
  import opened CText

  datatype Element<K, V> = Element(key: K, ptr: V)

  /** The first element of a list with this key. */
  function Lookup<K(==), V>(list: seq<Element<K, V>>, key: K): (found: Option<V>)
    ensures found.None? <==> forall i :: 0 <= i < |list| ==> list[i].key != key
  {
    if list == [] then None
    else if list[0].key == key then Some(list[0].ptr)
    else Lookup(list[1..], key)
  }

  ghost predicate Has<T>(s: seq<T>, x: T) {
    exists i :: 0 <= i < |s| && s[i] == x
  }

  ghost predicate DistinctKeys<K, V>(list: seq<Element<K, V>>) {
    forall i, j :: 0 <= i < j < |list| ==> list[i].key != list[j].key
  }

  /** All elements in slot order, which is the order of iteration. */
  function Flat<K, V>(lists: seq<seq<Element<K, V>>>): seq<Element<K, V>> {
    if lists == [] then [] else lists[0] + Flat(lists[1..])
  }

  function Without<T>(s: seq<T>, i: nat): seq<T>
    requires i < |s|
  {
    s[..i] + s[i + 1..]
  }

  /** The list after its first element with this key, if any, is taken out. */
  function Pruned<K(==), V>(list: seq<Element<K, V>>, key: K): (rest: seq<Element<K, V>>) {
    if list == [] then []
    else if list[0].key == key then list[1..]
    else [list[0]] + Pruned(list[1..], key)
  }

  function AddedTo<K(==), V>(list: seq<Element<K, V>>, key: K, ptr: V, memory: bool): seq<Element<K, V>> {
    if memory then Pruned(list, key) + [Element(key, ptr)] else Pruned(list, key)
  }

  class CurlHash<K(!new, ==), V> {
    const slots: nat
    const hash: K -> nat
    const table: array<seq<Element<K, V>>>
    var size: int
    /** The finite map the table stands for. */
    ghost var contents: map<K, V>
    /** The values handed to the destructor, in order. */
    ghost var destroyed: seq<V>

    ghost predicate Valid()
      reads this, table
    {
      && slots > 0 && table.Length == slots
      && (forall k :: hash(k) < slots)
      && (forall i :: 0 <= i < slots ==> SlotOk(i))
      && (forall k :: MapsLike(k))
      && size == |contents|
    }

    /** Keys are unique, and each lives in the slot its hash names. */
    ghost predicate SlotOk(i: int)
      requires 0 <= i < table.Length
      reads table
    {
      && DistinctKeys(table[i])
      && forall j :: 0 <= j < |table[i]| ==> hash(table[i][j].key) == i
    }

    ghost predicate MapsLike(k: K)
      requires hash(k) < table.Length
      reads this, table
    {
      Lookup(table[hash(k)], k) == if k in contents then Some(contents[k]) else None
    }

    constructor (slots: nat, hash: K -> nat)
      requires slots > 0 && forall k :: hash(k) < slots
      ensures Valid() && contents == map[] && destroyed == [] && fresh(table)
      ensures this.slots == slots && this.hash == hash
    {
      this.slots, this.hash, this.size := slots, hash, 0;
      this.table := new seq<Element<K, V>>[slots](_ => []);
      this.contents, this.destroyed := map[], [];
    }

    /** The index of the key in its list, found from the head. */
    method Seek(key: K) returns (i: nat)
      requires Valid()
      ensures i <= |table[hash(key)]|
      ensures key in contents ==> i < |table[hash(key)]| && table[hash(key)][i] == Element(key, contents[key])
      ensures key !in contents ==> i == |table[hash(key)]|
      ensures Pruned(table[hash(key)], key) == if key in contents then Without(table[hash(key)], i) else table[hash(key)]
    {
      var list := table[hash(key)];
      i := 0;
      assert MapsLike(key);
      while i < |list| && list[i].key != key
        invariant 0 <= i <= |list|
        invariant Lookup(list, key) == Lookup(list[i..], key)
        invariant forall j :: 0 <= j < i ==> list[j].key != key
      {
        assert list[i..][1..] == list[i + 1..];
        i := i + 1;
      }
      PrunedAt(list, key, i);
    }

    /** Takes the matching element out of its list and destroys its value. */
    method Take(key: K, i: nat)
      requires Valid() && key in contents
      requires i < |table[hash(key)]| && table[hash(key)][i] == Element(key, contents[key])
      modifies this, table
      ensures Valid() && contents == old(contents) - {key}
      ensures table[..] == old(table[..])[hash(key) := Without(old(table[hash(key)]), i)]
      ensures destroyed == old(destroyed) + [old(contents[key])]
    {
      var h := hash(key);
      assert SlotOk(h);
      destroyed := destroyed + [table[h][i].ptr];
      forall k | k != key && hash(k) == h
        ensures Lookup(Without(table[h], i), k) == Lookup(table[h], k)
      {
        LookupWithout(table[h], i, k);
      }
      ghost var was := table[h];
      table[h] := Without(table[h], i);
      contents := contents - {key};
      size := size - 1;
      KeyGone(was, i);
      forall k ensures MapsLike(k) {
        assert old(MapsLike(k));
      }
      forall s | 0 <= s < slots ensures SlotOk(s) {
        assert old(SlotOk(s));
      }
    }

    /** Curl_hash_add(): an existing match is destroyed first, so when memory runs
        out (`memory` is false) the key is gone. */
    method Add(key: K, ptr: V, memory: bool) returns (added: bool)
      requires Valid()
      modifies this, table
      ensures Valid() && added == memory
      ensures contents == if memory then old(contents)[key := ptr] else old(contents) - {key}
      ensures destroyed == old(destroyed) + (if key in old(contents) then [old(contents)[key]] else [])
      ensures table[..] == old(table[..])[hash(key) := AddedTo(old(table[hash(key)]), key, ptr, memory)]
    {
      var i := Seek(key);
      if i < |table[hash(key)]| {
        Take(key, i);
      }
      assert table[..] == old(table[..])[hash(key) := Pruned(old(table[hash(key)]), key)];
      if memory {
        Append(key, ptr);
      }
      added := memory;
    }

    method Append(key: K, ptr: V)
      requires Valid() && key !in contents
      modifies this, table
      ensures Valid() && contents == old(contents)[key := ptr] && destroyed == old(destroyed)
      ensures table[..] == old(table[..])[hash(key) := old(table[hash(key)]) + [Element(key, ptr)]]
    {
      var h := hash(key);
      assert MapsLike(key) && SlotOk(h);
      ghost var was := table[h];
      table[h] := table[h] + [Element(key, ptr)];
      contents := contents[key := ptr];
      size := size + 1;
      forall k ensures MapsLike(k) {
        assert old(MapsLike(k));
        LookupAppended(was, Element(key, ptr), k);
      }
      forall s | 0 <= s < slots ensures SlotOk(s) {
        assert old(SlotOk(s));
      }
    }

    /** Curl_hash_delete(): non-zero when there is no such key. */
    method Delete(key: K) returns (rc: int)
      requires Valid()
      modifies this, table
      ensures Valid() && contents == old(contents) - {key}
      ensures rc == if key in old(contents) then 0 else 1
      ensures destroyed == old(destroyed) + (if key in old(contents) then [old(contents)[key]] else [])
      ensures table[..] == old(table[..])[hash(key) := Pruned(old(table[hash(key)]), key)]
    {
      var i := Seek(key);
      if i < |table[hash(key)]| {
        Take(key, i);
        return 0;
      }
      rc := 1;
    }

    /** Curl_hash_pick() */
    method Pick(key: K) returns (ptr: Option<V>)
      requires Valid()
      ensures ptr == if key in contents then Some(contents[key]) else None
    {
      var i := Seek(key);
      if i < |table[hash(key)]| {
        return Some(table[hash(key)][i].ptr);
      }
      ptr := None;
    }

    /** Since there were `count` mappings and these destroyed values, one value
        was destroyed for each mapping that went, and the callback chose it. */
    ghost predicate Destroyed(before: seq<V>, comp: V -> bool, count: nat)
      reads this
    {
      && before <= destroyed && |destroyed| - |before| == count - |contents|
      && forall i :: |before| <= i < |destroyed| ==> comp(destroyed[i])
    }

    /** Curl_hash_clean_with_criterium(): exactly the values the callback chooses
        go. */
    method CleanWithCriterium(comp: V -> bool)
      requires Valid()
      modifies this, table
      ensures Valid()
      ensures contents == map k | k in old(contents) && !comp(old(contents)[k]) :: old(contents)[k]
      ensures Destroyed(old(destroyed), comp, |old(contents)|)
    {
      ghost var before := contents;
      var i := 0;
      while i < slots
        invariant 0 <= i <= slots && Valid()
        invariant forall k :: k in contents ==> k in before && contents[k] == before[k]
        invariant forall k :: k in before && k !in contents ==> comp(before[k])
        invariant forall k :: k in contents && hash(k) < i ==> !comp(contents[k])
        invariant Destroyed(old(destroyed), comp, |before|)
      {
        CleanSlot(i, comp);
        i := i + 1;
      }
    }

    /** One list of the clean-up. */
    method CleanSlot(i: nat, comp: V -> bool)
      requires Valid() && i < slots
      modifies this, table
      ensures Valid()
      ensures forall k :: k in contents <==> k in old(contents) && !(hash(k) == i && comp(old(contents)[k]))
      ensures forall k :: k in contents ==> contents[k] == old(contents)[k]
      ensures Destroyed(old(destroyed), comp, |old(contents)|)
    {
      var j := 0;
      while j < |table[i]|
        invariant Valid() && 0 <= j <= |table[i]|
        invariant forall k :: k in contents ==> k in old(contents) && contents[k] == old(contents)[k]
        invariant forall k :: k in old(contents) && k !in contents ==> hash(k) == i && comp(old(contents)[k])
        invariant forall m :: 0 <= m < j ==> !comp(table[i][m].ptr)
        invariant Destroyed(old(destroyed), comp, |old(contents)|)
        decreases |table[i]| - j
      {
        var he := table[i][j];
        InSlot(i, j);
        if comp(he.ptr) {
          Take(he.key, j);
        } else {
          j := j + 1;
        }
      }
      forall k | k in contents && hash(k) == i
        ensures !comp(contents[k])
      {
        var m := PositionOf(k);
      }
    }

    /** What stands in a slot is what the map says. */
    lemma InSlot(i: nat, j: nat)
      requires Valid() && i < slots && j < |table[i]|
      ensures var e := table[i][j]; hash(e.key) == i && e.key in contents && contents[e.key] == e.ptr
    {
      assert SlotOk(i);
      LookupUnique(table[i], j);
      assert MapsLike(table[i][j].key);
    }

    lemma PositionOf(k: K) returns (j: nat)
      requires Valid() && k in contents
      ensures j < |table[hash(k)]| && table[hash(k)][j] == Element(k, contents[k])
    {
      assert MapsLike(k);
      j := LookupPosition(table[hash(k)], k);
    }

    /** Iterating in slot order meets every mapping, each exactly once. */
    lemma FlatIsContents()
      requires Valid()
      ensures var all := Flat(table[..]); DistinctKeys(all) && |all| == size
      ensures var all := Flat(table[..]);
              && (forall i :: 0 <= i < |all| ==> all[i].key in contents && contents[all[i].key] == all[i].ptr)
              && forall k :: k in contents ==> Has(all, Element(k, contents[k]))
    {
      var lists := table[..];
      var all := Flat(lists);
      forall i | 0 <= i < |all| ensures all[i].key in contents && contents[all[i].key] == all[i].ptr {
        var s, j := FlatPosition(lists, i);
        InSlot(s, j);
      }
      forall k | k in contents ensures Has(all, Element(k, contents[k])) {
        var j := PositionOf(k);
        FlatHas(lists, hash(k), j);
      }
      forall s | 0 <= s < |lists| ensures Homed(lists[s], hash, s) {
        assert SlotOk(s);
      }
      FlatDistinct(lists, hash, 0);
      var keys := set i | 0 <= i < |all| :: all[i].key;
      assert keys == contents.Keys by {
        forall k | k in contents ensures k in keys {
          var i :| 0 <= i < |all| && all[i] == Element(k, contents[k]);
        }
      }
      KeyCount(all, keys);
    }
  }

  /** struct curl_hash_iterator. The current element is a slot and a position in
      its list. */
  class HashIterator<K(!new, ==), V> {
    const hash: CurlHash<K, V>
    var slotIndex: nat
    var current: Option<(nat, nat)>

    /** The table has not shrunk under the iterator. */
    ghost predicate Valid()
      reads this, hash, hash.table
    {
      && slotIndex <= hash.table.Length == hash.slots
      && (current.Some? ==> current.value.0 < slotIndex && current.value.1 < |hash.table[current.value.0]|)
      && (current.Some? ==> current.value.0 + 1 == slotIndex)
    }

    /** The elements still to come. */
    ghost function Rest(): seq<Element<K, V>>
      requires Valid()
      reads this, hash, hash.table
    {
      (if current.Some? then hash.table[current.value.0][current.value.1 + 1..] else []) +
      Flat(hash.table[slotIndex..])
    }

    /** Curl_hash_start_iterate() */
    constructor (hash: CurlHash<K, V>)
      requires hash.Valid()
      ensures this.hash == hash && Valid() && Rest() == Flat(hash.table[..])
    {
      this.hash, this.slotIndex, this.current := hash, 0, None;
      new;
      assert hash.table[0..] == hash.table[..];
    }

    /** Curl_hash_next_element() */
    method Next() returns (he: Option<Element<K, V>>)
      requires Valid()
      modifies this
      ensures Valid()
      ensures old(Rest()) == [] ==> he.None? && Rest() == []
      ensures old(Rest()) != [] ==> he == Some(old(Rest())[0]) && Rest() == old(Rest())[1..]
    {
      ghost var rest := Rest();
      if current.Some? {
        var (s, p) := current.value;
        current := if p + 1 < |hash.table[s]| then Some((s, p + 1)) else None;
      }
      if current.None? {
        FindList(rest);
      }
      if current.Some? {
        return Some(hash.table[current.value.0][current.value.1]);
      }
      he := None;
    }

    /** The first element of the next list that has one. */
    method FindList(ghost rest: seq<Element<K, V>>)
      requires Valid() && current.None? && rest == Flat(hash.table[slotIndex..])
      modifies this
      ensures Valid()
      ensures current.None? ==> rest == [] && Rest() == []
      ensures current.Some? ==> rest == [hash.table[current.value.0][current.value.1]] + Rest()
    {
      var i := slotIndex;
      while i < hash.slots
        invariant slotIndex == old(slotIndex) <= i <= hash.slots && current.None?
        invariant rest == Flat(hash.table[i..])
      {
        assert hash.table[i..][1..] == hash.table[i + 1..];
        if |hash.table[i]| > 0 {
          current := Some((i, 0));
          slotIndex := i + 1;
          return;
        }
        i := i + 1;
      }
    }
  }

  // ----- lists

  lemma {:induction false} LookupWithout<K, V>(list: seq<Element<K, V>>, i: nat, k: K)
    requires i < |list| && list[i].key != k
    ensures Lookup(Without(list, i), k) == Lookup(list, k)
  {
    var rest := Without(list, i);
    if i == 0 {
      assert rest == list[1..];
    } else {
      LookupWithout(list[1..], i - 1, k);
      assert rest[1..] == Without(list[1..], i - 1);
    }
  }

  lemma {:induction false} PrunedAt<K, V>(list: seq<Element<K, V>>, key: K, i: nat)
    requires i <= |list| && forall j :: 0 <= j < i ==> list[j].key != key
    requires i < |list| ==> list[i].key == key
    ensures Pruned(list, key) == if i < |list| then Without(list, i) else list
  {
    if i > 0 {
      var head, tail := list[0], list[1..];
      PrunedAt(tail, key, i - 1);
      assert Pruned(list, key) == [head] + Pruned(tail, key);
      WithoutTail(list, i);
    } else if list != [] {
      WithoutTail(list, 0);
    }
  }

  lemma WithoutTail<T>(s: seq<T>, i: nat)
    requires 0 < |s|
    ensures 0 < i < |s| ==> Without(s, i) == [s[0]] + Without(s[1..], i - 1)
    ensures Without(s, 0) == s[1..] && s == [s[0]] + s[1..]
  {
  }

  /** Adding a new key at the end and taking it out again restores the list. */
  lemma {:induction false} PrunedAppended<K, V>(list: seq<Element<K, V>>, e: Element<K, V>)
    requires Lookup(list, e.key).None?
    ensures Pruned(list, e.key) == list && Pruned(list + [e], e.key) == list
  {
    PrunedAt(list, e.key, |list|);
    PrunedAt(list + [e], e.key, |list|);
  }

  lemma {:induction false} LookupAppended<K, V>(list: seq<Element<K, V>>, e: Element<K, V>, k: K)
    ensures Lookup(list + [e], k) ==
            if Lookup(list, k).Some? then Lookup(list, k) else if e.key == k then Some(e.ptr) else None
  {
    if list == [] {
      assert (list + [e])[1..] == [];
    } else {
      LookupAppended(list[1..], e, k);
      assert (list + [e])[1..] == list[1..] + [e];
    }
  }

  lemma {:induction false} LookupUnique<K, V>(list: seq<Element<K, V>>, j: nat)
    requires DistinctKeys(list) && j < |list|
    ensures Lookup(list, list[j].key) == Some(list[j].ptr)
  {
    if j > 0 {
      LookupUnique(list[1..], j - 1);
    }
  }

  lemma {:induction false} LookupPosition<K, V>(list: seq<Element<K, V>>, k: K) returns (j: nat)
    requires Lookup(list, k).Some?
    ensures j < |list| && list[j] == Element(k, Lookup(list, k).value)
  {
    if list[0].key == k {
      j := 0;
    } else {
      var i := LookupPosition(list[1..], k);
      j := i + 1;
    }
  }

  lemma KeyGone<K, V>(list: seq<Element<K, V>>, i: nat)
    requires i < |list| && DistinctKeys(list)
    ensures Lookup(Without(list, i), list[i].key) == None && DistinctKeys(Without(list, i))
  {
    var rest := Without(list, i);
    assert forall j :: 0 <= j < |rest| ==> rest[j] == list[if j < i then j else j + 1];
  }

  // ----- the flattened table

  lemma {:induction false} FlatPosition<K, V>(lists: seq<seq<Element<K, V>>>, i: nat) returns (s: nat, j: nat)
    requires i < |Flat(lists)|
    ensures s < |lists| && j < |lists[s]| && lists[s][j] == Flat(lists)[i]
  {
    if i < |lists[0]| {
      s, j := 0, i;
    } else {
      s, j := FlatPosition(lists[1..], i - |lists[0]|);
      s := s + 1;
    }
  }

  lemma {:induction false} FlatHas<K, V>(lists: seq<seq<Element<K, V>>>, s: nat, j: nat)
    requires s < |lists| && j < |lists[s]|
    ensures Has(Flat(lists), lists[s][j])
  {
    if s == 0 {
      assert Flat(lists)[j] == lists[0][j];
    } else {
      FlatHas(lists[1..], s - 1, j);
      var i :| 0 <= i < |Flat(lists[1..])| && Flat(lists[1..])[i] == lists[s][j];
      assert Flat(lists)[|lists[0]| + i] == lists[s][j];
    }
  }

  /** The list belongs to slot s. */
  ghost predicate Homed<K, V>(list: seq<Element<K, V>>, hash: K -> nat, s: int) {
    DistinctKeys(list) && forall j :: 0 <= j < |list| ==> hash(list[j].key) == s
  }

  lemma {:induction false} FlatDistinct<K, V>(lists: seq<seq<Element<K, V>>>, hash: K -> nat, first: nat)
    requires forall s :: 0 <= s < |lists| ==> Homed(lists[s], hash, first + s)
    ensures DistinctKeys(Flat(lists))
    ensures forall i :: 0 <= i < |Flat(lists)| ==> hash(Flat(lists)[i].key) >= first
    decreases |lists|
  {
    if lists != [] {
      var more := lists[1..];
      forall s | 0 <= s < |more| ensures Homed(more[s], hash, first + 1 + s) {
        assert Homed(lists[s + 1], hash, first + (s + 1));
      }
      FlatDistinct(more, hash, first + 1);
      assert Homed(lists[0], hash, first + 0);
    }
  }

  lemma {:induction false} KeyCount<K, V>(list: seq<Element<K, V>>, keys: set<K>)
    requires DistinctKeys(list) && keys == set i | 0 <= i < |list| :: list[i].key
    ensures |keys| == |list|
  {
    if list != [] {
      var rest := set i | 0 <= i < |list[1..]| :: list[1..][i].key;
      KeyCount(list[1..], rest);
      assert keys == rest + {list[0].key} by {
        forall i | 0 <= i < |list| ensures list[i].key in rest + {list[0].key} {
          if i > 0 { assert list[1..][i - 1].key in rest; }
        }
      }
      assert list[0].key !in rest;
    }
  }
}
