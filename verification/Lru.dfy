/** The LRU cache as it is built (pkg/util/lru/lru.go): a recency list of elements, and an index from
    the primary hash to the bucket of elements that share it. Elements are shared by both. */
module Lru {
  import opened Wrappers
  import opened LruSpec

  class Element<V> {
    const key: Hash
    const conflictKey: Hash
    var value: V

    constructor (key: Hash, conflictKey: Hash, value: V)
      ensures this.key == key && this.conflictKey == conflictKey && this.value == value
    {
      this.key, this.conflictKey, this.value := key, conflictKey, value;
    }
  }

  // ---------------------------------------------------------------- list and index

  predicate SameKey<V>(e: Element<V>, f: Element<V>) {
    e.key == f.key && e.conflictKey == f.conflictKey
  }

  ghost predicate DistinctKeys<V>(list: seq<Element<V>>) {
    forall i, j {:trigger SameKey(list[i], list[j])} :: 0 <= i < j < |list| ==> !SameKey(list[i], list[j])
  }

  predicate HasKey<V>(e: Element<V>, key: Hash, conflictKey: Hash) {
    e.key == key && e.conflictKey == conflictKey
  }

  ghost predicate Absent<V>(list: seq<Element<V>>, key: Hash, conflictKey: Hash) {
    forall i {:trigger HasKey(list[i], key, conflictKey)} :: 0 <= i < |list| ==> !HasKey(list[i], key, conflictKey)
  }

  predicate BelongsTo<V>(e: Element<V>, list: seq<Element<V>>, key: Hash) {
    e in list && e.key == key
  }

  /** A bucket holds elements of the list with one primary hash, each once, and is not empty. */
  ghost predicate IsBucket<V>(list: seq<Element<V>>, key: Hash, bucket: seq<Element<V>>) {
    && bucket != []
    && (forall i {:trigger BelongsTo(bucket[i], list, key)} :: 0 <= i < |bucket| ==> BelongsTo(bucket[i], list, key))
    && DistinctKeys(bucket)
  }

  predicate Indexed<V>(e: Element<V>, items: map<Hash, seq<Element<V>>>) {
    e.key in items && e in items[e.key]
  }

  /** The index and the recency list hold the same elements. */
  ghost predicate Linked<V>(list: seq<Element<V>>, items: map<Hash, seq<Element<V>>>) {
    && DistinctKeys(list)
    && (forall k {:trigger IsBucket(list, k, items[k])} :: k in items ==> IsBucket(list, k, items[k]))
    && (forall i {:trigger Indexed(list[i], items)} :: 0 <= i < |list| ==> Indexed(list[i], items))
  }

  function IndexOf<V>(list: seq<Element<V>>, e: Element<V>): (i: nat)
    requires e in list
    ensures i < |list| && list[i] == e
  {
    if list[0] == e then 0 else 1 + IndexOf(list[1..], e)
  }

  /** `delete by swapping the last element in`, as `removeItem` does it. */
  function SwapDelete<T>(s: seq<T>, d: nat): seq<T>
    requires d < |s|
  {
    s[d := s[|s| - 1]][..|s| - 1]
  }

  /** Elements at different places of a list have different keys. */
  lemma DifferentKeys<V>(list: seq<Element<V>>, i: nat, j: nat)
    requires DistinctKeys(list) && i < |list| && j < |list| && i != j
    ensures !SameKey(list[i], list[j]) && list[i] != list[j]
  {
    assert if i < j then !SameKey(list[i], list[j]) else !SameKey(list[j], list[i]);
  }

  lemma SwapDeleteMembers<V>(bucket: seq<Element<V>>, d: nat)
    requires d < |bucket| && DistinctKeys(bucket)
    ensures DistinctKeys(SwapDelete(bucket, d))
    ensures forall e :: e in SwapDelete(bucket, d) <==> e in bucket && e != bucket[d]
  {
    var after, n := SwapDelete(bucket, d), |bucket| - 1;
    forall i, j | 0 <= i < j < n
      ensures !SameKey(after[i], after[j])
    {
      DifferentKeys(bucket, if i == d then n else i, if j == d then n else j);
    }
    forall e | e in after
      ensures e in bucket && e != bucket[d]
    {
      var i := IndexOf(after, e);
      DifferentKeys(bucket, if i == d then n else i, d);
    }
    forall e | e in bucket && e != bucket[d]
      ensures e in after
    {
      var i := IndexOf(bucket, e);
      assert if i == n then after[d] == e else after[i] == e;
    }
  }

  lemma WithoutMembers<V>(list: seq<Element<V>>, i: nat)
    requires i < |list| && DistinctKeys(list)
    ensures DistinctKeys(Without(list, i))
    ensures forall e :: e in Without(list, i) <==> e in list && e != list[i]
  {
    var rest := Without(list, i);
    forall j, k | 0 <= j < k < |rest|
      ensures !SameKey(rest[j], rest[k])
    {
      DifferentKeys(list, if j < i then j else j + 1, if k < i then k else k + 1);
    }
    forall e | e in rest
      ensures e in list && e != list[i]
    {
      var j := IndexOf(rest, e);
      DifferentKeys(list, if j < i then j else j + 1, i);
    }
    forall e | e in list && e != list[i]
      ensures e in rest
    {
      var j := IndexOf(list, e);
      WithoutAt(list, i, if j < i then j else j - 1);
    }
  }

  function RemovedFromIndex<V>(items: map<Hash, seq<Element<V>>>, key: Hash, d: nat): map<Hash, seq<Element<V>>>
    requires key in items && d < |items[key]|
  {
    if |items[key]| == 1 then items - {key} else items[key := SwapDelete(items[key], d)]
  }

  lemma ListedIsIndexed<V>(list: seq<Element<V>>, items: map<Hash, seq<Element<V>>>, e: Element<V>)
    requires Linked(list, items) && e in list
    ensures Indexed(e, items) && IsBucket(list, e.key, items[e.key])
  {
    assert Indexed(list[IndexOf(list, e)], items);
  }

  lemma BucketIsListed<V>(list: seq<Element<V>>, items: map<Hash, seq<Element<V>>>, key: Hash, e: Element<V>)
    requires Linked(list, items) && key in items && e in items[key]
    ensures IsBucket(list, key, items[key]) && BelongsTo(e, list, key)
  {
    assert IsBucket(list, key, items[key]);
    assert BelongsTo(items[key][IndexOf(items[key], e)], list, key);
  }

  function WithBucket<V>(items: map<Hash, seq<Element<V>>>, key: Hash, bucket: seq<Element<V>>): map<Hash, seq<Element<V>>> {
    if bucket == [] then items - {key} else items[key := bucket]
  }

  /** Taking an element out of the list, and out of its bucket in whatever order. */
  lemma LinkedRemove<V>(list: seq<Element<V>>, items: map<Hash, seq<Element<V>>>, i: nat, bucket: seq<Element<V>>)
    requires Linked(list, items) && i < |list| && list[i].key in items && DistinctKeys(bucket)
    requires forall e :: e in bucket <==> e in items[list[i].key] && e != list[i]
    ensures Linked(Without(list, i), WithBucket(items, list[i].key, bucket))
  {
    var key, list' := list[i].key, Without(list, i);
    var items' := WithBucket(items, key, bucket);
    WithoutMembers(list, i);
    forall k | k in items'
      ensures IsBucket(list', k, items'[k])
    {
      assert k in items && IsBucket(list, k, items[k]);
      forall j | 0 <= j < |items'[k]|
        ensures BelongsTo(items'[k][j], list', k)
      {
        BucketIsListed(list, items, k, items'[k][j]);
      }
    }
    forall j | 0 <= j < |list'|
      ensures Indexed(list'[j], items')
    {
      ListedIsIndexed(list, items, list'[j]);
    }
  }

  lemma RemovedIsWithBucket<V>(items: map<Hash, seq<Element<V>>>, key: Hash, d: nat)
    requires key in items && d < |items[key]|
    ensures RemovedFromIndex(items, key, d) == WithBucket(items, key, SwapDelete(items[key], d))
  {
  }

  lemma DropFirstMembers<V>(bucket: seq<Element<V>>)
    requires bucket != [] && DistinctKeys(bucket)
    ensures DistinctKeys(bucket[1..])
    ensures forall e :: e in bucket[1..] <==> e in bucket && e != bucket[0]
  {
    forall i, j | 0 <= i < j < |bucket| - 1
      ensures !SameKey(bucket[1..][i], bucket[1..][j])
    {
      DifferentKeys(bucket, i + 1, j + 1);
    }
    forall e | e in bucket[1..]
      ensures e != bucket[0]
    {
      DifferentKeys(bucket, 1 + IndexOf(bucket[1..], e), 0);
    }
  }

  function AddedToIndex<V>(items: map<Hash, seq<Element<V>>>, e: Element<V>): map<Hash, seq<Element<V>>> {
    items[e.key := (if e.key in items then items[e.key] else []) + [e]]
  }

  lemma DistinctAdd<V>(list: seq<Element<V>>, e: Element<V>)
    requires DistinctKeys(list) && forall f :: f in list ==> !SameKey(f, e)
    ensures DistinctKeys([e] + list) && DistinctKeys(list + [e])
  {
    forall i, j | 0 <= i < j < |list| + 1
      ensures !SameKey(([e] + list)[i], ([e] + list)[j]) && !SameKey((list + [e])[i], (list + [e])[j])
    {
      assert !SameKey(list[i], e) && !SameKey(list[j - 1], e);
      if i > 0 {
        DifferentKeys(list, i - 1, j - 1);
      }
      if j < |list| {
        DifferentKeys(list, i, j);
      }
    }
  }

  /** One more element, in a longer list that has the same elements besides. */
  lemma LinkedAdd<V>(list: seq<Element<V>>, list': seq<Element<V>>, items: map<Hash, seq<Element<V>>>, e: Element<V>)
    requires Linked(list, items) && Absent(list, e.key, e.conflictKey)
    requires list' == [e] + list || list' == list + [e]
    ensures Linked(list', AddedToIndex(items, e))
  {
    var items' := AddedToIndex(items, e);
    var bucket := if e.key in items then items[e.key] else [];
    forall f | f in list
      ensures !SameKey(f, e)
    {
      assert !HasKey(list[IndexOf(list, f)], e.key, e.conflictKey);
    }
    DistinctAdd(list, e);
    if e.key in items {
      assert IsBucket(list, e.key, bucket);
    }
    forall f | f in bucket
      ensures !SameKey(f, e)
    {
      BucketIsListed(list, items, e.key, f);
    }
    DistinctAdd(bucket, e);
    forall k | k in items'
      ensures IsBucket(list', k, items'[k])
    {
      if k in items {
        assert IsBucket(list, k, items[k]);
      }
      forall j | 0 <= j < |items'[k]|
        ensures BelongsTo(items'[k][j], list', k)
      {
        var f := items'[k][j];
        assert e in list';
        if k != e.key || j < |bucket| {
          BucketIsListed(list, items, k, f);
        }
      }
    }
    forall j | 0 <= j < |list'|
      ensures Indexed(list'[j], items')
    {
      if list'[j] != e {
        ListedIsIndexed(list, items, list'[j]);
      }
    }
  }

  lemma LinkedMoveToFront<V>(list: seq<Element<V>>, items: map<Hash, seq<Element<V>>>, i: nat)
    requires Linked(list, items) && i < |list|
    ensures Linked([list[i]] + Without(list, i), items)
  {
    var list' := [list[i]] + Without(list, i);
    WithoutMembers(list, i);
    forall f | f in Without(list, i)
      ensures !SameKey(f, list[i])
    {
      DifferentKeys(list, IndexOf(list, f), i);
    }
    DistinctAdd(Without(list, i), list[i]);
    forall k | k in items
      ensures IsBucket(list', k, items[k])
    {
      assert IsBucket(list, k, items[k]);
      forall j | 0 <= j < |items[k]|
        ensures BelongsTo(items[k][j], list', k)
      {
        BucketIsListed(list, items, k, items[k][j]);
      }
    }
    forall j | 0 <= j < |list'|
      ensures Indexed(list'[j], items)
    {
      ListedIsIndexed(list, items, list'[j]);
    }
  }

  // ---------------------------------------------------------------- what the list denotes

  /** The entries of a list of elements. */
  ghost predicate Denotes<V>(list: seq<Element<V>>, contents: seq<Item<V>>)
    reads list
  {
    && |list| == |contents|
    && forall i :: 0 <= i < |list| ==> contents[i] == Item(list[i].key, list[i].conflictKey, list[i].value)
  }

  /** With distinct keys, an element is found where the list has it. */
  lemma FindElement<V>(list: seq<Element<V>>, contents: seq<Item<V>>, i: nat)
    requires DistinctKeys(list) && Denotes(list, contents) && i < |list|
    ensures Find(contents, list[i].key, list[i].conflictKey) == i
  {
    var j := Find(contents, list[i].key, list[i].conflictKey);
    assert Matches(contents[i], list[i].key, list[i].conflictKey);
    if j < i {
      DifferentKeys(list, i, j);
    }
  }

  lemma FindAbsent<V>(list: seq<Element<V>>, contents: seq<Item<V>>, key: Hash, conflictKey: Hash)
    requires Denotes(list, contents)
    ensures Absent(list, key, conflictKey) <==> Find(contents, key, conflictKey) == |contents|
  {
    var j := Find(contents, key, conflictKey);
    assert j < |contents| ==> HasKey(list[j], key, conflictKey);
    forall i | 0 <= i < |list|
      ensures HasKey(list[i], key, conflictKey) == Matches(contents[i], key, conflictKey)
    {
    }
  }

  lemma DenotesWithout<V>(list: seq<Element<V>>, contents: seq<Item<V>>, i: nat)
    requires Denotes(list, contents) && i < |list|
    ensures Denotes(Without(list, i), Without(contents, i))
  {
  }

  lemma DenotesAdd<V>(list: seq<Element<V>>, contents: seq<Item<V>>, e: Element<V>, front: bool)
    requires Denotes(list, contents)
    ensures var x := [Item(e.key, e.conflictKey, e.value)];
            Denotes(if front then [e] + list else list + [e], if front then x + contents else contents + x)
  {
  }

  lemma AbsentAfterRemoval<V>(list: seq<Element<V>>, contents: seq<Item<V>>, i: nat, key: Hash, conflictKey: Hash)
    requires DistinctKeys(list) && Denotes(list, contents) && i < |list| && HasKey(list[i], key, conflictKey)
    ensures Absent(Without(list, i), key, conflictKey)
  {
    forall j | 0 <= j < |list| - 1
      ensures !HasKey(Without(list, i)[j], key, conflictKey)
    {
      DifferentKeys(list, if j < i then j else j + 1, i);
    }
  }

  lemma SumAdd<V>(cfg: Config<V>, contents: seq<Item<V>>, x: Item<V>)
    ensures Sum(cfg, [x] + contents) == Sum(cfg, contents + [x]) == Sum(cfg, contents) + cfg.sizeOf(x.value)
  {
    SumConcat(cfg, [x], contents);
    SumConcat(cfg, contents, [x]);
    SumSingle(cfg, x);
  }

  lemma IndexIsUnique<V>(list: seq<Element<V>>, i: nat)
    requires DistinctKeys(list) && i < |list|
    ensures IndexOf(list, list[i]) == i
  {
    if IndexOf(list, list[i]) != i {
      DifferentKeys(list, i, IndexOf(list, list[i]));
    }
  }

  lemma TakeOutSize<V>(cfg: Config<V>, c: Cache<V>, i: nat)
    requires i < |c.items|
    ensures Sum(cfg, Without(c.items, i)) == Sum(cfg, c.items) - cfg.sizeOf(c.items[i].value)
  {
    SumWithout(cfg, c.items, i);
  }

  lemma ReplaceSize<V>(cfg: Config<V>, c: Cache<V>, i: nat, x: Item<V>)
    requires i < |c.items|
    ensures Sum(cfg, c.items[i := x]) == Sum(cfg, c.items) - cfg.sizeOf(c.items[i].value) + cfg.sizeOf(x.value)
  {
    SumWithout(cfg, c.items, i);
    SumWithout(cfg, c.items[i := x], i);
    assert Without(c.items[i := x], i) == Without(c.items, i);
  }

  class LRU<V> {
    const cfg: Config<V>
    var evictList: seq<Element<V>>
    var items: map<Hash, seq<Element<V>>>
    var currentSize: int
    ghost var contents: seq<Item<V>>       // the entries of evictList
    ghost var evicted: seq<Event<V>>       // the calls of the eviction callback
    ghost var residue: nat
    ghost var accepted: multiset<V>
    ghost var overwritten: multiset<V>

    /** The invariant that holds even inside the eviction loop. */
    ghost predicate Consistent()
      reads this, evictList
    {
      && Linked(evictList, items)
      && Denotes(evictList, contents)
      && currentSize == Sum(cfg, contents) + residue
      && residue <= cfg.maxSize
    }

    ghost predicate Valid()
      reads this, evictList
    {
      Consistent() && currentSize <= cfg.maxSize
    }

    ghost function View(): Cache<V>
      reads this
    {
      Cache(contents, residue, evicted, accepted, overwritten)
    }

    constructor (cfg: Config<V>)
      ensures Valid() && View() == Empty() && this.cfg == cfg && evictList == []
    {
      this.cfg := cfg;
      evictList, items, currentSize := [], map[], 0;
      contents, evicted, residue, accepted, overwritten := [], [], 0, multiset{}, multiset{};
    }

    method LookupItem(key: Hash, conflictKey: Hash) returns (ent: Element?<V>)
      requires Linked(evictList, items)
      ensures ent == null <==> Absent(evictList, key, conflictKey)
      ensures ent != null ==> ent in evictList && HasKey(ent, key, conflictKey)
    {
      ent := null;
      if key in items {
        var bucket := items[key];
        for i := 0 to |bucket|
          invariant forall j :: 0 <= j < i ==> bucket[j].conflictKey != conflictKey
        {
          if bucket[i].conflictKey == conflictKey {
            BucketIsListed(evictList, items, key, bucket[i]);
            assert HasKey(evictList[IndexOf(evictList, bucket[i])], key, conflictKey);
            return bucket[i];
          }
        }
      }
      forall i | 0 <= i < |evictList|
        ensures !HasKey(evictList[i], key, conflictKey)
      {
        ListedIsIndexed(evictList, items, evictList[i]);
      }
    }

    /** Drop an element from the index. */
    method RemoveItem(key: Hash, conflictKey: Hash, ghost d: nat)
      requires key in items && d < |items[key]| && DistinctKeys(items[key])
      requires items[key][d].key == key && items[key][d].conflictKey == conflictKey
      requires forall i :: 0 <= i < |items[key]| ==> items[key][i].key == key
      modifies this`items
      ensures items == RemovedFromIndex(old(items), key, d)
    {
      var entries := items[key];
      var deleteIndex := 0;
      while entries[deleteIndex].conflictKey != conflictKey
        invariant deleteIndex <= d
        decreases |entries| - deleteIndex
      {
        deleteIndex := deleteIndex + 1;
      }
      if deleteIndex < d {
        DifferentKeys(entries, deleteIndex, d);
      }
      if |entries| == 1 {
        items := items - {key};
      } else {
        items := items[key := entries[deleteIndex := entries[|entries| - 1]][..|entries| - 1]];
      }
    }

    /** Take an element out of list and index. */
    method Unlink(e: Element<V>, ghost i: nat)
      requires Linked(evictList, items) && i < |evictList| && evictList[i] == e
      modifies this`evictList, this`items
      ensures Linked(evictList, items) && evictList == Without(old(evictList), i)
    {
      ListedIsIndexed(evictList, items, e);
      ghost var d := IndexOf(items[e.key], e);
      SwapDeleteMembers(items[e.key], d);
      LinkedRemove(evictList, items, i, SwapDelete(items[e.key], d));
      RemovedIsWithBucket(items, e.key, d);
      forall j | 0 <= j < |items[e.key]|
        ensures items[e.key][j].key == e.key
      {
        BucketIsListed(evictList, items, e.key, items[e.key][j]);
      }
      IndexIsUnique(evictList, i);
      evictList := Without(evictList, IndexOf(evictList, e));
      RemoveItem(e.key, e.conflictKey, d);
    }

    /** Take an element out, subtract its size and report it. */
    method RemoveElement(e: Element<V>, reason: Reason, ghost i: nat)
      requires Consistent() && i < |evictList| && evictList[i] == e
      modifies this
      ensures Consistent()
      ensures View() == TakeOut(old(View()), i, reason)
      ensures evictList == Without(old(evictList), i)
    {
      SumWithout(cfg, contents, i);
      DenotesWithout(evictList, contents, i);
      Unlink(e, i);
      contents := Without(contents, i);
      currentSize := currentSize - cfg.sizeOf(e.value);
      evicted := evicted + [Event(e.value, reason)];
    }

    /** Put an element at the front or at the back, and into its bucket. */
    method Link(e: Element<V>, front: bool)
      requires Linked(evictList, items) && Absent(evictList, e.key, e.conflictKey)
      modifies this`evictList, this`items
      ensures Linked(evictList, items)
      ensures evictList == if front then [e] + old(evictList) else old(evictList) + [e]
    {
      LinkedAdd(evictList, if front then [e] + evictList else evictList + [e], items, e);
      evictList := if front then [e] + evictList else evictList + [e];
      items := items[e.key := (if e.key in items then items[e.key] else []) + [e]];
    }

    /** Put a new element at the front or at the back; no size check. */
    method AddItem(key: Hash, conflictKey: Hash, value: V, size: int, front: bool) returns (e: Element<V>)
      requires Consistent() && size == cfg.sizeOf(value) && Absent(evictList, key, conflictKey)
      modifies this
      ensures Consistent() && fresh(e)
      ensures evictList == if front then [e] + old(evictList) else old(evictList) + [e]
      ensures var x := [Item(key, conflictKey, value)];
              contents == if front then x + old(contents) else old(contents) + x
      ensures residue == old(residue) && evicted == old(evicted) && overwritten == old(overwritten)
      ensures accepted == old(accepted) + multiset{value}
    {
      e := new Element(key, conflictKey, value);
      Install(e, size, front);
    }

    /** The list, its index and what they denote. */
    method LinkContents(e: Element<V>, front: bool)
      requires Linked(evictList, items) && Denotes(evictList, contents) && Absent(evictList, e.key, e.conflictKey)
      modifies this`evictList, this`items, this`contents
      ensures Linked(evictList, items) && Denotes(evictList, contents)
      ensures evictList == if front then [e] + old(evictList) else old(evictList) + [e]
      ensures var x := [Item(e.key, e.conflictKey, e.value)];
              contents == if front then x + old(contents) else old(contents) + x
    {
      DenotesAdd(evictList, contents, e, front);
      Link(e, front);
      ghost var x := [Item(e.key, e.conflictKey, e.value)];
      contents := if front then x + contents else contents + x;
    }

    method Install(e: Element<V>, size: int, front: bool)
      requires Consistent() && size == cfg.sizeOf(e.value) && Absent(evictList, e.key, e.conflictKey)
      modifies this
      ensures Consistent()
      ensures evictList == if front then [e] + old(evictList) else old(evictList) + [e]
      ensures var x := [Item(e.key, e.conflictKey, e.value)];
              contents == if front then x + old(contents) else old(contents) + x
      ensures residue == old(residue) && evicted == old(evicted) && overwritten == old(overwritten)
      ensures accepted == old(accepted) + multiset{e.value}
    {
      SumAdd(cfg, contents, Item(e.key, e.conflictKey, e.value));
      LinkContents(e, front);
      currentSize := currentSize + size;
      accepted := accepted + multiset{e.value};
    }

    /** The eviction loop: it stops, because the list is not empty whenever it is entered. */
    method EvictOverflow()
      requires Consistent()
      modifies this
      ensures Valid() && View() == EvictLoop(cfg, old(View()))
      ensures forall e :: e in evictList ==> e in old(evictList)
    {
      while currentSize > cfg.maxSize
        invariant Consistent() && EvictLoop(cfg, View()) == EvictLoop(cfg, old(View()))
        invariant forall e :: e in evictList ==> e in old(evictList)
        decreases |evictList|
      {
        RemoveElement(evictList[|evictList| - 1], SizeEviction, |evictList| - 1);
      }
    }

    method MoveToFront(ent: Element<V>, ghost i: nat)
      requires Consistent() && i < |evictList| && evictList[i] == ent
      modifies this`evictList, this`contents
      ensures Consistent() && evictList == [ent] + Without(old(evictList), i)
      ensures contents == [old(contents)[i]] + Without(old(contents), i)
    {
      LinkedMoveToFront(evictList, items, i);
      IndexIsUnique(evictList, i);
      SumWithout(cfg, contents, i);
      SumAdd(cfg, Without(contents, i), contents[i]);
      DenotesWithout(evictList, contents, i);
      DenotesAdd(Without(evictList, i), Without(contents, i), ent, true);
      evictList, contents := [ent] + Without(evictList, IndexOf(evictList, ent)), [contents[i]] + Without(contents, i);
    }

    /** Change the value of an element where it is. */
    method Overwrite(ent: Element<V>, value: V, ghost i: nat)
      requires Consistent() && i < |evictList| && evictList[i] == ent
      modifies this, ent
      ensures Consistent() && evictList == old(evictList)
      ensures contents == old(contents)[i := Item(ent.key, ent.conflictKey, value)]
      ensures residue == old(residue) && evicted == old(evicted)
      ensures overwritten == old(overwritten) + multiset{old(ent.value)}
      ensures accepted == old(accepted) + multiset{value}
    {
      ghost var x := Item(ent.key, ent.conflictKey, value);
      SumWithout(cfg, contents, i);
      SumWithout(cfg, contents[i := x], i);
      assert Without(contents[i := x], i) == Without(contents, i);
      forall j | 0 <= j < |evictList| && j != i
        ensures evictList[j] != ent
      {
        DifferentKeys(evictList, i, j);
      }
      overwritten := overwritten + multiset{ent.value};
      accepted := accepted + multiset{value};
      currentSize := currentSize + (cfg.sizeOf(value) - cfg.sizeOf(ent.value));
      contents := contents[i := x];
      ent.value := value;
    }

    /** Where a lookup finds a key. */
    ghost method Locate(ent: Element<V>, key: Hash, conflictKey: Hash) returns (i: nat)
      requires Consistent() && ent in evictList && HasKey(ent, key, conflictKey)
      ensures i < |evictList| && evictList[i] == ent && i == Find(contents, key, conflictKey)
      ensures Absent(Without(evictList, i), key, conflictKey)
    {
      i := IndexOf(evictList, ent);
      FindElement(evictList, contents, i);
      AbsentAfterRemoval(evictList, contents, i, key, conflictKey);
    }

    /** Add or replace the entry of a key, make it the most recently used one, and evict from the
        least recently used end until the cache fits its bound. */
    method Add(key: Hash, conflictKey: Hash, value: V)
      requires Valid()
      modifies this, evictList
      ensures Valid() && View() == LruSpec.Add(cfg, old(View()), key, conflictKey, value)
      ensures forall e :: e in evictList ==> e in old(evictList) || fresh(e)
    {
      InsertFront(key, conflictKey, value);
      EvictLoopIsEvict(cfg, View());
      EvictOverflow();
    }

    /** `Add` up to its eviction loop. */
    method InsertFront(key: Hash, conflictKey: Hash, value: V)
      requires Consistent()
      modifies this, evictList
      ensures Consistent() && View() == Insert(cfg, old(View()), key, conflictKey, value)
      ensures forall e :: e in evictList ==> e in old(evictList) || fresh(e)
    {
      var ent := LookupItem(key, conflictKey);
      FindAbsent(evictList, contents, key, conflictKey);
      if ent == null {
        var e := AddItem(key, conflictKey, value, cfg.sizeOf(value), true);
      } else if cfg.updateInPlace {
        UpdateFront(ent, value);
      } else {
        Reinsert(ent, value);
      }
    }

    method UpdateFront(ent: Element<V>, value: V)
      requires Consistent() && ent in evictList && cfg.updateInPlace
      modifies this, ent
      ensures Consistent() && View() == Insert(cfg, old(View()), ent.key, ent.conflictKey, value)
      ensures forall e :: e in evictList ==> e in old(evictList)
    {
      ghost var i := Locate(ent, ent.key, ent.conflictKey);
      ghost var was := View();
      WithoutIn(evictList, i);
      MoveToFront(ent, i);
      Overwrite(ent, value, 0);
      InsertInPlace(cfg, was, i, Item(ent.key, ent.conflictKey, value), View());
    }

    method Reinsert(ent: Element<V>, value: V)
      requires Consistent() && ent in evictList && !cfg.updateInPlace
      modifies this
      ensures Consistent() && View() == Insert(cfg, old(View()), ent.key, ent.conflictKey, value)
      ensures forall e :: e in evictList ==> e in old(evictList) || fresh(e)
    {
      ghost var i := Locate(ent, ent.key, ent.conflictKey);
      ghost var was := View();
      WithoutIn(evictList, i);
      RemoveElement(ent, ConflictEviction, i);
      var e := AddItem(ent.key, ent.conflictKey, value, cfg.sizeOf(value), true);
      InsertOver(cfg, was, i, Item(ent.key, ent.conflictKey, value), View());
    }

    /** Add an entry at the least recently used end if it fits without evicting anything, and say
        whether it did. An old entry of the key is never dropped without the new one going in: the
        second capacity check cannot fail once the first has passed. */
    method PushBack(key: Hash, conflictKey: Hash, value: V) returns (added: bool)
      requires Valid()
      modifies this, evictList
      ensures Valid() && View() == LruSpec.PushBack(cfg, old(View()), key, conflictKey, value)
      ensures added <==> Fits(cfg, old(View()), Find(old(contents), key, conflictKey), value)
      ensures forall e :: e in evictList ==> e in old(evictList) || fresh(e)
    {
      var ent := LookupItem(key, conflictKey);
      FindAbsent(evictList, contents, key, conflictKey);
      if ent == null {
        added := Append(key, conflictKey, value, cfg.sizeOf(value));
      } else {
        added := PushOver(ent, value);
      }
    }

    /** The case of `PushBack` in which the key has an entry. */
    method PushOver(ent: Element<V>, value: V) returns (added: bool)
      requires Valid() && ent in evictList
      modifies this, ent
      ensures Valid() && View() == LruSpec.PushBack(cfg, old(View()), ent.key, ent.conflictKey, value)
      ensures added <==> Fits(cfg, old(View()), Find(old(contents), ent.key, ent.conflictKey), value)
      ensures forall e :: e in evictList ==> e in old(evictList) || fresh(e)
    {
      ghost var i := Locate(ent, ent.key, ent.conflictKey);
      var sizeDelta := cfg.sizeOf(value) - cfg.sizeOf(ent.value);
      if currentSize + sizeDelta > cfg.maxSize {
        return false;
      }
      if cfg.updateInPlace {
        ReplaceSize(cfg, View(), i, Item(ent.key, ent.conflictKey, value));
        Overwrite(ent, value, i);
      } else {
        ReplaceAtBack(ent, value, i);
      }
      return true;
    }

    /** Drop the old entry of a key and put the new one at the back: its capacity check passes. */
    method ReplaceAtBack(ent: Element<V>, value: V, ghost i: nat)
      requires Valid() && i < |evictList| && evictList[i] == ent && Absent(Without(evictList, i), ent.key, ent.conflictKey)
      requires Fits(cfg, View(), i, value)
      modifies this
      ensures Valid()
      ensures View() == var c := TakeOut(old(View()), i, ConflictEviction);
                        c.(items := c.items + [Item(ent.key, ent.conflictKey, value)],
                           accepted := c.accepted + multiset{value})
      ensures forall e :: e in evictList ==> e in old(evictList) || fresh(e)
    {
      TakeOutSize(cfg, View(), i);
      RemoveElement(ent, ConflictEviction, i);
      var added := Append(ent.key, ent.conflictKey, value, cfg.sizeOf(value));
      assert added;
    }

    /** The last part of `PushBack`: the capacity check, and the new entry at the back. */
    method Append(key: Hash, conflictKey: Hash, value: V, size: int) returns (added: bool)
      requires Valid() && size == cfg.sizeOf(value) && Absent(evictList, key, conflictKey)
      modifies this
      ensures Valid() && (added <==> CurrentSize(cfg, old(View())) + size <= cfg.maxSize)
      ensures View() == if !added then old(View())
                        else old(View()).(items := old(contents) + [Item(key, conflictKey, value)],
                                          accepted := old(accepted) + multiset{value})
      ensures forall e :: e in evictList ==> e in old(evictList) || fresh(e)
    {
      if currentSize + size > cfg.maxSize {
        return false;
      }
      SumAdd(cfg, contents, Item(key, conflictKey, value));
      var e := AddItem(key, conflictKey, value, size, false);
      return true;
    }

    /** Make an element the most recently used one. */
    method MakeRecent(ent: Element<V>, ghost key: Hash, ghost conflictKey: Hash) returns (ghost i: nat)
      requires Valid() && ent in evictList && HasKey(ent, key, conflictKey)
      modifies this`evictList, this`contents
      ensures Valid() && View() == Touch(old(View()), key, conflictKey)
      ensures i == Find(old(contents), key, conflictKey) < |old(contents)| && old(contents)[i].value == ent.value
      ensures forall e :: e in evictList ==> e in old(evictList)
    {
      i := Locate(ent, key, conflictKey);
      ghost var was := View();
      WithoutIn(evictList, i);
      MoveToFront(ent, i);
      TouchMoves(was, key, conflictKey, i, View());
    }

    /** The value of a key, which becomes the most recently used one. */
    method Get(key: Hash, conflictKey: Hash) returns (r: Option<V>)
      requires Valid()
      modifies this`evictList, this`contents
      ensures Valid() && View() == Touch(old(View()), key, conflictKey)
      ensures var i := Find(old(contents), key, conflictKey);
              r == if i < |old(contents)| then Some(old(contents)[i].value) else None
      ensures forall e :: e in evictList ==> e in old(evictList)
    {
      var ent := LookupItem(key, conflictKey);
      FindAbsent(evictList, contents, key, conflictKey);
      if ent == null {
        return None;
      }
      r := Some(ent.value);
      ghost var i := MakeRecent(ent, key, conflictKey);
      assert old(contents)[i].value == r.value;
    }

    /** Whether a key is present; asking makes it the most recently used one. */
    method Contains(key: Hash, conflictKey: Hash) returns (present: bool)
      requires Valid()
      modifies this`evictList, this`contents
      ensures Valid() && View() == Touch(old(View()), key, conflictKey)
      ensures present <==> Find(old(contents), key, conflictKey) < |old(contents)|
    {
      var r := Get(key, conflictKey);
      return r.Some?;
    }

    /** The value of a key, without using it. */
    method Peek(key: Hash, conflictKey: Hash) returns (r: Option<V>)
      requires Valid()
      ensures var i := Find(contents, key, conflictKey);
              r == if i < |contents| then Some(contents[i].value) else None
    {
      var ent := LookupItem(key, conflictKey);
      FindAbsent(evictList, contents, key, conflictKey);
      if ent == null {
        return None;
      }
      ghost var i := Locate(ent, key, conflictKey);
      return Some(ent.value);
    }

    method Remove(key: Hash, conflictKey: Hash) returns (present: bool)
      requires Valid()
      modifies this
      ensures Valid() && View() == LruSpec.Remove(old(View()), key, conflictKey)
      ensures present <==> Find(old(contents), key, conflictKey) < |old(contents)|
    {
      var ent := LookupItem(key, conflictKey);
      FindAbsent(evictList, contents, key, conflictKey);
      if ent == null {
        return false;
      }
      ghost var i := Locate(ent, key, conflictKey);
      TakeOutSize(cfg, View(), i);
      RemoveElement(ent, ManualEviction, i);
      return true;
    }

    /** Remove and return the least recently used entry. */
    method RemoveOldest() returns (r: Option<V>)
      requires Valid()
      modifies this
      ensures Valid() && View() == LruSpec.RemoveOldest(old(View()))
      ensures r == if old(contents) == [] then None else Some(old(contents[|contents| - 1].value))
    {
      if evictList == [] {
        return None;
      }
      var ent := evictList[|evictList| - 1];
      TakeOutSize(cfg, View(), |contents| - 1);
      RemoveElement(ent, SizeEviction, |evictList| - 1);
      return Some(ent.value);
    }

    /** Report every entry, bucket by bucket, and empty the cache. The size counter is not reset: what
        it held stays in it for good. */
    method Purge() returns (ghost order: seq<V>)
      requires Valid()
      modifies this
      ensures Valid() && multiset(order) == Values(old(contents))
      ensures View() == LruSpec.Purge(cfg, old(View()), order)
    {
      order := PurgeIndex();
      evictList := [];
      contents, residue := [], currentSize;
    }

    method PurgeIndex() returns (ghost order: seq<V>)
      requires Linked(evictList, items) && Denotes(evictList, contents)
      modifies this`items, this`evicted
      ensures items == map[] && multiset(order) == Values(contents)
      ensures evicted == old(evicted) + SizeReports(order)
    {
      order := [];
      ghost var rest, held := evictList, contents;
      while items != map[]
        invariant Linked(rest, items) && Denotes(rest, held)
        invariant multiset(order) + Values(held) == Values(contents)
        invariant evicted == old(evicted) + SizeReports(order)
        modifies this`items, this`evicted
        decreases |items|
      {
        var k :| k in items;
        ghost var reported, rest', held' := PurgeBucket(k, rest, held);
        ReportsAppend(old(evicted), order, reported);
        ReportedSoFar(order, reported, Values(held), Values(held'));
        order, rest, held := order + reported, rest', held';
      }
      NothingLeft(rest, held);
    }

    /** Report one bucket and delete it from the index. */
    method PurgeBucket(k: Hash, ghost rest: seq<Element<V>>, ghost held: seq<Item<V>>)
      returns (ghost reported: seq<V>, ghost rest': seq<Element<V>>, ghost held': seq<Item<V>>)
      requires k in items && Linked(rest, items) && Denotes(rest, held)
      modifies this`items, this`evicted
      ensures items == old(items) - {k} && Linked(rest', items) && Denotes(rest', held')
      ensures Values(held) == Values(held') + multiset(reported)
      ensures evicted == old(evicted) + SizeReports(reported)
    {
      var vals := items[k];
      reported, rest', held' := [], rest, held;
      ghost var left := items;
      assert vals[0..] == vals && left == WithBucket(items, k, vals) by {
        assert IsBucket(rest, k, vals);
      }
      for j := 0 to |vals|
        invariant left == WithBucket(items, k, vals[j..]) && Linked(rest', left) && Denotes(rest', held')
        invariant Values(held) == Values(held') + multiset(reported)
        invariant evicted == old(evicted) + SizeReports(reported)
        modifies this`evicted
      {
        ReportsAppend(old(evicted), reported, [vals[j].value]);
        BucketTail(items, k, vals[j..]);
        evicted := evicted + [Event(vals[j].value, SizeEviction)];
        rest', held', left := ForgetFirst(rest', held', left, k);
        reported := reported + [vals[j].value];
      }
      items := items - {k};
    }
  }

  lemma ReportedSoFar<V>(order: seq<V>, reported: seq<V>, before: multiset<V>, after: multiset<V>)
    requires before == after + multiset(reported)
    ensures multiset(order + reported) + after == multiset(order) + before
  {
  }

  lemma BucketTail<V>(items: map<Hash, seq<Element<V>>>, k: Hash, bucket: seq<Element<V>>)
    requires bucket != []
    ensures var items' := WithBucket(items, k, bucket);
            k in items' && items'[k] == bucket && WithBucket(items', k, bucket[1..]) == WithBucket(items, k, bucket[1..])
  {
  }

  lemma ReportsConcat<V>(a: seq<V>, b: seq<V>)
    ensures SizeReports(a + b) == SizeReports(a) + SizeReports(b)
    ensures |b| == 1 ==> SizeReports(b) == [Event(b[0], SizeEviction)]
  {
  }

  lemma ReportsAppend<V>(base: seq<Event<V>>, a: seq<V>, b: seq<V>)
    ensures base + SizeReports(a) + SizeReports(b) == base + SizeReports(a + b)
    ensures |b| == 1 ==> SizeReports(b) == [Event(b[0], SizeEviction)]
  {
    ReportsConcat(a, b);
  }

  /** An empty index means an empty list. */
  lemma NothingLeft<V>(list: seq<Element<V>>, held: seq<Item<V>>)
    requires Linked(list, map[]) && Denotes(list, held)
    ensures list == [] && Values(held) == multiset{}
  {
    if list != [] {
      ListedIsIndexed(list, map[], list[0]);
    }
  }

  /** The ghost of one step through a bucket: its first element leaves the remaining list. */
  lemma ForgetFirst<V>(list: seq<Element<V>>, held: seq<Item<V>>, items: map<Hash, seq<Element<V>>>, k: Hash)
    returns (list': seq<Element<V>>, held': seq<Item<V>>, items': map<Hash, seq<Element<V>>>)
    requires Linked(list, items) && Denotes(list, held) && k in items
    ensures items[k] != [] && items' == WithBucket(items, k, items[k][1..])
    ensures Linked(list', items') && Denotes(list', held')
    ensures Values(held) == Values(held') + multiset{items[k][0].value}
  {
    assert IsBucket(list, k, items[k]);
    var e := items[k][0];
    BucketIsListed(list, items, k, e);
    var i := IndexOf(list, e);
    DropFirstMembers(items[k]);
    LinkedRemove(list, items, i, items[k][1..]);
    DenotesWithout(list, held, i);
    ValuesWithout(held, i);
    list', held', items' := Without(list, i), Without(held, i), WithBucket(items, k, items[k][1..]);
  }

  /** A bound that is not positive is an error. */
  method NewLRU<V>(sizeOf: V -> nat, maxSize: int, updateInPlace: bool) returns (r: Option<LRU<V>>)
    ensures r.Some? <==> maxSize > 0
    ensures r.Some? ==> fresh(r.value) && r.value.Valid() && r.value.View() == Empty()
                        && r.value.cfg == Config(sizeOf, maxSize, updateInPlace)
  {
    if maxSize <= 0 {
      return None;
    }
    var cache := new LRU(Config(sizeOf, maxSize, updateInPlace));
    return Some(cache);
  }
}
