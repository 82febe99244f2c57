/** What the LRU cache promises, on a plain sequence of entries, most recently used first. */
module LruSpec {

  /** Both hashes of a key; an entry is identified by the pair. */
  type Hash = nat

  datatype Item<V> = Item(key: Hash, conflictKey: Hash, value: V)

  datatype Reason = SizeEviction | ManualEviction | ConflictEviction

  /** One call of the eviction callback. */
  datatype Event<V> = Event(value: V, reason: Reason)

  datatype Config<!V> = Config(sizeOf: V -> nat, maxSize: nat, updateInPlace: bool)

  /** `residue` is what earlier purges left in the size counter; `accepted` and `overwritten` are the
      values that ever entered the cache and the values replaced in place. */
  datatype Cache<V> = Cache(
    items: seq<Item<V>>,
    residue: nat,
    evicted: seq<Event<V>>,
    accepted: multiset<V>,
    overwritten: multiset<V>)

  ghost function Empty<V>(): Cache<V> {
    Cache([], 0, [], multiset{}, multiset{})
  }

  // ---------------------------------------------------------------- sums and positions

  function Sum<V>(cfg: Config<V>, items: seq<Item<V>>): nat {
    if items == [] then 0 else Sum(cfg, items[..|items| - 1]) + cfg.sizeOf(items[|items| - 1].value)
  }

  /** The counter the cache keeps. */
  function CurrentSize<V>(cfg: Config<V>, c: Cache<V>): nat {
    Sum(cfg, c.items) + c.residue
  }

  function Without<T>(s: seq<T>, i: nat): seq<T>
    requires i < |s|
  {
    s[..i] + s[i + 1..]
  }

  predicate Matches<V>(item: Item<V>, pk: Hash, ck: Hash) {
    item.key == pk && item.conflictKey == ck
  }

  ghost predicate Distinct<V>(items: seq<Item<V>>) {
    forall i, j :: 0 <= i < j < |items| ==> !Matches(items[i], items[j].key, items[j].conflictKey)
  }

  /** Where the entry of a key is, or the length if there is none. */
  ghost function Find<V>(items: seq<Item<V>>, pk: Hash, ck: Hash): (i: nat)
    ensures i <= |items| && (i < |items| ==> Matches(items[i], pk, ck))
    ensures forall j :: 0 <= j < i ==> !Matches(items[j], pk, ck)
  {
    if items == [] || Matches(items[0], pk, ck) then 0 else 1 + Find(items[1..], pk, ck)
  }

  lemma {:induction false} SumConcat<V>(cfg: Config<V>, a: seq<Item<V>>, b: seq<Item<V>>)
    ensures Sum(cfg, a + b) == Sum(cfg, a) + Sum(cfg, b)
  {
    if b == [] {
      assert a + b == a;
    } else {
      SumConcat(cfg, a, b[..|b| - 1]);
      assert (a + b)[..|a + b| - 1] == a + b[..|b| - 1];
    }
  }

  lemma SumSingle<V>(cfg: Config<V>, x: Item<V>)
    ensures Sum(cfg, [x]) == cfg.sizeOf(x.value)
  {
    assert [x][..0] == [];
  }

  lemma SumWithout<V>(cfg: Config<V>, items: seq<Item<V>>, i: nat)
    requires i < |items|
    ensures Sum(cfg, items) == Sum(cfg, Without(items, i)) + cfg.sizeOf(items[i].value)
  {
    assert items == items[..i] + ([items[i]] + items[i + 1..]);
    SumConcat(cfg, items[..i], [items[i]] + items[i + 1..]);
    SumConcat(cfg, [items[i]], items[i + 1..]);
    SumConcat(cfg, items[..i], items[i + 1..]);
    SumSingle(cfg, items[i]);
  }

  // ---------------------------------------------------------------- values

  function ItemValues<V>(items: seq<Item<V>>): (values: seq<V>)
    ensures |values| == |items|
  {
    seq(|items|, i requires 0 <= i < |items| => items[i].value)
  }

  function EventValues<V>(events: seq<Event<V>>): (values: seq<V>)
    ensures |values| == |events|
  {
    seq(|events|, i requires 0 <= i < |events| => events[i].value)
  }

  ghost function Values<V>(items: seq<Item<V>>): multiset<V> {
    multiset(ItemValues(items))
  }

  /** The values that were reported to the callback. */
  ghost function Reported<V>(events: seq<Event<V>>): multiset<V> {
    multiset(EventValues(events))
  }

  lemma ValuesConcat<V>(a: seq<Item<V>>, b: seq<Item<V>>)
    ensures Values(a + b) == Values(a) + Values(b)
  {
    assert ItemValues(a + b) == ItemValues(a) + ItemValues(b);
  }

  lemma ValuesSingle<V>(x: Item<V>)
    ensures Values([x]) == multiset{x.value}
  {
    assert ItemValues([x]) == [x.value];
  }

  lemma ValuesWithout<V>(items: seq<Item<V>>, i: nat)
    requires i < |items|
    ensures Values(items) == Values(Without(items, i)) + multiset{items[i].value}
  {
    var front, back := ItemValues(items[..i]), ItemValues(items[i + 1..]);
    assert ItemValues(items) == front + [items[i].value] + back;
    assert ItemValues(Without(items, i)) == front + back;
  }

  lemma ReportedConcat<V>(a: seq<Event<V>>, b: seq<Event<V>>)
    ensures Reported(a + b) == Reported(a) + Reported(b)
  {
    assert EventValues(a + b) == EventValues(a) + EventValues(b);
  }

  lemma ReportedOne<V>(events: seq<Event<V>>, e: Event<V>)
    ensures Reported(events + [e]) == Reported(events) + multiset{e.value}
  {
    ReportedConcat(events, [e]);
    assert EventValues([e]) == [e.value];
  }

  /** One report per value, in the given order. */
  function SizeReports<V>(values: seq<V>): (events: seq<Event<V>>)
    ensures |events| == |values|
  {
    seq(|values|, i requires 0 <= i < |values| => Event(values[i], SizeEviction))
  }

  lemma ReportedAll<V>(events: seq<Event<V>>, values: seq<V>)
    ensures Reported(events + SizeReports(values)) == Reported(events) + multiset(values)
  {
    ReportedConcat(events, SizeReports(values));
    assert EventValues(SizeReports(values)) == values;
  }

  // ---------------------------------------------------------------- operations

  /** Drop least recently used entries while the rest is over the budget. */
  function Keep<V>(cfg: Config<V>, items: seq<Item<V>>, budget: nat): (k: nat)
    ensures k <= |items|
  {
    if Sum(cfg, items) <= budget then |items| else Keep(cfg, items[..|items| - 1], budget)
  }

  /** What is left fits, and nothing longer would. */
  lemma {:induction false} KeepIsLongest<V>(cfg: Config<V>, items: seq<Item<V>>, budget: nat, j: nat)
    requires j <= |items|
    ensures var k := Keep(cfg, items, budget);
            Sum(cfg, items[..k]) <= budget && (k < j ==> Sum(cfg, items[..j]) > budget)
  {
    assert items[..|items|] == items;
    if Sum(cfg, items) > budget {
      var n := |items| - 1;
      var i := if j <= n then j else n;
      KeepIsLongest(cfg, items[..n], budget, i);
      assert items[..n][..Keep(cfg, items[..n], budget)] == items[..Keep(cfg, items[..n], budget)];
      assert items[..n][..i] == items[..i];
    }
  }

  /** The values of entries that leave by size, oldest first. */
  function OldestFirst<V>(items: seq<Item<V>>): seq<V> {
    seq(|items|, i requires 0 <= i < |items| => items[|items| - 1 - i].value)
  }

  /** The eviction of `Add`: keep the longest prefix that fits, report the rest oldest first. */
  ghost function Evict<V>(cfg: Config<V>, c: Cache<V>): Cache<V>
    requires c.residue <= cfg.maxSize
  {
    Truncate(c, Keep(cfg, c.items, cfg.maxSize - c.residue))
  }

  /** Keep the first k entries, report the others oldest first. */
  ghost function Truncate<V>(c: Cache<V>, k: nat): Cache<V>
    requires k <= |c.items|
  {
    c.(items := c.items[..k], evicted := c.evicted + SizeReports(OldestFirst(c.items[k..])))
  }

  /** The same, one entry at a time, as the source runs it. */
  ghost function EvictLoop<V>(cfg: Config<V>, c: Cache<V>): Cache<V>
    requires c.residue <= cfg.maxSize
    decreases |c.items|
  {
    if CurrentSize(cfg, c) <= cfg.maxSize then c
    else EvictLoop(cfg, TakeOut(c, |c.items| - 1, SizeEviction))
  }

  /** Take the entry at `i` out and report it. */
  ghost function TakeOut<V>(c: Cache<V>, i: nat, reason: Reason): Cache<V>
    requires i < |c.items|
  {
    c.(items := Without(c.items, i), evicted := c.evicted + [Event(c.items[i].value, reason)])
  }

  /** `Add` before its eviction loop: the new entry is in front and its old value, if there was one,
      has been overwritten in place or evicted as a conflict. */
  ghost function Insert<V>(cfg: Config<V>, c: Cache<V>, pk: Hash, ck: Hash, v: V): Cache<V> {
    var i := Find(c.items, pk, ck);
    var c1 :=
      if i == |c.items| then c
      else if cfg.updateInPlace then
        c.(items := Without(c.items, i), overwritten := c.overwritten + multiset{c.items[i].value})
      else TakeOut(c, i, ConflictEviction);
    c1.(items := [Item(pk, ck, v)] + c1.items, accepted := c1.accepted + multiset{v})
  }

  /** Its cases for a key that has an entry. */
  lemma InsertOver<V>(cfg: Config<V>, c: Cache<V>, i: nat, x: Item<V>, r: Cache<V>)
    requires i < |c.items| && i == Find(c.items, x.key, x.conflictKey) && !cfg.updateInPlace
    requires var t := TakeOut(c, i, ConflictEviction);
             r == t.(items := [x] + t.items, accepted := t.accepted + multiset{x.value})
    ensures Insert(cfg, c, x.key, x.conflictKey, x.value) == r
  {
  }

  lemma InsertInPlace<V>(cfg: Config<V>, c: Cache<V>, i: nat, x: Item<V>, r: Cache<V>)
    requires i < |c.items| && i == Find(c.items, x.key, x.conflictKey) && cfg.updateInPlace
    requires r == c.(items := ([c.items[i]] + Without(c.items, i))[0 := x],
                     overwritten := c.overwritten + multiset{c.items[i].value},
                     accepted := c.accepted + multiset{x.value})
    ensures Insert(cfg, c, x.key, x.conflictKey, x.value) == r
  {
    assert ([c.items[i]] + Without(c.items, i))[0 := x] == [x] + Without(c.items, i);
  }

  ghost function Add<V>(cfg: Config<V>, c: Cache<V>, pk: Hash, ck: Hash, v: V): Cache<V>
    requires c.residue <= cfg.maxSize
  {
    Evict(cfg, Insert(cfg, c, pk, ck, v))
  }

  /** Would the cache be within its bound with `v` in place of the entry at `i`, if any? */
  ghost predicate Fits<V>(cfg: Config<V>, c: Cache<V>, i: nat, v: V)
    requires i <= |c.items|
  {
    CurrentSize(cfg, c) + cfg.sizeOf(v) - (if i < |c.items| then cfg.sizeOf(c.items[i].value) else 0) <= cfg.maxSize
  }

  /** Insert at the back if it fits without evicting anything; otherwise change nothing. */
  ghost function PushBack<V>(cfg: Config<V>, c: Cache<V>, pk: Hash, ck: Hash, v: V): Cache<V> {
    var i := Find(c.items, pk, ck);
    if !Fits(cfg, c, i, v) then c
    else if i < |c.items| && cfg.updateInPlace then
      c.(items := c.items[i := Item(pk, ck, v)],
         overwritten := c.overwritten + multiset{c.items[i].value},
         accepted := c.accepted + multiset{v})
    else
      var c1 := if i < |c.items| then TakeOut(c, i, ConflictEviction) else c;
      c1.(items := c1.items + [Item(pk, ck, v)], accepted := c1.accepted + multiset{v})
  }

  /** Make the entry of a key the most recently used one. */
  ghost function Touch<V>(c: Cache<V>, pk: Hash, ck: Hash): Cache<V> {
    var i := Find(c.items, pk, ck);
    if i == |c.items| then c else c.(items := [c.items[i]] + Without(c.items, i))
  }

  lemma TouchMoves<V>(c: Cache<V>, pk: Hash, ck: Hash, i: nat, r: Cache<V>)
    requires i < |c.items| && i == Find(c.items, pk, ck) && r == c.(items := [c.items[i]] + Without(c.items, i))
    ensures Touch(c, pk, ck) == r
  {
  }

  ghost function Remove<V>(c: Cache<V>, pk: Hash, ck: Hash): Cache<V> {
    var i := Find(c.items, pk, ck);
    if i == |c.items| then c else TakeOut(c, i, ManualEviction)
  }

  ghost function RemoveOldest<V>(c: Cache<V>): Cache<V> {
    if c.items == [] then c else TakeOut(c, |c.items| - 1, SizeEviction)
  }

  /** Everything is reported and gone, but the size counter keeps its value. `order` is the order in
      which the index happened to be walked. */
  ghost function Purge<V>(cfg: Config<V>, c: Cache<V>, order: seq<V>): Cache<V> {
    c.(items := [], residue := CurrentSize(cfg, c), evicted := c.evicted + SizeReports(order))
  }

  datatype Op<V> =
    | DoAdd(pk: Hash, ck: Hash, v: V)
    | DoPushBack(pk: Hash, ck: Hash, v: V)
    | DoTouch(pk: Hash, ck: Hash)               // Get or Contains
    | DoRemove(pk: Hash, ck: Hash)
    | DoRemoveOldest
    | DoPurge(order: seq<V>)

  ghost predicate Enabled<V>(cfg: Config<V>, c: Cache<V>, op: Op<V>) {
    c.residue <= cfg.maxSize && (op.DoPurge? ==> multiset(op.order) == Values(c.items))
  }

  ghost function Apply<V>(cfg: Config<V>, c: Cache<V>, op: Op<V>): Cache<V>
    requires Enabled(cfg, c, op)
  {
    match op
    case DoAdd(pk, ck, v) => Add(cfg, c, pk, ck, v)
    case DoPushBack(pk, ck, v) => PushBack(cfg, c, pk, ck, v)
    case DoTouch(pk, ck) => Touch(c, pk, ck)
    case DoRemove(pk, ck) => Remove(c, pk, ck)
    case DoRemoveOldest => RemoveOldest(c)
    case DoPurge(order) => Purge(cfg, c, order)
  }

  // ---------------------------------------------------------------- what every run keeps

  /** Every value that was accepted is held, was reported, or was overwritten: each exactly once. */
  ghost predicate Conserved<V>(c: Cache<V>) {
    c.accepted == Values(c.items) + Reported(c.evicted) + c.overwritten
  }

  ghost predicate Sound<V>(cfg: Config<V>, c: Cache<V>) {
    Distinct(c.items) && CurrentSize(cfg, c) <= cfg.maxSize && Conserved(c)
  }

  lemma {:induction false} OldestFirstIsPermutation<V>(items: seq<Item<V>>)
    ensures multiset(OldestFirst(items)) == Values(items)
  {
    if items != [] {
      var n := |items| - 1;
      OldestFirstIsPermutation(items[..n]);
      assert OldestFirst(items) == [items[n].value] + OldestFirst(items[..n]);
      assert ItemValues(items) == ItemValues(items[..n]) + [items[n].value];
    }
  }

  lemma ReportNext<V>(items: seq<Item<V>>, k: nat)
    requires k < |items|
    ensures var n := |items| - 1;
            SizeReports(OldestFirst(items[k..])) ==
            [Event(items[n].value, SizeEviction)] + SizeReports(OldestFirst(items[..n][k..]))
  {
    var n := |items| - 1;
    assert items[k..] == items[..n][k..] + [items[n]];
  }

  lemma TruncateStep<V>(c: Cache<V>, k: nat)
    requires k < |c.items|
    ensures Truncate(TakeOut(c, |c.items| - 1, SizeEviction), k) == Truncate(c, k)
  {
    var n := |c.items| - 1;
    LastOut(c.items);
    ReportNext(c.items, k);
    Reassociate(c.evicted, [Event(c.items[n].value, SizeEviction)], SizeReports(OldestFirst(c.items[..n][k..])));
    assert c.items[..n][..k] == c.items[..k];
  }

  /** Evicting one entry first makes no difference. */
  lemma EvictStep<V>(cfg: Config<V>, c: Cache<V>)
    requires c.residue <= cfg.maxSize && CurrentSize(cfg, c) > cfg.maxSize
    ensures Evict(cfg, TakeOut(c, |c.items| - 1, SizeEviction)) == Evict(cfg, c)
  {
    var k := Keep(cfg, c.items, cfg.maxSize - c.residue);
    KeepStep(cfg, c.items, cfg.maxSize - c.residue);
    TruncateStep(c, k);
  }

  lemma LastOut<V>(items: seq<Item<V>>)
    requires items != []
    ensures Without(items, |items| - 1) == items[..|items| - 1]
  {
  }

  lemma KeepStep<V>(cfg: Config<V>, items: seq<Item<V>>, budget: nat)
    requires Sum(cfg, items) > budget
    ensures var n, k := |items| - 1, Keep(cfg, items, budget);
            k <= n && Keep(cfg, Without(items, n), budget) == k
  {
    LastOut(items);
  }

  lemma Reassociate<T>(a: seq<T>, b: seq<T>, c: seq<T>)
    ensures a + b + c == a + (b + c)
  {
  }

  /** Evicting one entry after the other drops the shortest oldest suffix. */
  lemma {:induction false} EvictLoopIsEvict<V>(cfg: Config<V>, c: Cache<V>)
    requires c.residue <= cfg.maxSize
    ensures EvictLoop(cfg, c) == Evict(cfg, c)
    decreases |c.items|
  {
    if CurrentSize(cfg, c) <= cfg.maxSize {
      assert c.items[..|c.items|] == c.items;
      assert c.evicted + SizeReports(OldestFirst(c.items[|c.items|..])) == c.evicted;
    } else {
      EvictStep(cfg, c);
      EvictLoopIsEvict(cfg, TakeOut(c, |c.items| - 1, SizeEviction));
    }
  }

  lemma Regroup<V>(kept: multiset<V>, gone: multiset<V>, reported: multiset<V>, overwritten: multiset<V>)
    ensures (kept + gone) + reported + overwritten == kept + (reported + gone) + overwritten
  {
  }

  lemma TruncateConserves<V>(c: Cache<V>, k: nat)
    requires Conserved(c) && k <= |c.items|
    ensures Conserved(Truncate(c, k))
  {
    var kept, gone := c.items[..k], c.items[k..];
    assert c.items == kept + gone;
    ValuesConcat(kept, gone);
    OldestFirstIsPermutation(gone);
    ReportedAll(c.evicted, OldestFirst(gone));
    Regroup(Values(kept), Values(gone), Reported(c.evicted), c.overwritten);
  }

  lemma EvictSound<V>(cfg: Config<V>, c: Cache<V>)
    requires c.residue <= cfg.maxSize && Distinct(c.items) && Conserved(c)
    ensures Sound(cfg, Evict(cfg, c))
  {
    var budget := cfg.maxSize - c.residue;
    var k := Keep(cfg, c.items, budget);
    TruncateConserves(c, k);
    KeepIsLongest(cfg, c.items, budget, 0);
    DistinctPrefix(c.items, k);
  }

  lemma DistinctPrefix<V>(items: seq<Item<V>>, k: nat)
    requires Distinct(items) && k <= |items|
    ensures Distinct(items[..k])
  {
  }

  lemma TakeOutSound<V>(cfg: Config<V>, c: Cache<V>, i: nat, reason: Reason)
    requires Distinct(c.items) && Conserved(c) && i < |c.items|
    ensures var c' := TakeOut(c, i, reason);
            && Distinct(c'.items) && Conserved(c')
            && CurrentSize(cfg, c') == CurrentSize(cfg, c) - cfg.sizeOf(c.items[i].value)
  {
    ValuesWithout(c.items, i);
    SumWithout(cfg, c.items, i);
    ReportedOne(c.evicted, Event(c.items[i].value, reason));
  }

  /** With the entries of a key gone, a new one can go in front or at the back. */
  lemma DistinctWith<V>(items: seq<Item<V>>, x: Item<V>)
    requires Distinct(items) && forall j :: 0 <= j < |items| ==> !Matches(items[j], x.key, x.conflictKey)
    ensures Distinct([x] + items) && Distinct(items + [x])
  {
  }

  /** Taking one entry out leaves the others in order. */
  lemma WithoutAt<T>(s: seq<T>, i: nat, j: nat)
    requires i < |s| && j < |s| - 1
    ensures Without(s, i)[j] == s[if j < i then j else j + 1]
  {
  }

  lemma WithoutIn<T>(s: seq<T>, i: nat)
    requires i < |s|
    ensures forall x :: x in Without(s, i) ==> x in s
  {
  }

  lemma NoneLeft<V>(items: seq<Item<V>>, pk: Hash, ck: Hash)
    requires Distinct(items)
    ensures var i := Find(items, pk, ck);
            var rest := if i < |items| then Without(items, i) else items;
            Distinct(rest) && forall j :: 0 <= j < |rest| ==> !Matches(rest[j], pk, ck)
  {
    var i := Find(items, pk, ck);
    if i < |items| {
      var rest := Without(items, i);
      forall j | 0 <= j < |rest|
        ensures !Matches(rest[j], pk, ck)
      {
        WithoutAt(items, i, j);
      }
    }
  }

  lemma PushFrontConserves<V>(c: Cache<V>, x: Item<V>)
    requires Conserved(c)
    ensures Conserved(c.(items := [x] + c.items, accepted := c.accepted + multiset{x.value}))
  {
    ValuesConcat([x], c.items);
    ValuesSingle(x);
  }

  lemma OverwriteConserves<V>(c: Cache<V>, i: nat)
    requires Conserved(c) && i < |c.items|
    ensures Conserved(c.(items := Without(c.items, i), overwritten := c.overwritten + multiset{c.items[i].value}))
  {
    ValuesWithout(c.items, i);
  }

  lemma InsertKeeps<V>(cfg: Config<V>, c: Cache<V>, pk: Hash, ck: Hash, v: V)
    requires Distinct(c.items) && Conserved(c)
    ensures Distinct(Insert(cfg, c, pk, ck, v).items) && Conserved(Insert(cfg, c, pk, ck, v))
  {
    var i := Find(c.items, pk, ck);
    var x := Item(pk, ck, v);
    NoneLeft(c.items, pk, ck);
    if i == |c.items| {
      DistinctWith(c.items, x);
      PushFrontConserves(c, x);
    } else {
      DistinctWith(Without(c.items, i), x);
      if cfg.updateInPlace {
        OverwriteConserves(c, i);
        PushFrontConserves(c.(items := Without(c.items, i), overwritten := c.overwritten + multiset{c.items[i].value}), x);
      } else {
        TakeOutSound(cfg, c, i, ConflictEviction);
        PushFrontConserves(TakeOut(c, i, ConflictEviction), x);
      }
    }
  }

  lemma AddSound<V>(cfg: Config<V>, c: Cache<V>, pk: Hash, ck: Hash, v: V)
    requires Sound(cfg, c)
    ensures Sound(cfg, Add(cfg, c, pk, ck, v))
  {
    InsertKeeps(cfg, c, pk, ck, v);
    EvictSound(cfg, Insert(cfg, c, pk, ck, v));
  }

  lemma ReplaceSound<V>(cfg: Config<V>, c: Cache<V>, i: nat, x: Item<V>)
    requires Sound(cfg, c) && i < |c.items| && Matches(c.items[i], x.key, x.conflictKey) && Fits(cfg, c, i, x.value)
    ensures Sound(cfg, c.(items := c.items[i := x],
                          overwritten := c.overwritten + multiset{c.items[i].value},
                          accepted := c.accepted + multiset{x.value}))
  {
    var updated := c.items[i := x];
    assert Without(updated, i) == Without(c.items, i);
    ValuesWithout(c.items, i);
    ValuesWithout(updated, i);
    SumWithout(cfg, c.items, i);
    SumWithout(cfg, updated, i);
  }

  lemma AppendSound<V>(cfg: Config<V>, c: Cache<V>, x: Item<V>)
    requires Sound(cfg, c) && CurrentSize(cfg, c) + cfg.sizeOf(x.value) <= cfg.maxSize
    requires forall j :: 0 <= j < |c.items| ==> !Matches(c.items[j], x.key, x.conflictKey)
    ensures Sound(cfg, c.(items := c.items + [x], accepted := c.accepted + multiset{x.value}))
  {
    DistinctWith(c.items, x);
    ValuesConcat(c.items, [x]);
    ValuesSingle(x);
    SumConcat(cfg, c.items, [x]);
    SumSingle(cfg, x);
  }

  lemma PushBackSound<V>(cfg: Config<V>, c: Cache<V>, pk: Hash, ck: Hash, v: V)
    requires Sound(cfg, c)
    ensures Sound(cfg, PushBack(cfg, c, pk, ck, v))
  {
    var i := Find(c.items, pk, ck);
    var x := Item(pk, ck, v);
    if Fits(cfg, c, i, v) {
      if i < |c.items| && cfg.updateInPlace {
        ReplaceSound(cfg, c, i, x);
      } else {
        NoneLeft(c.items, pk, ck);
        if i < |c.items| {
          TakeOutSound(cfg, c, i, ConflictEviction);
          AppendSound(cfg, TakeOut(c, i, ConflictEviction), x);
        } else {
          AppendSound(cfg, c, x);
        }
      }
    }
  }

  /** Moving an entry to the front changes neither the values nor their sizes. */
  lemma MovedToFront<V>(cfg: Config<V>, items: seq<Item<V>>, i: nat)
    requires i < |items|
    ensures Values([items[i]] + Without(items, i)) == Values(items)
    ensures Sum(cfg, [items[i]] + Without(items, i)) == Sum(cfg, items)
  {
    var x, rest := items[i], Without(items, i);
    ValuesWithout(items, i);
    ValuesConcat([x], rest);
    ValuesSingle(x);
    SumWithout(cfg, items, i);
    SumConcat(cfg, [x], rest);
    SumSingle(cfg, x);
  }

  lemma TouchSound<V>(cfg: Config<V>, c: Cache<V>, pk: Hash, ck: Hash)
    requires Sound(cfg, c)
    ensures Sound(cfg, Touch(c, pk, ck)) && CurrentSize(cfg, Touch(c, pk, ck)) == CurrentSize(cfg, c)
  {
    var i := Find(c.items, pk, ck);
    if i < |c.items| {
      NoneLeft(c.items, pk, ck);
      DistinctWith(Without(c.items, i), c.items[i]);
      MovedToFront(cfg, c.items, i);
    }
  }

  lemma RemoveSound<V>(cfg: Config<V>, c: Cache<V>, pk: Hash, ck: Hash)
    requires Sound(cfg, c)
    ensures Sound(cfg, Remove(c, pk, ck))
  {
    var i := Find(c.items, pk, ck);
    if i < |c.items| {
      TakeOutSound(cfg, c, i, ManualEviction);
    }
  }

  lemma RemoveOldestSound<V>(cfg: Config<V>, c: Cache<V>)
    requires Sound(cfg, c)
    ensures Sound(cfg, RemoveOldest(c))
  {
    if c.items != [] {
      TakeOutSound(cfg, c, |c.items| - 1, SizeEviction);
    }
  }

  lemma PurgeSound<V>(cfg: Config<V>, c: Cache<V>, order: seq<V>)
    requires Sound(cfg, c) && multiset(order) == Values(c.items)
    ensures Sound(cfg, Purge(cfg, c, order))
  {
    ReportedAll(c.evicted, order);
    assert ItemValues<V>([]) == [];
  }

  lemma ApplySound<V>(cfg: Config<V>, c: Cache<V>, op: Op<V>)
    requires Sound(cfg, c) && Enabled(cfg, c, op)
    ensures Sound(cfg, Apply(cfg, c, op))
  {
    match op
    case DoAdd(pk, ck, v) => AddSound(cfg, c, pk, ck, v);
    case DoPushBack(pk, ck, v) => PushBackSound(cfg, c, pk, ck, v);
    case DoTouch(pk, ck) => TouchSound(cfg, c, pk, ck);
    case DoRemove(pk, ck) => RemoveSound(cfg, c, pk, ck);
    case DoRemoveOldest => RemoveOldestSound(cfg, c);
    case DoPurge(order) => PurgeSound(cfg, c, order);
  }

  /** A history of operations, starting from a new cache. */
  ghost predicate IsRun<V>(cfg: Config<V>, states: seq<Cache<V>>, ops: seq<Op<V>>) {
    && |states| == |ops| + 1 && states[0] == Empty()
    && forall k :: 0 <= k < |ops| ==> Follows(cfg, states, ops, k)
  }

  ghost predicate Follows<V>(cfg: Config<V>, states: seq<Cache<V>>, ops: seq<Op<V>>, k: nat)
    requires k < |ops| < |states|
  {
    Enabled(cfg, states[k], ops[k]) && states[k + 1] == Apply(cfg, states[k], ops[k])
  }

  /** After every history of operations: no key has two entries, the size counter (the held sizes
      plus what purges left behind) is within the bound, and every accepted value is held, was
      reported once, or was overwritten in place. */
  lemma {:induction false} EveryRunIsSound<V>(cfg: Config<V>, states: seq<Cache<V>>, ops: seq<Op<V>>, k: nat)
    requires IsRun(cfg, states, ops) && k < |states|
    ensures Sound(cfg, states[k])
  {
    if k == 0 {
      assert ItemValues<V>([]) == [] && EventValues<V>([]) == [];
    } else {
      EveryRunIsSound(cfg, states, ops, k - 1);
      assert Follows(cfg, states, ops, k - 1);
      ApplySound(cfg, states[k - 1], ops[k - 1]);
    }
  }

  /** `Add` evicts the shortest oldest suffix that restores the bound: what it keeps fits, and
      keeping any more of the least recently used entries would not. */
  lemma AddEvictsShortestSuffix<V>(cfg: Config<V>, c: Cache<V>, pk: Hash, ck: Hash, v: V, j: nat)
    requires c.residue <= cfg.maxSize
    ensures var before, after := Insert(cfg, c, pk, ck, v).items, Add(cfg, c, pk, ck, v).items;
            && after <= before
            && Sum(cfg, after) + c.residue <= cfg.maxSize
            && (|after| < j <= |before| ==> Sum(cfg, before[..j]) + c.residue > cfg.maxSize)
  {
    var before := Insert(cfg, c, pk, ck, v).items;
    KeepIsLongest(cfg, before, cfg.maxSize - c.residue, if j <= |before| then j else 0);
  }

  /** The entry just added survives its own `Add` exactly when it fits beside the purge residue. */
  lemma AddedEntrySurvives<V>(cfg: Config<V>, c: Cache<V>, pk: Hash, ck: Hash, v: V)
    requires c.residue <= cfg.maxSize
    ensures var after := Add(cfg, c, pk, ck, v).items;
            if cfg.sizeOf(v) + c.residue <= cfg.maxSize then |after| > 0 && after[0] == Item(pk, ck, v)
            else after == []
  {
    KeepsFirst(cfg, Insert(cfg, c, pk, ck, v).items, cfg.maxSize - c.residue);
  }

  lemma KeepsFirst<V>(cfg: Config<V>, items: seq<Item<V>>, budget: nat)
    requires items != []
    ensures Keep(cfg, items, budget) > 0 <==> cfg.sizeOf(items[0].value) <= budget
  {
    var k := Keep(cfg, items, budget);
    KeepIsLongest(cfg, items, budget, 1);
    FirstSize(cfg, items, 1);
    if k > 0 {
      FirstSize(cfg, items, k);
    }
  }

  lemma FirstSize<V>(cfg: Config<V>, items: seq<Item<V>>, k: nat)
    requires 0 < k <= |items|
    ensures Sum(cfg, items[..k]) == cfg.sizeOf(items[0].value) + Sum(cfg, items[1..k])
  {
    assert items[..k] == [items[0]] + items[1..k];
    SumConcat(cfg, [items[0]], items[1..k]);
    SumSingle(cfg, items[0]);
  }

  // ---------------------------------------------------------------- what each operation does, for the caller

  /** The entries of all other keys, in their order. */
  ghost function Others<V>(items: seq<Item<V>>, pk: Hash, ck: Hash): seq<Item<V>> {
    if items == [] then []
    else
      var n := |items| - 1;
      Others(items[..n], pk, ck) + (if Matches(items[n], pk, ck) then [] else [items[n]])
  }

  lemma {:induction false} OthersConcat<V>(a: seq<Item<V>>, b: seq<Item<V>>, pk: Hash, ck: Hash)
    ensures Others(a + b, pk, ck) == Others(a, pk, ck) + Others(b, pk, ck)
  {
    if b == [] {
      assert a + b == a;
    } else {
      OthersConcat(a, b[..|b| - 1], pk, ck);
      assert (a + b)[..|a + b| - 1] == a + b[..|b| - 1];
    }
  }

  lemma {:induction false} OthersAll<V>(items: seq<Item<V>>, pk: Hash, ck: Hash)
    requires forall j :: 0 <= j < |items| ==> !Matches(items[j], pk, ck)
    ensures Others(items, pk, ck) == items
  {
    if items != [] {
      OthersAll(items[..|items| - 1], pk, ck);
    }
  }

  lemma OthersNone<V>(x: Item<V>, pk: Hash, ck: Hash)
    requires Matches(x, pk, ck)
    ensures Others([x], pk, ck) == []
  {
    assert [x][..0] == [];
  }

  lemma OthersAround<V>(a: seq<Item<V>>, x: Item<V>, b: seq<Item<V>>, pk: Hash, ck: Hash)
    requires Matches(x, pk, ck) && Others(a, pk, ck) == a && Others(b, pk, ck) == b
    ensures Others(a + ([x] + b), pk, ck) == a + b
  {
    OthersConcat(a, [x] + b, pk, ck);
    OthersConcat([x], b, pk, ck);
    OthersNone(x, pk, ck);
  }

  lemma {:induction false} OthersOf<V>(items: seq<Item<V>>, i: nat, pk: Hash, ck: Hash)
    requires i < |items| && forall j :: 0 <= j < |items| ==> (Matches(items[j], pk, ck) <==> j == i)
    ensures Others(items, pk, ck) == Without(items, i)
  {
    var a, b := items[..i], items[i + 1..];
    OthersAll(a, pk, ck);
    OthersAll(b, pk, ck);
    OthersAround(a, items[i], b, pk, ck);
    assert items == a + ([items[i]] + b);
  }

  /** Taking the entry of a key out leaves all the others. */
  lemma {:induction false} WithoutIsOthers<V>(items: seq<Item<V>>, pk: Hash, ck: Hash)
    requires Distinct(items)
    ensures var i := Find(items, pk, ck);
            Others(items, pk, ck) == if i < |items| then Without(items, i) else items
  {
    HeldAt(items, pk, ck);
    if Find(items, pk, ck) < |items| {
      OthersOf(items, Find(items, pk, ck), pk, ck);
    } else {
      OthersAll(items, pk, ck);
    }
  }

  /** The values under a key: one, or none. */
  ghost function Held<V>(items: seq<Item<V>>, pk: Hash, ck: Hash): seq<V> {
    var i := Find(items, pk, ck);
    if i < |items| then [items[i].value] else []
  }

  /** One report for each of these values. */
  ghost predicate ReportsEach<V>(before: seq<Event<V>>, after: seq<Event<V>>, values: seq<V>, reason: Reason) {
    && |after| == |before| + |values| && before <= after
    && forall j :: 0 <= j < |values| ==> after[|before| + j] == Event(values[j], reason)
  }

  /** The old value of a key that is given a new one: overwritten in place, or reported as a conflict. */
  ghost predicate Replaces<V>(cfg: Config<V>, c: Cache<V>, held: seq<V>, v: V, evicted: seq<Event<V>>, r: Cache<V>) {
    && r.accepted == c.accepted + multiset{v}
    && r.overwritten == c.overwritten + (if cfg.updateInPlace then multiset(held) else multiset{})
    && ReportsEach(c.evicted, evicted, if cfg.updateInPlace then [] else held, ConflictEviction)
  }

  /** `Add`: the new entry in front of all others, of which the longest beginning within the bound stays, and the
      rest is reported from the oldest on. */
  ghost predicate DidAdd<V>(cfg: Config<V>, c: Cache<V>, pk: Hash, ck: Hash, v: V, between: seq<Event<V>>, r: Cache<V>) {
    var all := [Item(pk, ck, v)] + Others(c.items, pk, ck);
    && Replaces(cfg, c, Held(c.items, pk, ck), v, between, r)
    && r.items <= all && Sum(cfg, r.items) + c.residue <= cfg.maxSize
    && (|r.items| < |all| ==> Sum(cfg, all[..|r.items| + 1]) + c.residue > cfg.maxSize)
    && ReportsEach(between, r.evicted, OldestFirst(all[|r.items|..]), SizeEviction)
    && r.residue == c.residue
  }

  /** `PushBack`: nothing if the cache would exceed its bound; otherwise the value takes the place of the old one,
      or goes to the back, behind all others. */
  ghost predicate DidPushBack<V>(cfg: Config<V>, c: Cache<V>, pk: Hash, ck: Hash, v: V, r: Cache<V>) {
    var held := Held(c.items, pk, ck);
    var freed := if held == [] then 0 else cfg.sizeOf(held[0]);
    if Sum(cfg, c.items) + c.residue + cfg.sizeOf(v) > cfg.maxSize + freed then r == c
    else
      && Replaces(cfg, c, held, v, r.evicted, r) && r.residue == c.residue
      && if held != [] && cfg.updateInPlace
         then |r.items| == |c.items| && forall j :: 0 <= j < |c.items| ==>
                r.items[j] == if Matches(c.items[j], pk, ck) then Item(pk, ck, v) else c.items[j]
         else r.items == Others(c.items, pk, ck) + [Item(pk, ck, v)]
  }

  /** The operations that add nothing. */
  ghost predicate DidTake<V>(cfg: Config<V>, c: Cache<V>, op: Op<V>, r: Cache<V>) {
    && r.accepted == c.accepted && r.overwritten == c.overwritten
    && match op
       case DoTouch(pk, ck) =>
         && r.evicted == c.evicted && r.residue == c.residue
         && var held := Held(c.items, pk, ck);
            r.items == if held == [] then c.items else [Item(pk, ck, held[0])] + Others(c.items, pk, ck)
       case DoRemove(pk, ck) =>
         && r.items == Others(c.items, pk, ck) && r.residue == c.residue
         && ReportsEach(c.evicted, r.evicted, Held(c.items, pk, ck), ManualEviction)
       case DoRemoveOldest =>
         && r.items == (if c.items == [] then [] else c.items[..|c.items| - 1]) && r.residue == c.residue
         && ReportsEach(c.evicted, r.evicted, if c.items == [] then [] else [c.items[|c.items| - 1].value], SizeEviction)
       case DoPurge(order) =>
         && r.items == [] && multiset(order) == Values(c.items) && ReportsEach(c.evicted, r.evicted, order, SizeEviction)
         && r.residue == Sum(cfg, c.items) + c.residue
       case _ => false
  }

  lemma {:induction false} HeldAt<V>(items: seq<Item<V>>, pk: Hash, ck: Hash)
    requires Distinct(items)
    ensures var i := Find(items, pk, ck);
            forall j :: 0 <= j < |items| ==> (Matches(items[j], pk, ck) <==> j == i)
  {
  }

  lemma ReportsNext<V>(events: seq<Event<V>>, x: V, reason: Reason)
    ensures ReportsEach(events, events, [], reason) && ReportsEach(events, events + [Event(x, reason)], [x], reason)
  {
  }

  /** Taking the entry of a key out, as a conflict or in place, is leaving the others. */
  lemma {:induction false} ReplacesHeld<V>(cfg: Config<V>, c: Cache<V>, pk: Hash, ck: Hash, v: V, r: Cache<V>)
    requires var i := Find(c.items, pk, ck);
             && r.accepted == c.accepted + multiset{v}
             && (if i == |c.items| then r.evicted == c.evicted && r.overwritten == c.overwritten
                 else if cfg.updateInPlace
                 then r.evicted == c.evicted && r.overwritten == c.overwritten + multiset{c.items[i].value}
                 else r.evicted == c.evicted + [Event(c.items[i].value, ConflictEviction)] && r.overwritten == c.overwritten)
    ensures Replaces(cfg, c, Held(c.items, pk, ck), v, r.evicted, r)
  {
    ReportsNext(c.evicted, if Held(c.items, pk, ck) == [] then v else Held(c.items, pk, ck)[0], ConflictEviction);
  }

  lemma {:induction false} InsertExactly<V>(cfg: Config<V>, c: Cache<V>, pk: Hash, ck: Hash, v: V)
    requires Distinct(c.items)
    ensures var mid := Insert(cfg, c, pk, ck, v);
            && mid.items == [Item(pk, ck, v)] + Others(c.items, pk, ck) && mid.residue == c.residue
            && Replaces(cfg, c, Held(c.items, pk, ck), v, mid.evicted, mid)
  {
    WithoutIsOthers(c.items, pk, ck);
    ReplacesHeld(cfg, c, pk, ck, v, Insert(cfg, c, pk, ck, v));
  }

  lemma {:induction false} EvictExactly<V>(cfg: Config<V>, c: Cache<V>)
    requires c.residue <= cfg.maxSize
    ensures var r := Evict(cfg, c);
            && r.items <= c.items && Sum(cfg, r.items) + c.residue <= cfg.maxSize
            && (|r.items| < |c.items| ==> Sum(cfg, c.items[..|r.items| + 1]) + c.residue > cfg.maxSize)
            && ReportsEach(c.evicted, r.evicted, OldestFirst(c.items[|r.items|..]), SizeEviction)
            && r == c.(items := r.items, evicted := r.evicted)
  {
    var k := Keep(cfg, c.items, cfg.maxSize - c.residue);
    KeepIsLongest(cfg, c.items, cfg.maxSize - c.residue, if k < |c.items| then k + 1 else k);
  }

  lemma {:induction false} AddExactly<V>(cfg: Config<V>, c: Cache<V>, pk: Hash, ck: Hash, v: V)
    requires Distinct(c.items) && c.residue <= cfg.maxSize
    ensures DidAdd(cfg, c, pk, ck, v, Insert(cfg, c, pk, ck, v).evicted, Add(cfg, c, pk, ck, v))
  {
    InsertExactly(cfg, c, pk, ck, v);
    EvictExactly(cfg, Insert(cfg, c, pk, ck, v));
  }

  /** The capacity check, with what it frees. */
  lemma {:induction false} FitsExactly<V>(cfg: Config<V>, c: Cache<V>, pk: Hash, ck: Hash, v: V)
    ensures var held := Held(c.items, pk, ck);
            Fits(cfg, c, Find(c.items, pk, ck), v) <==>
            Sum(cfg, c.items) + c.residue + cfg.sizeOf(v) <= cfg.maxSize + (if held == [] then 0 else cfg.sizeOf(held[0]))
  {
  }

  lemma {:induction false} UpdatesInPlace<V>(items: seq<Item<V>>, pk: Hash, ck: Hash, v: V)
    requires Distinct(items) && Held(items, pk, ck) != []
    ensures var r := items[Find(items, pk, ck) := Item(pk, ck, v)];
            forall j :: 0 <= j < |items| ==> r[j] == if Matches(items[j], pk, ck) then Item(pk, ck, v) else items[j]
  {
    HeldAt(items, pk, ck);
  }

  lemma {:induction false} AppendsExactly<V>(cfg: Config<V>, c: Cache<V>, pk: Hash, ck: Hash, v: V)
    requires Distinct(c.items) && Fits(cfg, c, Find(c.items, pk, ck), v) && (Held(c.items, pk, ck) == [] || !cfg.updateInPlace)
    ensures var r := PushBack(cfg, c, pk, ck, v);
            && r.items == Others(c.items, pk, ck) + [Item(pk, ck, v)] && r.residue == c.residue
            && Replaces(cfg, c, Held(c.items, pk, ck), v, r.evicted, r)
  {
    WithoutIsOthers(c.items, pk, ck);
    ReplacesHeld(cfg, c, pk, ck, v, PushBack(cfg, c, pk, ck, v));
  }

  lemma {:induction false} PushBackExactly<V>(cfg: Config<V>, c: Cache<V>, pk: Hash, ck: Hash, v: V)
    requires Distinct(c.items)
    ensures DidPushBack(cfg, c, pk, ck, v, PushBack(cfg, c, pk, ck, v))
  {
    FitsExactly(cfg, c, pk, ck, v);
    if Fits(cfg, c, Find(c.items, pk, ck), v) {
      if Held(c.items, pk, ck) != [] && cfg.updateInPlace {
        UpdatesInPlace(c.items, pk, ck, v);
      } else {
        AppendsExactly(cfg, c, pk, ck, v);
      }
    }
  }

  lemma {:induction false} TouchExactly<V>(cfg: Config<V>, c: Cache<V>, pk: Hash, ck: Hash)
    requires Distinct(c.items)
    ensures DidTake(cfg, c, DoTouch(pk, ck), Touch(c, pk, ck))
  {
    WithoutIsOthers(c.items, pk, ck);
  }

  lemma {:induction false} RemoveExactly<V>(cfg: Config<V>, c: Cache<V>, pk: Hash, ck: Hash)
    requires Distinct(c.items)
    ensures DidTake(cfg, c, DoRemove(pk, ck), Remove(c, pk, ck))
  {
    WithoutIsOthers(c.items, pk, ck);
  }

  lemma {:induction false} RemoveOldestExactly<V>(cfg: Config<V>, c: Cache<V>)
    ensures DidTake(cfg, c, DoRemoveOldest, RemoveOldest(c))
  {
    if c.items != [] {
      LastOut(c.items);
    }
  }

  /** Each operation on a cache without double keys does exactly this, and reports each value that leaves with the
      reason for which it leaves. */
  lemma {:induction false} ApplyExactly<V>(cfg: Config<V>, c: Cache<V>, op: Op<V>) returns (between: seq<Event<V>>)
    requires Distinct(c.items) && Enabled(cfg, c, op)
    ensures match op
            case DoAdd(pk, ck, v) => DidAdd(cfg, c, pk, ck, v, between, Apply(cfg, c, op))
            case DoPushBack(pk, ck, v) => DidPushBack(cfg, c, pk, ck, v, Apply(cfg, c, op))
            case _ => DidTake(cfg, c, op, Apply(cfg, c, op))
  {
    between := [];
    match op
    case DoAdd(pk, ck, v) =>
      AddExactly(cfg, c, pk, ck, v);
      between := Insert(cfg, c, pk, ck, v).evicted;
    case DoPushBack(pk, ck, v) => PushBackExactly(cfg, c, pk, ck, v);
    case DoTouch(pk, ck) => TouchExactly(cfg, c, pk, ck);
    case DoRemove(pk, ck) => RemoveExactly(cfg, c, pk, ck);
    case DoRemoveOldest => RemoveOldestExactly(cfg, c);
    case DoPurge(_) =>
  }
}
