/** The bounded stack (pkg/util/boundedstack/boundedstack.go): a ring buffer that drops its oldest
    item when full, and a token channel that wakes the goroutines blocked in `Recv`. */
module BoundedStack {
  import opened Wrappers

  // ---------------------------------------------------------------- the stack as a sequence

  /** The newest `capacity` items of a sequence that ends with the newest one. */
  function Newest<T>(s: seq<T>, capacity: nat): seq<T> {
    if |s| <= capacity then s else s[|s| - capacity..]
  }

  // ---------------------------------------------------------------- the ring buffer

  /** How many pushes ago slot `j` was last written, when `top` was written last. */
  function Age(j: nat, top: nat, n: nat): nat
    requires j < n && top < n
  {
    if j <= top then top - j else top + n - j
  }

  /** The slot written `age` pushes ago. */
  function Slot(age: nat, top: nat, n: nat): (j: nat)
    requires age < n && top < n
    ensures j < n && Age(j, top, n) == age
  {
    if age <= top then top - age else top + n - age
  }

  /** What the buffer denotes: its live slots, oldest first. */
  function Live<T>(buffer: seq<T>, top: nat, size: nat): (s: seq<T>)
    requires top < |buffer| && size <= |buffer|
    ensures |s| == size
  {
    seq(size, i requires 0 <= i < size => buffer[Slot(size - 1 - i, top, |buffer|)])
  }

  /** Every slot outside the live window holds the zero value. */
  ghost predicate ZeroOutside<T>(buffer: seq<T>, top: nat, size: nat, zero: T)
    requires top < |buffer|
  {
    forall j :: 0 <= j < |buffer| && Age(j, top, |buffer|) >= size ==> buffer[j] == zero
  }

  lemma ModuloIsWrap(x: nat, n: nat)
    requires 0 < n && x < 2 * n
    ensures x % n == if x < n then x else x - n
  {
    if n <= x {
      assert x == n + (x - n);
    }
  }

  lemma LivePush<T>(buffer: seq<T>, top: nat, size: nat, x: T)
    requires top < |buffer| && size <= |buffer|
    ensures var n := |buffer|;
            var top' := if top + 1 < n then top + 1 else 0;
            var size' := if size < n then size + 1 else n;
            Live(buffer[top' := x], top', size') == Newest(Live(buffer, top, size) + [x], n)
  {
    var n := |buffer|;
    var top' := if top + 1 < n then top + 1 else 0;
    var size' := if size < n then size + 1 else n;
    var after, spec := Live(buffer[top' := x], top', size'), Newest(Live(buffer, top, size) + [x], n);
    forall i | 0 <= i < size'
      ensures after[i] == spec[i]
    {
      var age := size' - 1 - i;
      var pushed := Live(buffer, top, size) + [x];
      assert spec[i] == pushed[i + size + 1 - size'];
      assert after[i] == buffer[top' := x][Slot(age, top', n)];
      if age == 0 {
        assert Slot(age, top', n) == top';
      } else {
        assert Slot(age, top', n) == Slot(age - 1, top, n) != top';
        assert pushed[i + size + 1 - size'] == Live(buffer, top, size)[size - age];
      }
    }
    assert after == spec;
  }

  lemma PushKeepsZero<T>(buffer: seq<T>, top: nat, size: nat, x: T, zero: T)
    requires top < |buffer| && size <= |buffer| && ZeroOutside(buffer, top, size, zero)
    ensures var n := |buffer|;
            var top' := if top + 1 < n then top + 1 else 0;
            ZeroOutside(buffer[top' := x], top', if size < n then size + 1 else n, zero)
  {
    var n := |buffer|;
    var top' := if top + 1 < n then top + 1 else 0;
    forall j | 0 <= j < n && Age(j, top', n) >= (if size < n then size + 1 else n)
      ensures buffer[top' := x][j] == zero
    {
      assert Age(j, top, n) == Age(j, top', n) - 1;
    }
  }

  lemma LivePop<T>(buffer: seq<T>, top: nat, size: nat, zero: T)
    requires top < |buffer| && 0 < size <= |buffer| && ZeroOutside(buffer, top, size, zero)
    ensures var n := |buffer|;
            var top' := if top > 0 then top - 1 else n - 1;
            var live := Live(buffer, top, size);
            && buffer[top] == live[size - 1]
            && Live(buffer[top := zero], top', size - 1) == live[..size - 1]
            && ZeroOutside(buffer[top := zero], top', size - 1, zero)
  {
    var n := |buffer|;
    var top' := if top > 0 then top - 1 else n - 1;
    var after, spec := Live(buffer[top := zero], top', size - 1), Live(buffer, top, size)[..size - 1];
    forall i | 0 <= i < size - 1
      ensures after[i] == spec[i]
    {
      assert Slot(size - 2 - i, top', n) == Slot(size - 1 - i, top, n) != top;
    }
    assert after == spec;
    assert Slot(0, top, n) == top;
    forall j | 0 <= j < n && Age(j, top', n) >= size - 1
      ensures buffer[top := zero][j] == zero
    {
      assert j != top ==> Age(j, top, n) == Age(j, top', n) + 1;
    }
  }

  class BoundedStack<T> {
    const zero: T
    const buffer: array<T>
    var top: nat
    var size: nat

    ghost predicate Valid()
      reads this, buffer
    {
      && top < buffer.Length && size <= buffer.Length
      && ZeroOutside(buffer[..], top, size, zero)
    }

    ghost function Contents(): seq<T>
      requires Valid()
      reads this, buffer
    {
      Live(buffer[..], top, size)
    }

    constructor (capacity: nat, zero: T)
      requires capacity > 0
      ensures Valid() && fresh(buffer) && buffer.Length == capacity && Contents() == []
    {
      this.zero := zero;
      buffer := new T[capacity](_ => zero);
      top, size := 0, 0;
    }

    /** Keeps the newest items that fit, the pushed one last. */
    method Push(item: T)
      requires Valid()
      modifies this, buffer
      ensures Valid() && Contents() == Newest(old(Contents()) + [item], buffer.Length)
    {
      ghost var before := buffer[..];
      LivePush(before, top, size, item);
      PushKeepsZero(before, top, size, item, zero);
      ModuloIsWrap(top + 1, buffer.Length);
      top := (top + 1) % buffer.Length;
      buffer[top] := item;
      assert buffer[..] == before[top := item];
      size := if size + 1 < buffer.Length then size + 1 else buffer.Length;
    }

    /** Takes the newest item; `ok` is false exactly when there is none. */
    method Pop() returns (item: T, ok: bool)
      requires Valid()
      modifies this, buffer
      ensures Valid()
      ensures ok <==> old(Contents()) != []
      ensures ok ==> old(Contents()) == Contents() + [item]
      ensures !ok ==> Contents() == old(Contents()) && item == zero
    {
      if size == 0 {
        return zero, false;
      }
      LivePop(buffer[..], top, size, zero);
      ModuloIsWrap(top - 1 + buffer.Length, buffer.Length);
      ghost var before := buffer[..];
      item, ok := buffer[top], true;
      buffer[top] := zero;
      assert buffer[..] == before[top := zero];
      top := (top - 1 + buffer.Length) % buffer.Length;
      size := size - 1;
    }
  }

  /** A capacity that is not positive is an error. */
  method New<T>(capacity: int, zero: T) returns (r: Option<BoundedStack<T>>)
    ensures r.Some? <==> capacity > 0
    ensures r.Some? ==> fresh(r.value) && r.value.Valid() && r.value.buffer.Length == capacity && r.value.Contents() == []
  {
    if capacity <= 0 {
      return None;
    }
    var stack := new BoundedStack(capacity, zero);
    return Some(stack);
  }
}

/** `Push` and `Recv` run by any number of goroutines. A pusher is in flight between its `push` and
    its notification, a receiver between taking a token and its `pop`; the ring buffer appears as
    the sequence it denotes. */
module BoundedStackWakeups {
  import opened BoundedStack

  type Goroutine = nat

  datatype State<T> = State(
    capacity: nat,
    contents: seq<T>,
    tokens: nat,
    notifying: set<Goroutine>,
    holding: set<Goroutine>,
    pushed: multiset<T>,
    received: multiset<T>,
    evicted: multiset<T>)

  datatype Step<T> =
    | Push(g: Goroutine, item: T)
    | Notify(g: Goroutine)
    | TakeToken(g: Goroutine)
    | Pop(g: Goroutine)

  ghost predicate Init<T>(s: State<T>) {
    && s.capacity > 0 && s.contents == [] && s.tokens == 0 && s.notifying == {} && s.holding == {}
    && s.pushed == s.received == s.evicted == multiset{}
  }

  predicate Enabled<T>(s: State<T>, step: Step<T>) {
    match step
    case Push(g, _) => g !in s.notifying && g !in s.holding
    case Notify(g) => g in s.notifying
    case TakeToken(g) => g !in s.notifying && g !in s.holding && s.tokens > 0
    case Pop(g) => g in s.holding
  }

  function Apply<T>(s: State<T>, step: Step<T>): State<T>
    requires Enabled(s, step)
  {
    match step
    case Push(g, item) =>
      var all := s.contents + [item];
      var kept := Newest(all, s.capacity);
      s.(contents := kept,
         notifying := s.notifying + {g},
         pushed := s.pushed + multiset{item},
         evicted := s.evicted + multiset(all[..|all| - |kept|]))
    case Notify(g) =>
      // The send does not block: a full channel keeps its tokens.
      s.(notifying := s.notifying - {g},
         tokens := if s.tokens < s.capacity then s.tokens + 1 else s.tokens)
    case TakeToken(g) =>
      s.(tokens := s.tokens - 1, holding := s.holding + {g})
    case Pop(g) =>
      var n := |s.contents|;
      if n == 0 then s.(holding := s.holding - {g})
      else s.(holding := s.holding - {g},
              contents := s.contents[..n - 1],
              received := s.received + multiset{s.contents[n - 1]})
  }

  ghost predicate Follows<T>(run: seq<State<T>>, steps: seq<Step<T>>, k: nat)
    requires k < |steps| < |run|
  {
    Enabled(run[k], steps[k]) && run[k + 1] == Apply(run[k], steps[k])
  }

  ghost predicate IsRun<T>(run: seq<State<T>>, steps: seq<Step<T>>) {
    |run| == |steps| + 1 && Init(run[0]) && forall k :: 0 <= k < |steps| ==> Follows(run, steps, k)
  }

  /** Every item on the stack is matched by a token or by somebody in flight who will make or use one. */
  ghost predicate TokensCoverItems<T>(s: State<T>) {
    && |s.contents| <= s.capacity && s.tokens <= s.capacity
    && |s.contents| <= s.tokens + |s.notifying| + |s.holding|
  }

  ghost predicate Conserved<T>(s: State<T>) {
    s.pushed == multiset(s.contents) + s.received + s.evicted
  }

  ghost predicate Inv<T>(s: State<T>) {
    TokensCoverItems(s) && Conserved(s)
  }

  /** Dropping the oldest items from a sequence splits its items between the two parts. */
  lemma NewestSplits<T>(s: seq<T>, item: T, capacity: nat)
    ensures var all := s + [item];
            var kept := Newest(all, capacity);
            multiset(all[..|all| - |kept|]) + multiset(kept) == multiset(s) + multiset{item}
  {
    var all := s + [item];
    var kept := Newest(all, capacity);
    assert all == all[..|all| - |kept|] + kept;
    assert multiset(all) == multiset(s) + multiset{item};
  }

  lemma PushConserves<T>(s: State<T>, step: Step<T>)
    requires Conserved(s) && Enabled(s, step) && step.Push?
    ensures Conserved(Apply(s, step))
  {
    NewestSplits(s.contents, step.item, s.capacity);
    var s' := Apply(s, step);
    var all := s.contents + [step.item];
    var dropped := multiset(all[..|all| - |s'.contents|]);
    calc {
      multiset(s'.contents) + s'.received + s'.evicted;
      (dropped + multiset(s'.contents)) + s.received + s.evicted;
      (multiset(s.contents) + multiset{step.item}) + s.received + s.evicted;
      s'.pushed;
    }
  }

  lemma PopConserves<T>(s: State<T>, step: Step<T>)
    requires Conserved(s) && Enabled(s, step) && step.Pop?
    ensures Conserved(Apply(s, step))
  {
    var n := |s.contents|;
    if n > 0 {
      assert s.contents == s.contents[..n - 1] + [s.contents[n - 1]];
      assert multiset(s.contents) == multiset(s.contents[..n - 1]) + multiset{s.contents[n - 1]};
    }
  }

  lemma TokensStep<T>(s: State<T>, step: Step<T>)
    requires TokensCoverItems(s) && Enabled(s, step)
    ensures TokensCoverItems(Apply(s, step))
  {
  }

  lemma StepInv<T>(s: State<T>, step: Step<T>)
    requires Inv(s) && Enabled(s, step)
    ensures Inv(Apply(s, step))
  {
    TokensStep(s, step);
    match step
    case Push(_, _) => PushConserves(s, step);
    case Pop(_) => PopConserves(s, step);
    case _ =>
  }

  lemma {:induction false} RunInv<T>(run: seq<State<T>>, steps: seq<Step<T>>, k: nat)
    requires IsRun(run, steps) && k < |run|
    ensures Inv(run[k])
  {
    if k > 0 {
      RunInv(run, steps, k - 1);
      assert Follows(run, steps, k - 1);
      StepInv(run[k - 1], steps[k - 1]);
    }
  }

  /** No lost wake-up: in every run, whenever the stack is not empty, either a token is waiting, so
      that any receiver blocked in `Recv` can go on, or a goroutine is in flight. */
  lemma NoLostWakeup<T>(run: seq<State<T>>, steps: seq<Step<T>>, k: nat, receiver: Goroutine)
    requires IsRun(run, steps) && k < |run|
    requires run[k].contents != [] && run[k].notifying == {} && run[k].holding == {}
    ensures |run[k].contents| <= run[k].tokens
    ensures Enabled(run[k], TakeToken(receiver))
  {
    RunInv(run, steps, k);
  }

  /** Every item pushed is on the stack, was received, or was evicted, counted with multiplicity; in
      particular an item pushed once is received at most once, and never both received and evicted. */
  lemma EveryPushAccountedFor<T>(run: seq<State<T>>, steps: seq<Step<T>>, k: nat, item: T)
    requires IsRun(run, steps) && k < |run|
    ensures run[k].pushed[item] == multiset(run[k].contents)[item] + run[k].received[item] + run[k].evicted[item]
    ensures run[k].pushed[item] == 1 && item in run[k].received ==>
              run[k].received[item] == 1 && item !in run[k].evicted && item !in run[k].contents
  {
    RunInv(run, steps, k);
  }

  /** What a step receives: nothing, or one item. */
  function Receives<T>(s: State<T>, step: Step<T>): seq<T> {
    if step.Pop? && s.contents != [] then [s.contents[|s.contents| - 1]] else []
  }

  /** The items received in the steps from a to b, in this order. */
  function ReceivedBetween<T>(run: seq<State<T>>, steps: seq<Step<T>>, a: nat, b: nat): seq<T>
    requires a <= b <= |steps| < |run|
  {
    if a == b then [] else ReceivedBetween(run, steps, a, b - 1) + Receives(run[b - 1], steps[b - 1])
  }

  function Reversed<T>(s: seq<T>): seq<T> {
    if s == [] then [] else [s[|s| - 1]] + Reversed(s[..|s| - 1])
  }

  lemma StepReceives<T>(s: State<T>, step: Step<T>)
    requires Enabled(s, step) && !step.Push?
    ensures s.contents == Apply(s, step).contents + Receives(s, step)
  {
  }

  lemma Lifo<T>(first: seq<T>, middle: seq<T>, last: seq<T>, items: seq<T>, got: seq<T>)
    requires first == middle + Reversed(items) && middle == last + got && |got| <= 1
    ensures first == last + Reversed(items + got)
  {
    if got == [] {
      assert items + got == items && last + got == last;
    } else {
      assert (items + got)[..|items|] == items;
      assert last + got + Reversed(items) == last + (got + Reversed(items));
    }
  }

  ghost predicate NoPush<T>(steps: seq<Step<T>>, a: nat, b: nat)
    requires a <= b <= |steps|
  {
    forall k :: a <= k < b ==> !steps[k].Push?
  }

  /** Last in, first out: while nothing is pushed, the receivers together take the items off the stack
      from the newest to the oldest, and what is left is what was below. */
  lemma {:induction false} ReceivesAreLifo<T>(run: seq<State<T>>, steps: seq<Step<T>>, a: nat, b: nat)
    requires IsRun(run, steps) && a <= b <= |steps| && NoPush(steps, a, b)
    ensures run[a].contents == run[b].contents + Reversed(ReceivedBetween(run, steps, a, b))
    decreases b
  {
    if a < b {
      assert NoPush(steps, a, b - 1) && !steps[b - 1].Push?;
      ReceivesAreLifo(run, steps, a, b - 1);
      assert Follows(run, steps, b - 1);
      StepReceives(run[b - 1], steps[b - 1]);
      Lifo(run[a].contents, run[b - 1].contents, run[b].contents, ReceivedBetween(run, steps, a, b - 1),
           Receives(run[b - 1], steps[b - 1]));
    }
  }
}
