/**
 FixedSizeLockFreeQueue: a ring with free-running 32-bit counters between one producer and one consumer thread.

 The state machine runs the atomic accesses of both threads in every interleaving, with the history of all values
 pushed and popped beside. The class is the code itself; each of its operations is a sequence of these steps.
 */
module LockFreeQueue {

  const WORD: nat := 0x1_0000_0000

  type uint32 = n: int | 0 <= n < 0x1_0000_0000

  /** Where the value number `k` is stored: the counter wraps before the remainder is taken. */
  function Slot(k: nat, capacity: nat): (i: nat)
    requires capacity > 0
    ensures i < capacity
  {
    (k % WORD) % capacity
  }

  /** PushBack: not called, behind IsFull, or behind the write to data_. */
  datatype Producer<T> = NoPush | Checked(value: T) | Stored(value: T)

  /** PopFront and PeekFront: not called, behind IsEmpty, or (pop only) behind the read of data_. */
  datatype Consumer<T> = NoPop | NonEmpty(pop: bool) | Loaded(value: T)

  datatype Queue<T> = Queue(
    capacity: uint32, data: seq<T>, pushedCount: uint32, poppedCount: uint32,
    producer: Producer<T>, consumer: Consumer<T>, pushed: seq<T>, popped: seq<T>)

  /** The atomic accesses to shared memory; which thread goes next is open. */
  datatype Action<T> = BeginPush(value: T) | StoreValue | Publish | BeginPop | BeginPeek | LoadValue | Retire

  /** What a step decides about the operation it belongs to. */
  datatype Label<T> = Internal | PushOk(value: T) | PushFull | PopOk(value: T) | PeekOk(value: T) | FoundEmpty

  function Empty<T>(capacity: uint32, data: seq<T>): Queue<T> {
    Queue(capacity, data, 0, 0, NoPush, NoPop, [], [])
  }

  function Next(counter: uint32): uint32 {
    (counter + 1) % WORD
  }

  predicate IsFull<T>(s: Queue<T>) {
    s.capacity == 0 || s.pushedCount == (s.poppedCount + s.capacity) % WORD
  }

  predicate IsEmpty<T>(s: Queue<T>) {
    s.capacity == 0 || s.pushedCount == s.poppedCount
  }

  predicate Enabled<T>(s: Queue<T>, a: Action<T>) {
    match a
    case BeginPush(_) => s.producer.NoPush?
    case StoreValue => s.producer.Checked? && 0 < s.capacity == |s.data|
    case Publish => s.producer.Stored?
    case BeginPop => s.consumer.NoPop?
    case BeginPeek => s.consumer.NoPop?
    case LoadValue => s.consumer.NonEmpty? && 0 < s.capacity == |s.data|
    case Retire => s.consumer.Loaded?
  }

  function Step<T>(s: Queue<T>, a: Action<T>): Queue<T>
    requires Enabled(s, a)
  {
    match a
    case BeginPush(value) => if IsFull(s) then s else s.(producer := Checked(value))
    case StoreValue =>
      s.(data := s.data[s.pushedCount % s.capacity := s.producer.value], producer := Stored(s.producer.value))
    case Publish =>
      s.(pushedCount := Next(s.pushedCount), pushed := s.pushed + [s.producer.value], producer := NoPush)
    case BeginPop => if IsEmpty(s) then s else s.(consumer := NonEmpty(true))
    case BeginPeek => if IsEmpty(s) then s else s.(consumer := NonEmpty(false))
    case LoadValue =>
      s.(consumer := if s.consumer.pop then Loaded(s.data[s.poppedCount % s.capacity]) else NoPop)
    case Retire =>
      s.(poppedCount := Next(s.poppedCount), popped := s.popped + [s.consumer.value], consumer := NoPop)
  }

  function LabelOf<T>(s: Queue<T>, a: Action<T>): Label<T>
    requires Enabled(s, a)
  {
    match a
    case BeginPush(_) => if IsFull(s) then PushFull else Internal
    case StoreValue => Internal
    case Publish => PushOk(s.producer.value)
    case BeginPop => if IsEmpty(s) then FoundEmpty else Internal
    case BeginPeek => if IsEmpty(s) then FoundEmpty else Internal
    case LoadValue => if s.consumer.pop then Internal else PeekOk(s.data[s.poppedCount % s.capacity])
    case Retire => PopOk(s.consumer.value)
  }

  // ---------------------------------------------------------------- the abstract bounded queue

  function Contents<T>(s: Queue<T>): seq<T> {
    if |s.popped| <= |s.pushed| then s.pushed[|s.popped|..] else []
  }

  /** A bounded first-in-first-out queue, one operation at a time. */
  predicate Fifo<T(==)>(before: seq<T>, effect: Label<T>, after: seq<T>, capacity: nat) {
    match effect
    case Internal => after == before
    case PushOk(v) => |before| < capacity && after == before + [v]
    case PushFull => |before| == capacity && after == before
    case PopOk(v) => before != [] && before[0] == v && after == before[1..]
    case PeekOk(v) => before != [] && before[0] == v && after == before
    case FoundEmpty => before == [] && after == before
  }

  // ---------------------------------------------------------------- the invariant

  /** Every value that has been pushed but not popped lies in its slot. */
  ghost predicate InSlots<T>(s: Queue<T>)
    requires |s.data| == s.capacity && |s.pushed| <= |s.popped| + s.capacity
  {
    forall k :: |s.popped| <= k < |s.pushed| ==> s.data[Slot(k, s.capacity)] == s.pushed[k]
  }

  ghost predicate Inv<T>(s: Queue<T>) {
    && |s.data| == s.capacity
    && |s.popped| <= |s.pushed| <= |s.popped| + s.capacity
    && s.popped == s.pushed[..|s.popped|]
    && s.pushedCount == |s.pushed| % WORD && s.poppedCount == |s.popped| % WORD
    && InSlots(s)
    && (s.producer.Checked? ==> |s.pushed| < |s.popped| + s.capacity)
    && (s.producer.Stored? ==>
          |s.pushed| < |s.popped| + s.capacity && s.data[Slot(|s.pushed|, s.capacity)] == s.producer.value)
    && (s.consumer.NonEmpty? ==> |s.popped| < |s.pushed|)
    && (s.consumer.Loaded? ==> |s.popped| < |s.pushed| && s.consumer.value == s.pushed[|s.popped|])
  }

  /** The wrap of the counters does no harm: it is not reached, or the capacity divides 2^32. */
  predicate WrapSafe(capacity: nat, pushed: nat) {
    pushed < WORD || capacity == 0 || WORD % capacity == 0
  }

  lemma MultipleAtLeast(e: int, m: nat)
    ensures e >= 1 ==> e * m >= m
    ensures e <= -1 ==> e * m <= 0 - m
  {
    if e >= 1 {
      assert e * m == m + (e - 1) * m;
    } else if e <= -1 {
      assert e * m == (e + 1) * m - m;
    }
  }

  lemma ModIsUnique(x: int, m: nat, q: int, r: nat)
    requires r < m && x == q * m + r
    ensures x % m == r
  {
    var d := x / m;
    assert x == d * m + x % m;
    assert (q - d) * m == q * m - d * m;
    MultipleAtLeast(q - d, m);
  }

  /** When the capacity divides 2^32 the wrap disappears from the slot. */
  lemma SlotWithoutWrap(k: nat, capacity: nat)
    requires capacity > 0 && (k < WORD || WORD % capacity == 0)
    ensures Slot(k, capacity) == k % capacity
  {
    if k >= WORD {
      var n, w, i := WORD / capacity, k / WORD, k % WORD;
      assert WORD == n * capacity;
      assert i == (i / capacity) * capacity + i % capacity;
      assert k == w * WORD + i;
      assert w * WORD == w * n * capacity;
      assert k == (w * n + i / capacity) * capacity + i % capacity;
      ModIsUnique(k, capacity, w * n + i / capacity, i % capacity);
    }
  }

  lemma Distribute(a: int, b: int, m: nat)
    ensures a * m - b * m == (a - b) * m
  {
  }

  /** Numbers less than m apart have different remainders. */
  lemma RemaindersDiffer(j: nat, k: nat, m: nat)
    requires j < k < j + m
    ensures j % m != k % m
  {
    var a, b := k / m, j / m;
    assert k == a * m + k % m;
    assert j == b * m + j % m;
    Distribute(a, b, m);
    MultipleAtLeast(a - b, m);
  }

  /** Values less than a capacity apart lie in different slots. */
  lemma SlotsDiffer(j: nat, k: nat, capacity: nat)
    requires j < k < j + capacity && WrapSafe(capacity, k)
    ensures Slot(j, capacity) != Slot(k, capacity)
  {
    hide Slot;
    SlotWithoutWrap(j, capacity);
    SlotWithoutWrap(k, capacity);
    RemaindersDiffer(j, k, capacity);
  }

  /** The counters, taken modulo 2^32, decide fullness and emptiness as the unbounded counts would. */
  lemma TestsAreExact<T>(s: Queue<T>)
    requires Inv(s)
    ensures IsFull(s) <==> |Contents(s)| == s.capacity
    ensures IsEmpty(s) <==> Contents(s) == []
  {
    var p, q := |s.pushed|, |s.popped|;
    if s.pushedCount == s.poppedCount && p != q {
      assert p - q == (p / WORD - q / WORD) * WORD;
      ModIsUnique(p - q, WORD, p / WORD - q / WORD, 0);
      ModIsUnique(p - q, WORD, 0, p - q);
    }
    var full := q + s.capacity;
    CountPlus(q, s.capacity);
    if p % WORD == full % WORD && p != full {
      assert full - p == (full / WORD - p / WORD) * WORD;
      ModIsUnique(full - p, WORD, full / WORD - p / WORD, 0);
      ModIsUnique(full - p, WORD, 0, full - p);
    }
  }

  lemma CountPlus(n: nat, d: nat)
    ensures (n % WORD + d) % WORD == (n + d) % WORD
  {
    var r := n % WORD + d;
    ModIsUnique(n + d, WORD, n / WORD + r / WORD, r % WORD);
  }

  lemma NextCount(n: nat)
    ensures Next(n % WORD) == (n + 1) % WORD
  {
    CountPlus(n, 1);
  }

  /** The indices that the code computes are the slots of the next value to push and to pop. */
  lemma IndicesAreSlots<T>(s: Queue<T>)
    requires Inv(s) && s.capacity > 0
    ensures s.pushedCount % s.capacity == Slot(|s.pushed|, s.capacity)
    ensures s.poppedCount % s.capacity == Slot(|s.popped|, s.capacity)
  {
  }

  /** Keeps the invariant, and is a step of the bounded queue. */
  ghost predicate Refines<T>(s: Queue<T>, a: Action<T>)
    requires Enabled(s, a)
  {
    Inv(Step(s, a)) && Fifo(Contents(s), LabelOf(s, a), Contents(Step(s, a)), s.capacity)
  }

  lemma BeginRefines<T>(s: Queue<T>, a: Action<T>)
    requires Inv(s) && Enabled(s, a) && (a.BeginPush? || a.BeginPop? || a.BeginPeek?)
    ensures Refines(s, a)
  {
    hide Slot, IsFull, IsEmpty;
    TestsAreExact(s);
  }

  lemma StoreRefines<T>(s: Queue<T>)
    requires Inv(s) && Enabled(s, StoreValue) && WrapSafe(s.capacity, |s.pushed|)
    ensures Refines(s, StoreValue)
  {
    IndicesAreSlots(s);
    hide Slot, WrapSafe;
    var t := Step(s, StoreValue);
    forall k | |s.popped| <= k < |s.pushed| ensures t.data[Slot(k, s.capacity)] == t.pushed[k] {
      SlotsDiffer(k, |s.pushed|, s.capacity);
    }
  }

  lemma PublishRefines<T>(s: Queue<T>)
    requires Inv(s) && Enabled(s, Publish)
    ensures Refines(s, Publish)
  {
    PublishKeepsInv(s);
    hide Next, Inv;
    InvFacts(s);
    SuffixGrows(s.pushed, |s.popped|, s.producer.value);
  }

  lemma InvFacts<T>(s: Queue<T>)
    requires Inv(s)
    ensures |s.popped| <= |s.pushed| <= |s.popped| + s.capacity && s.popped == s.pushed[..|s.popped|]
    ensures s.producer.Stored? ==> |s.pushed| < |s.popped| + s.capacity
    ensures s.consumer.Loaded? ==> |s.popped| < |s.pushed| && s.consumer.value == s.pushed[|s.popped|]
  {
  }

  lemma PublishKeepsInv<T>(s: Queue<T>)
    requires Inv(s) && Enabled(s, Publish)
    ensures Inv(Step(s, Publish))
  {
    hide Slot, Next, InSlots;
    NextCount(|s.pushed|);
    SuffixGrows(s.pushed, |s.popped|, s.producer.value);
    PublishInSlots(s);
  }

  lemma PublishInSlots<T>(s: Queue<T>)
    requires Inv(s) && Enabled(s, Publish)
    ensures InSlots(Step(s, Publish))
  {
    hide Slot;
    var t := Step(s, Publish);
    forall k | |t.popped| <= k < |t.pushed| ensures t.data[Slot(k, t.capacity)] == t.pushed[k] {
      assert k < |s.pushed| ==> t.pushed[k] == s.pushed[k];
    }
  }

  lemma SuffixGrows<T>(s: seq<T>, n: nat, value: T)
    requires n <= |s|
    ensures (s + [value])[n..] == s[n..] + [value] && (s + [value])[..n] == s[..n]
  {
  }

  lemma LoadRefines<T>(s: Queue<T>)
    requires Inv(s) && Enabled(s, LoadValue)
    ensures Refines(s, LoadValue)
  {
    IndicesAreSlots(s);
    hide Slot;
  }

  lemma PrefixGrows<T>(s: seq<T>, n: nat)
    requires n < |s|
    ensures s[..n + 1] == s[..n] + [s[n]] && s[n..] == [s[n]] + s[n + 1..]
  {
  }

  lemma RetireRefines<T>(s: Queue<T>)
    requires Inv(s) && Enabled(s, Retire)
    ensures Refines(s, Retire)
  {
    RetireKeepsInv(s);
    hide Next, Inv;
    InvFacts(s);
    PrefixGrows(s.pushed, |s.popped|);
  }

  lemma RetireKeepsInv<T>(s: Queue<T>)
    requires Inv(s) && Enabled(s, Retire)
    ensures Inv(Step(s, Retire))
  {
    var t := Step(s, Retire);
    assert InSlots(t);
    hide Slot, Next, InSlots;
    NextCount(|s.popped|);
    PrefixGrows(s.pushed, |s.popped|);
    assert t.popped == t.pushed[..|s.popped| + 1] && |t.popped| == |s.popped| + 1;
  }

  /** Every step of either thread. */
  lemma StepRefines<T>(s: Queue<T>, a: Action<T>)
    requires Inv(s) && Enabled(s, a) && WrapSafe(s.capacity, |s.pushed|)
    ensures Refines(s, a)
  {
    hide Inv, Fifo, Step, LabelOf, WrapSafe, Contents;
    match a {
      case StoreValue => StoreRefines(s);
      case Publish => PublishRefines(s);
      case LoadValue => LoadRefines(s);
      case Retire => RetireRefines(s);
      case _ => BeginRefines(s, a);
    }
  }

  /** No race on a slot: the producer never writes where the consumer is about to read. */
  lemma NoSlotRace<T>(s: Queue<T>)
    requires Inv(s) && WrapSafe(s.capacity, |s.pushed|)
    requires Enabled(s, StoreValue) && Enabled(s, LoadValue)
    ensures s.pushedCount % s.capacity != s.poppedCount % s.capacity
  {
    SlotsDiffer(|s.popped|, |s.pushed|, s.capacity);
  }

  // ---------------------------------------------------------------- runs

  /** The states of a run of any length under any schedule. */
  ghost predicate IsRun<T>(states: seq<Queue<T>>, actions: seq<Action<T>>) {
    && |states| == |actions| + 1 && |states[0].data| == states[0].capacity
    && states[0] == Empty(states[0].capacity, states[0].data)
    && forall i {:trigger actions[i]} :: 0 <= i < |actions| ==>
         Enabled(states[i], actions[i]) && states[i + 1] == Step(states[i], actions[i])
  }

  /**
   Linearizable first-in-first-out: in every interleaving the values popped are a prefix of the values pushed, the
   size stays within the capacity, and each step acts on the contents as the bounded queue prescribes.
   */
  lemma RunIsFifo<T>(states: seq<Queue<T>>, actions: seq<Action<T>>, i: nat)
    requires IsRun(states, actions) && i < |states|
    requires WrapSafe(states[0].capacity, |states[|actions|].pushed|)
    ensures states[i].popped <= states[i].pushed && |Contents(states[i])| <= states[0].capacity
    ensures i < |actions| ==>
      Fifo(Contents(states[i]), LabelOf(states[i], actions[i]), Contents(states[i + 1]), states[0].capacity)
  {
    RunKeepsInv(states, actions, i);
    if i < |actions| {
      PushedGrows(states, actions, i);
      StepRefines(states[i], actions[i]);
    }
  }

  lemma {:induction false} PushedGrows<T>(states: seq<Queue<T>>, actions: seq<Action<T>>, i: nat)
    requires IsRun(states, actions) && i < |states|
    ensures |states[i].pushed| <= |states[|actions|].pushed|
    decreases |states| - i
  {
    if i < |actions| {
      assert states[i + 1] == Step(states[i], actions[i]);
      PushedGrows(states, actions, i + 1);
    }
  }

  lemma {:induction false} RunKeepsInv<T>(states: seq<Queue<T>>, actions: seq<Action<T>>, i: nat)
    requires IsRun(states, actions) && i < |states|
    requires WrapSafe(states[0].capacity, |states[|actions|].pushed|)
    ensures Inv(states[i]) && states[i].capacity == states[0].capacity
  {
    if i > 0 {
      RunKeepsInv(states, actions, i - 1);
      PushedGrows(states, actions, i - 1);
      assert states[i] == Step(states[i - 1], actions[i - 1]);
      StepRefines(states[i - 1], actions[i - 1]);
    }
  }

  // ---------------------------------------------------------------- what the wrap breaks

  /** The capacities whose slots never collide within one round are exactly the divisors of 2^32. */
  lemma WrapSafeIff(capacity: nat)
    requires 0 < capacity < WORD
    ensures (forall j: nat, k: nat :: j < k < j + capacity ==> Slot(j, capacity) != Slot(k, capacity))
        <==> WORD % capacity == 0
  {
    var rest := WORD % capacity;
    if rest == 0 {
      forall j: nat, k: nat | j < k < j + capacity ensures Slot(j, capacity) != Slot(k, capacity) {
        SlotsDiffer(j, k, capacity);
      }
    } else {
      Collision(capacity);
    }
  }

  lemma Collision(capacity: nat)
    requires 0 < capacity < WORD && WORD % capacity != 0
    ensures Slot(WORD - WORD % capacity, capacity) == 0 && Slot(WORD, capacity) == 0
    ensures 0 < WORD % capacity < capacity
  {
    var n := WORD / capacity;
    assert WORD - WORD % capacity == n * capacity;
    ModIsUnique(WORD - WORD % capacity, capacity, n, 0);
  }

  /** The next push, step by step: it is let through, and overwrites the oldest value. */
  lemma OverwritesOldest<T>(s: Queue<T>, value: T)
    returns (checked: Queue<T>, stored: Queue<T>, pushed: Queue<T>)
    requires Inv(s) && s.capacity > 0 && WORD % s.capacity != 0
    requires |s.pushed| == WORD && |s.popped| == WORD - WORD % s.capacity && s.producer.NoPush?
    ensures s.poppedCount > 1
    ensures Enabled(s, BeginPush(value)) && checked == Step(s, BeginPush(value))
    ensures Enabled(checked, StoreValue) && stored == Step(checked, StoreValue)
    ensures Enabled(stored, Publish) && pushed == Step(stored, Publish)
    ensures pushed == s.(
      data := s.data[s.poppedCount % s.capacity := value], pushedCount := 1, pushed := s.pushed + [value])
  {
    Collision(s.capacity);
    TestsAreExact(s);
    IndicesAreSlots(s);
    hide Slot, IsFull, Inv;
    checked := Step(s, BeginPush(value));
    stored := Step(checked, StoreValue);
    pushed := Step(stored, Publish);
  }

  /** The pop behind it. */
  lemma PopsAt<T>(s: Queue<T>, value: T) returns (checked: Queue<T>, loaded: Queue<T>)
    requires s.consumer.NoPop? && !IsEmpty(s) && s.capacity == |s.data|
    requires s.data[s.poppedCount % s.capacity] == value
    ensures Enabled(s, BeginPop) && checked == Step(s, BeginPop)
    ensures Enabled(checked, LoadValue) && loaded == Step(checked, LoadValue)
    ensures Enabled(loaded, Retire) && LabelOf(loaded, Retire) == PopOk(value) && Contents(loaded) == Contents(s)
  {
    checked := Step(s, BeginPop);
    loaded := Step(checked, LoadValue);
  }

  /**
   For any other capacity the queue loses values once 2^32 have been pushed: with WORD % capacity of them unread, the
   next push is let through and overwrites the oldest, and the next pop returns what has been pushed, although the
   oldest is still the first of the contents.
   */
  lemma WrapCorrupts<T>(s: Queue<T>, value: T)
    returns (checked: Queue<T>, stored: Queue<T>, pushed: Queue<T>, popping: Queue<T>, loaded: Queue<T>)
    requires Inv(s) && s.capacity > 0 && WORD % s.capacity != 0
    requires |s.pushed| == WORD && |s.popped| == WORD - WORD % s.capacity
    requires s.producer.NoPush? && s.consumer.NoPop?
    ensures Enabled(s, BeginPush(value)) && checked == Step(s, BeginPush(value))
    ensures Enabled(checked, StoreValue) && stored == Step(checked, StoreValue)
    ensures Enabled(stored, Publish) && pushed == Step(stored, Publish)
    ensures Enabled(pushed, BeginPop) && popping == Step(pushed, BeginPop)
    ensures Enabled(popping, LoadValue) && loaded == Step(popping, LoadValue)
    ensures Enabled(loaded, Retire) && LabelOf(loaded, Retire) == PopOk(value)
    ensures Contents(loaded) == Contents(pushed) == Contents(s) + [value]
  {
    hide Step, Enabled, LabelOf, Slot;
    checked, stored, pushed := OverwritesOldest(s, value);
    popping, loaded := PopsAt(pushed, value);
  }

  // Such a state is reached, by pushing and popping one value over and over.

  /** A run that goes one step further. */
  lemma Extend<T>(states: seq<Queue<T>>, actions: seq<Action<T>>, a: Action<T>)
    returns (moreStates: seq<Queue<T>>, moreActions: seq<Action<T>>)
    requires IsRun(states, actions) && Enabled(states[|actions|], a)
    ensures moreStates == states + [Step(states[|actions|], a)] && moreActions == actions + [a]
    ensures IsRun(moreStates, moreActions)
  {
    hide Step, Enabled, Empty;
    moreStates, moreActions := states + [Step(states[|actions|], a)], actions + [a];
    forall i {:trigger moreActions[i]} | 0 <= i < |moreActions|
      ensures Enabled(moreStates[i], moreActions[i]) && moreStates[i + 1] == Step(moreStates[i], moreActions[i])
    {
      assert i < |actions| ==> moreActions[i] == actions[i];
    }
  }

  function Repeat<T>(value: T, n: nat): (s: seq<T>)
    ensures |s| == n
  {
    seq(n, _ => value)
  }

  /** Between operations, with `n` values pushed and `m` popped, all of them the same. */
  ghost predicate Reached<T>(s: Queue<T>, value: T, n: nat, m: nat) {
    && Inv(s) && s.producer.NoPush? && s.consumer.NoPop?
    && s.pushed == Repeat(value, n) && s.popped == Repeat(value, m)
  }

  lemma PushOne<T>(s: Queue<T>, value: T, n: nat, m: nat)
    requires Reached(s, value, n, m) && n < m + s.capacity && n < WORD
    ensures Enabled(s, BeginPush(value)) && Enabled(Step(s, BeginPush(value)), StoreValue)
    ensures Enabled(Step(Step(s, BeginPush(value)), StoreValue), Publish)
    ensures Reached(Step(Step(Step(s, BeginPush(value)), StoreValue), Publish), value, n + 1, m)
  {
    hide Slot, IsFull;
    TestsAreExact(s);
    var checked := Step(s, BeginPush(value));
    StepRefines(s, BeginPush(value));
    StepRefines(checked, StoreValue);
    StepRefines(Step(checked, StoreValue), Publish);
  }

  lemma PopOne<T>(s: Queue<T>, value: T, n: nat, m: nat)
    requires Reached(s, value, n, m) && m < n
    ensures Enabled(s, BeginPop) && Enabled(Step(s, BeginPop), LoadValue)
    ensures Enabled(Step(Step(s, BeginPop), LoadValue), Retire)
    ensures Reached(Step(Step(Step(s, BeginPop), LoadValue), Retire), value, n, m + 1)
  {
    hide Slot, IsEmpty;
    TestsAreExact(s);
    var checked := Step(s, BeginPop);
    BeginRefines(s, BeginPop);
    LoadRefines(checked);
    RetireRefines(Step(checked, LoadValue));
    assert Step(checked, LoadValue).consumer.value == s.pushed[m];
  }

  /** Any numbers of pushes and pops that the capacity allows are reached, up to the wrap. */
  lemma {:induction false} Reach<T>(capacity: uint32, value: T, n: nat, m: nat)
    returns (states: seq<Queue<T>>, actions: seq<Action<T>>)
    requires 0 < capacity && m <= n <= m + capacity && n <= WORD
    ensures IsRun(states, actions) && states[0].capacity == states[|actions|].capacity == capacity
    ensures Reached(states[|actions|], value, n, m)
    decreases n + m
  {
    hide Inv, Step, Enabled;
    if n == 0 {
      states, actions := [Empty(capacity, Repeat(value, capacity))], [];
      EmptyIsReached(capacity, value);
    } else if n > m {
      states, actions := Reach(capacity, value, n - 1, m);
      var s := states[|actions|];
      PushOne(s, value, n - 1, m);
      states, actions := Extend(states, actions, BeginPush(value));
      states, actions := Extend(states, actions, StoreValue);
      states, actions := Extend(states, actions, Publish);
      CapacityStays(s, BeginPush(value), StoreValue, Publish);
    } else {
      states, actions := Reach(capacity, value, n, m - 1);
      var s := states[|actions|];
      PopOne(s, value, n, m - 1);
      states, actions := Extend(states, actions, BeginPop);
      states, actions := Extend(states, actions, LoadValue);
      states, actions := Extend(states, actions, Retire);
      CapacityStays(s, BeginPop, LoadValue, Retire);
    }
  }

  lemma EmptyIsReached<T>(capacity: uint32, value: T)
    ensures var s := Empty(capacity, Repeat(value, capacity));
      Reached(s, value, 0, 0) && IsRun([s], [])
  {
  }

  lemma CapacityStays<T>(s: Queue<T>, a: Action<T>, b: Action<T>, c: Action<T>)
    requires Enabled(s, a) && Enabled(Step(s, a), b) && Enabled(Step(Step(s, a), b), c)
    ensures Step(Step(Step(s, a), b), c).capacity == s.capacity
  {
  }

  /** What RunIsFifo says of the state number `i`. */
  ghost predicate FifoAt<T>(states: seq<Queue<T>>, actions: seq<Action<T>>, i: nat)
    requires IsRun(states, actions) && i <= |actions|
  {
    && states[i].popped <= states[i].pushed && |Contents(states[i])| <= states[0].capacity
    && (i < |actions| ==>
          Fifo(Contents(states[i]), LabelOf(states[i], actions[i]), Contents(states[i + 1]), states[0].capacity))
  }

  ghost predicate RunsAsFifo<T>(states: seq<Queue<T>>, actions: seq<Action<T>>)
    requires IsRun(states, actions)
  {
    forall i: nat :: i <= |actions| ==> FifoAt(states, actions, i)
  }

  /** For any other capacity there is a run whose last step pops another value than the oldest. */
  lemma SomeRunFails<T>(capacity: uint32, oldest: T, other: T)
    returns (states: seq<Queue<T>>, actions: seq<Action<T>>)
    requires 0 < capacity && WORD % capacity != 0 && oldest != other
    ensures IsRun(states, actions) && states[0].capacity == capacity && |actions| > 0
    ensures !FifoAt(states, actions, |actions| - 1)
  {
    hide Step, Enabled, Inv, IsRun;
    Collision(capacity);
    var m := WORD - WORD % capacity;
    states, actions := Reach(capacity, oldest, WORD, m);
    LastState(states, actions);
    var s := states[|actions|];
    ReachedFacts(s, oldest, WORD, m);
    var checked, stored, pushed, popping, loaded := WrapCorrupts(s, other);
    states, actions := Extend(states, actions, BeginPush(other));
    LastState(states, actions);
    states, actions := Extend(states, actions, StoreValue);
    LastState(states, actions);
    states, actions := Extend(states, actions, Publish);
    LastState(states, actions);
    states, actions := Extend(states, actions, BeginPop);
    LastState(states, actions);
    states, actions := Extend(states, actions, LoadValue);
    LastState(states, actions);
    assert states[|actions|] == loaded;
    states, actions := Extend(states, actions, Retire);
    LastState(states, actions);
  }

  lemma LastState<T>(states: seq<Queue<T>>, actions: seq<Action<T>>)
    requires IsRun(states, actions)
    ensures |states| == |actions| + 1
  {
  }

  lemma ReachedFacts<T>(s: Queue<T>, value: T, n: nat, m: nat)
    requires Reached(s, value, n, m) && m < n
    ensures Inv(s) && s.producer.NoPush? && s.consumer.NoPop? && |s.pushed| == n && |s.popped| == m
    ensures Contents(s) != [] && Contents(s)[0] == value
  {
  }

  /** The queue survives the wrap of its counters, in every run, exactly when its capacity divides 2^32. */
  lemma SurvivesWrapIff<T(!new)>(capacity: uint32, x: T, y: T)
    requires 0 < capacity && x != y
    ensures (forall states: seq<Queue<T>>, actions: seq<Action<T>> ::
               IsRun(states, actions) && states[0].capacity == capacity ==> RunsAsFifo(states, actions))
        <==> WORD % capacity == 0
  {
    hide Fifo, Contents, Step, Enabled;
    if WORD % capacity == 0 {
      forall states: seq<Queue<T>>, actions: seq<Action<T>> | IsRun(states, actions) && states[0].capacity == capacity
        ensures RunsAsFifo(states, actions)
      {
        LastState(states, actions);
        forall i: nat | i <= |actions| ensures FifoAt(states, actions, i) {
          RunIsFifo(states, actions, i);
        }
      }
    } else {
      var states, actions := SomeRunFails(capacity, x, y);
      assert !RunsAsFifo(states, actions);
    }
  }

  // ---------------------------------------------------------------- Size()

  /** Size() from two loads: unsigned subtraction of the counters. */
  function SizeOf(pushedCount: uint32, poppedCount: uint32): uint32 {
    (pushedCount - poppedCount) % WORD
  }

  lemma Difference(p: int, q: int)
    ensures (p % WORD - q % WORD) % WORD == (p - q) % WORD
  {
    var d := p % WORD - q % WORD;
    assert p - q == d + (p / WORD - q / WORD) * WORD;
    assert d == (d / WORD) * WORD + d % WORD;
    assert p - q == (d / WORD + (p / WORD - q / WORD)) * WORD + d % WORD;
    ModIsUnique(p - q, WORD, d / WORD + (p / WORD - q / WORD), d % WORD);
  }

  /** On the two threads that own a counter, Size() is the number of values in the queue. */
  lemma SizeForOwners<T>(s: Queue<T>)
    requires Inv(s)
    ensures SizeOf(s.pushedCount, s.poppedCount) == |Contents(s)| <= s.capacity
  {
    Difference(|s.pushed|, |s.popped|);
    ModIsUnique(|s.pushed| - |s.popped|, WORD, 0, |s.pushed| - |s.popped|);
  }

  /**
   A third thread loads pushed_count_ in state `s` and popped_count_ in a later state `t`. What it gets is within
   [0, capacity] exactly when no value pushed after the first load has been popped before the second one, or so many
   that the counter has come round, to within the capacity.
   */
  lemma SizeForOthersIff<T>(s: Queue<T>, t: Queue<T>)
    requires Inv(s) && Inv(t) && s.capacity == t.capacity && |s.popped| <= |t.popped|
    ensures var gap, size := |t.popped| - |s.pushed|, SizeOf(s.pushedCount, t.poppedCount);
      && (size <= s.capacity <==> gap <= 0 || gap % WORD == 0 || gap % WORD >= WORD - s.capacity)
      && (gap < WORD - s.capacity ==> (size <= s.capacity <==> gap <= 0))
      && (gap <= 0 ==> size == -gap)
  {
    var gap := |t.popped| - |s.pushed|;
    Difference(|s.pushed|, |t.popped|);
    ModOfMinus(gap);
    if gap <= 0 {
      ModIsUnique(-gap, WORD, 0, -gap);
    } else if gap < WORD {
      ModIsUnique(gap, WORD, 0, gap);
    }
  }

  lemma ModOfMinus(n: int)
    ensures (-n) % WORD == if n % WORD == 0 then 0 else WORD - n % WORD
  {
    var r := if n % WORD == 0 then 0 else WORD - n % WORD;
    var k := -(n / WORD) - if n % WORD == 0 then 0 else 1;
    assert n == (n / WORD) * WORD + n % WORD;
    assert -n == k * WORD + r;
    ModIsUnique(-n, WORD, k, r);
  }

  /**
   With the loads the other way round, popped_count_ in state `s` and pushed_count_ in a later state `t`, what it gets
   is the number of values between the two counts, modulo 2^32: within [0, capacity] exactly when there are no more than
   `capacity` of them, or so many that the counter has come round, to within the capacity.
   */
  lemma SizePoppedFirstIff<T>(s: Queue<T>, t: Queue<T>)
    requires Inv(s) && Inv(t) && s.capacity == t.capacity && |s.popped| <= |t.popped|
    ensures var between, size := |t.pushed| - |s.popped|, SizeOf(t.pushedCount, s.poppedCount);
      && between >= 0 && size == between % WORD
      && (size <= s.capacity <==> between <= s.capacity || (between >= WORD && between % WORD <= s.capacity))
      && (between < WORD ==> size == between)
  {
    var between := |t.pushed| - |s.popped|;
    Difference(|t.pushed|, |s.popped|);
    if 0 <= between < WORD {
      ModIsUnique(between, WORD, 0, between);
    }
  }

  /** And such a moment comes: between the loads one value goes through the queue, and Size() is 2^32 - 1. */
  lemma SizeOutOfRange<T>(value: T, cell: T)
    ensures var s := Empty(1, [cell]);
      var t := Step(Step(Step(s, BeginPush(value)), StoreValue), Publish);
      var u := Step(Step(Step(t, BeginPop), LoadValue), Retire);
      SizeOf(s.pushedCount, u.poppedCount) == WORD - 1
  {
  }

  /** A push without anything in between. */
  lemma WholePush<T>(s: Queue<T>, value: T) returns (t: Queue<T>)
    requires Inv(s) && s.producer.NoPush? && !IsFull(s)
    ensures Enabled(s, BeginPush(value)) && Enabled(Step(s, BeginPush(value)), StoreValue)
    ensures Enabled(Step(Step(s, BeginPush(value)), StoreValue), Publish)
    ensures t == Step(Step(Step(s, BeginPush(value)), StoreValue), Publish)
    ensures s.capacity > 0 && t == s.(
      data := s.data[s.pushedCount % s.capacity := value],
      pushedCount := Next(s.pushedCount), pushed := s.pushed + [value])
    ensures WrapSafe(s.capacity, |s.pushed|) ==> Inv(t) && Contents(t) == Contents(s) + [value]
  {
    hide Next, WrapSafe, Slot;
    var checked := Step(s, BeginPush(value));
    var stored := Step(checked, StoreValue);
    t := Step(stored, Publish);
    if WrapSafe(s.capacity, |s.pushed|) {
      hide Inv, IsFull;
      StepRefines(s, BeginPush(value));
      StepRefines(checked, StoreValue);
      StepRefines(stored, Publish);
    }
  }

  /** And a pop. */
  lemma WholePop<T>(s: Queue<T>) returns (t: Queue<T>)
    requires Inv(s) && s.consumer.NoPop? && !IsEmpty(s)
    ensures Enabled(s, BeginPop) && Enabled(Step(s, BeginPop), LoadValue)
    ensures Enabled(Step(Step(s, BeginPop), LoadValue), Retire)
    ensures t == Step(Step(Step(s, BeginPop), LoadValue), Retire) && Contents(s) != []
    ensures t == s.(poppedCount := Next(s.poppedCount), popped := s.popped + [Contents(s)[0]])
    ensures Inv(t) && Contents(t) == Contents(s)[1..]
  {
    hide Next, Slot;
    TestsAreExact(s);
    var checked := Step(s, BeginPop);
    var loaded := Step(checked, LoadValue);
    t := Step(loaded, Retire);
    hide Inv, IsEmpty;
    BeginRefines(s, BeginPop);
    LoadRefines(checked);
    assert loaded.consumer.value == Contents(s)[0] by {
      LoadsOldest(loaded);
    }
    RetireRefines(loaded);
  }

  lemma LoadsOldest<T>(s: Queue<T>)
    requires Inv(s) && s.consumer.Loaded?
    ensures Contents(s) != [] && s.consumer.value == Contents(s)[0]
  {
    hide Slot;
  }

  // ---------------------------------------------------------------- the code

  class FixedSizeLockFreeQueue<T(0)> {
    var pushedCount: uint32
    var poppedCount: uint32
    var capacity: uint32
    var data: array<T>

    /** Values pushed and popped since the queue was last cleared. */
    ghost var pushed: seq<T>
    ghost var popped: seq<T>

    constructor (capacity: uint32)
      ensures View() == Empty(capacity, data[..]) && Inv(View()) && fresh(data)
    {
      pushedCount, poppedCount, this.capacity := 0, 0, capacity;
      data := new T[capacity];
      pushed, popped := [], [];
    }

    /** The shared state, with no operation in progress on this thread. */
    ghost function View(): Queue<T>
      reads this, data
    {
      Queue(capacity, data[..], pushedCount, poppedCount, NoPush, NoPop, pushed, popped)
    }

    predicate Full()
      reads this
    {
      pushedCount == (poppedCount + capacity) % WORD
    }

    /** The three steps of the producer, one after the other. */
    method PushBack(value: T) returns (ok: bool)
      requires Inv(View())
      modifies this`pushedCount, this`pushed, data
      ensures ok == !IsFull(old(View()))
      ensures var checked := Step(old(View()), BeginPush(value));
        View() == if ok then Step(Step(checked, StoreValue), Publish) else checked
      ensures WrapSafe(capacity, old(|pushed|)) ==>
        && Inv(View()) && (ok <==> |old(Contents(View()))| < capacity)
        && Contents(View()) == old(Contents(View())) + if ok then [value] else []
    {
      ghost var start := View();
      TestsAreExact(start);
      if capacity == 0 {
        return false;
      }
      if Full() {
        return false;
      }
      hide Inv, IsFull, Contents, Step, Enabled, WrapSafe;
      ghost var after := WholePush(start, value);
      data[pushedCount % capacity] := value;
      assert data[..] == after.data;
      pushedCount, pushed := Next(pushedCount), pushed + [value];
      return true;
    }

    /** The first two steps of the consumer. */
    method PeekFront() returns (value: T, ok: bool)
      requires Inv(View())
      ensures ok == !IsEmpty(View())
      ensures ok <==> Contents(View()) != []
      ensures ok ==> value == Contents(View())[0]
    {
      TestsAreExact(View());
      if capacity == 0 || pushedCount == poppedCount {
        value := *;
        return value, false;
      }
      BeginRefines(View(), BeginPeek);
      LoadRefines(Step(View(), BeginPeek));
      return data[poppedCount % capacity], true;
    }

    /** All three steps of the consumer. */
    method PopFront() returns (value: T, ok: bool)
      requires Inv(View())
      modifies this`poppedCount, this`popped
      ensures Inv(View())
      ensures ok <==> old(Contents(View())) != []
      ensures Contents(View()) == if ok then old(Contents(View()))[1..] else []
      ensures popped == old(popped) + if ok then [value] else []
      ensures ok ==> value == old(Contents(View()))[0]
    {
      value, ok := PeekFront();
      if ok {
        hide Inv, Contents, Step, Enabled;
        TestsAreExact(View());
        ghost var after := WholePop(View());
        poppedCount, popped := Next(poppedCount), popped + [value];
      }
    }

    /** Size(), when no other thread works on the queue. */
    method Size() returns (n: uint32)
      requires Inv(View())
      ensures n == |Contents(View())|
    {
      SizeForOwners(View());
      n := (pushedCount - poppedCount) % WORD;
    }

    /** Not to be called at the same time as any other method. */
    method ClearAndResizeUnsafe(newCapacity: uint32)
      modifies this
      ensures View() == Empty(newCapacity, data[..]) && Inv(View()) && fresh(data)
    {
      capacity := newCapacity;
      data := new T[newCapacity];
      pushedCount, poppedCount, pushed, popped := 0, 0, [], [];
    }
  }
}
