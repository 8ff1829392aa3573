/** The bounded FIFO of the player: one mutex, one condition variable, and push, shift and flush
    written as the steps a thread takes between gaining and giving up the lock. */
module Fifo {

  import opened Options

  // ----- The entries array -----

  /** The array after its first `len` entries have moved down by one; the last slot keeps its value. */
  function ArrayShift<T>(arr: seq<T>, len: nat): (r: seq<T>)
    requires 0 < len <= |arr|
    ensures |r| == |arr|
    ensures r[..len - 1] == arr[1..len]
  {
    arr[1..len] + arr[len - 1..]
  }

  /** Moves the first `len` entries down by one in place and returns the one that fell off. */
  method ShiftEntries<T>(arr: array<T>, len: nat) returns (shifted: T)
    requires 0 < len <= arr.Length
    modifies arr
    ensures shifted == old(arr[0])
    ensures arr[..] == ArrayShift(old(arr[..]), len)
  {
    shifted := arr[0];
    for i := 1 to len
      invariant forall k | 0 <= k < i - 1 :: arr[k] == old(arr[k + 1])
      invariant forall k | i - 1 <= k < arr.Length :: arr[k] == old(arr[k])
    {
      arr[i - 1] := arr[i];
    }
  }

  function Reverse<T>(s: seq<T>): (r: seq<T>)
    ensures |r| == |s|
  {
    if s == [] then [] else [s[|s| - 1]] + Reverse(s[..|s| - 1])
  }

  lemma {:induction false} ReverseContents<T>(s: seq<T>)
    ensures multiset(Reverse(s)) == multiset(s)
  {
    if s != [] {
      var n := |s| - 1;
      ReverseContents(s[..n]);
      assert s == s[..n] + [s[n]];
    }
  }

  lemma ReverseStep<T>(s: seq<T>, n: nat)
    requires n < |s|
    ensures Reverse(s[..n + 1]) == [s[n]] + Reverse(s[..n])
  {
    assert s[..n + 1][..n] == s[..n];
  }

  /** Hands every entry to the destructor, last first. */
  method DestroyEntries<T>(entries: seq<T>, n: nat) returns (destroyed: seq<T>)
    requires n <= |entries|
    ensures destroyed == Reverse(entries[..n])
  {
    assert Reverse(entries[..0]) == [];
    hide Reverse;
    destroyed := [];
    var count := n;
    while count > 0
      invariant 0 <= count <= n
      invariant Reverse(entries[..n]) == destroyed + Reverse(entries[..count])
    {
      count := count - 1;
      ReverseStep(entries, count);
      destroyed := destroyed + [entries[count]];
    }
  }

  // ----- Threads and states -----

  /** An element, tagged with the push call that brought it. */
  datatype Item = Item(id: nat, value: int)

  /** Where a thread is. `Lock` states want the mutex for the first time; `Wait` states sleep on the
      condition variable; `Woken` states have been signalled, or woke spuriously, and want the mutex
      back; the others hold it. */
  datatype Pc =
    | Idle
    | PushLock(item: Item) | PushTest(item: Item) | PushWait(item: Item) | PushWoken(item: Item)
    | PushResume(item: Item)
    | ShiftLock | ShiftTest | ShiftWait | ShiftWoken
    | FlushLock | FlushBody | FlushWait | FlushWoken | FlushDrain
  {
    predicate Waiting() { PushWait? || ShiftWait? || FlushWait? }
    predicate WantsLock() { PushLock? || PushWoken? || ShiftLock? || ShiftWoken? || FlushLock? || FlushWoken? }
    predicate HoldsLock() { PushTest? || PushResume? || ShiftTest? || FlushBody? || FlushDrain? }
    predicate Pushing() { PushLock? || PushTest? || PushWait? || PushWoken? || PushResume? }

    function Wake(): Pc
      requires Waiting()
    {
      match this
      case PushWait(i) => PushWoken(i)
      case ShiftWait => ShiftWoken
      case FlushWait => FlushWoken
    }

    /** Where the thread continues once it has the mutex. */
    function Acquire(): Pc
      requires WantsLock()
    {
      match this
      case PushLock(i) => PushTest(i)
      case PushWoken(i) => PushResume(i)
      case ShiftLock => ShiftTest
      case ShiftWoken => ShiftTest
      case FlushLock => FlushBody
      case FlushWoken => FlushDrain
    }
  }

  /** How an element left the queue. */
  datatype Exit = Shifted | Flushed

  /** What has happened so far: how many pushes were begun, what was appended in which order, how the
      first elements of that order left, what the shift calls returned, what the flushes destroyed, and
      which pushes a flush turned away. */
  datatype History = History(started: nat, appended: seq<Item>, exits: seq<Exit>,
                             shifted: seq<Item>, destroyed: seq<Item>, rejected: set<nat>)

  datatype State = State(capacity: nat, count: nat, entries: seq<Item>, pushWait: bool, flush: bool,
                         holder: Option<nat>, pcs: seq<Pc>, h: History)
  {
    function Queue(): seq<Item>
      requires count <= |entries|
    {
      entries[..count]
    }

    ghost predicate NoWaiters() { forall t | 0 <= t < |pcs| :: !pcs[t].Waiting() }
  }

  ghost predicate Init(s: State) {
    && s.capacity >= 1 && s.count == 0 && |s.entries| == s.capacity
    && !s.pushWait && !s.flush && s.holder == None
    && (forall t | 0 <= t < |s.pcs| :: s.pcs[t] == Idle)
    && s.h == History(0, [], [], [], [], {})
  }

  datatype Op = Push(value: int) | Shift | Flush

  /** `Start` begins a call; `Lock` obtains the mutex; `Run` executes up to the next wait or unlock,
      `woken` being the thread its signal, if it sends one, wakes; `Spurious` is a wakeup without a
      signal. */
  datatype Action =
    | Start(t: nat, op: Op)
    | Lock(t: nat)
    | Run(t: nat, woken: Option<nat>)
    | Spurious(t: nat)

  /** Does the critical section that thread `t` is about to run signal the condition variable? */
  predicate Signals(s: State, t: nat)
    requires t < |s.pcs| && s.pcs[t].HoldsLock()
  {
    match s.pcs[t]
    case PushTest(_) => s.count != s.capacity && s.count + 1 == 1
    case PushResume(_) => s.flush
    case ShiftTest => s.count != 0 && s.count - 1 == s.capacity - 1
    case FlushBody => s.pushWait
    case _ => false
  }

  /** A signal wakes one thread that is waiting, if there is any; without a signal nobody wakes. */
  ghost predicate SignalTarget(s: State, t: nat, woken: Option<nat>)
    requires t < |s.pcs| && s.pcs[t].HoldsLock()
  {
    match woken
    case None => Signals(s, t) ==> s.NoWaiters()
    case Some(w) => Signals(s, t) && w < |s.pcs| && s.pcs[w].Waiting()
  }

  ghost predicate Enabled(s: State, a: Action) {
    && a.t < |s.pcs|
    && match a
       case Start(t, _) => s.pcs[t].Idle?
       case Lock(t) => s.holder == None && s.pcs[t].WantsLock()
       case Run(t, woken) => s.pcs[t].HoldsLock() && SignalTarget(s, t, woken)
       case Spurious(t) => s.pcs[t].Waiting()
  }

  /** Thread `t` moves to `pc`, and the signalled thread, if any, is woken. */
  function Move(pcs: seq<Pc>, t: nat, pc: Pc, woken: Option<nat>): (r: seq<Pc>)
    requires t < |pcs|
    requires woken.Some? ==> woken.value < |pcs| && pcs[woken.value].Waiting()
    ensures |r| == |pcs|
  {
    var p := if woken.Some? then pcs[woken.value := pcs[woken.value].Wake()] else pcs;
    p[t := pc]
  }

  /** One critical section of thread `t`, which holds the mutex. */
  function Section(s: State, t: nat, woken: Option<nat>): State
    requires t < |s.pcs| && s.pcs[t].HoldsLock() && s.count <= s.capacity == |s.entries|
    requires woken.Some? ==> woken.value < |s.pcs| && s.pcs[woken.value].Waiting()
  {
    match s.pcs[t]
    case PushTest(item) =>
      if s.count == s.capacity then
        s.(pushWait := true, holder := None, pcs := Move(s.pcs, t, PushWait(item), woken))
      else
        s.(entries := s.entries[s.count := item], count := s.count + 1, holder := None,
           pcs := Move(s.pcs, t, Idle, woken), h := s.h.(appended := s.h.appended + [item]))
    case PushResume(item) =>
      if s.flush then
        s.(pushWait := false, holder := None, pcs := Move(s.pcs, t, Idle, woken),
           h := s.h.(rejected := s.h.rejected + {item.id}))
      else
        s.(pushWait := false, pcs := Move(s.pcs, t, PushTest(item), woken))
    case ShiftTest =>
      if s.count == 0 then
        s.(holder := None, pcs := Move(s.pcs, t, ShiftWait, woken))
      else
        s.(entries := ArrayShift(s.entries, s.count), count := s.count - 1, holder := None,
           pcs := Move(s.pcs, t, Idle, woken),
           h := s.h.(shifted := s.h.shifted + [s.entries[0]], exits := s.h.exits + [Shifted]))
    case FlushBody =>
      if s.pushWait then
        s.(flush := true, holder := None, pcs := Move(s.pcs, t, FlushWait, woken))
      else
        s.(flush := true, pcs := Move(s.pcs, t, FlushDrain, woken))
    case FlushDrain =>
      s.(count := 0, flush := false, holder := None, pcs := Move(s.pcs, t, Idle, woken),
         h := s.h.(destroyed := s.h.destroyed + Reverse(s.entries[..s.count]),
                   exits := s.h.exits + seq(s.count, _ => Flushed)))
  }

  ghost function Step(s: State, a: Action): State
    requires Enabled(s, a) && s.count <= s.capacity == |s.entries|
  {
    match a
    case Start(t, Push(v)) =>
      s.(pcs := s.pcs[t := PushLock(Item(s.h.started, v))], h := s.h.(started := s.h.started + 1))
    case Start(t, Shift) => s.(pcs := s.pcs[t := ShiftLock])
    case Start(t, Flush) => s.(pcs := s.pcs[t := FlushLock])
    case Lock(t) => s.(holder := Some(t), pcs := s.pcs[t := s.pcs[t].Acquire()])
    case Run(t, woken) => Section(s, t, woken)
    case Spurious(t) => s.(pcs := s.pcs[t := s.pcs[t].Wake()])
  }

  // ----- Safety, for any number of threads -----

  /** The elements that left in a given way, in the order they had been pushed. */
  function Select(items: seq<Item>, exits: seq<Exit>, how: Exit): seq<Item>
    requires |exits| <= |items|
    decreases |exits|
  {
    if exits == [] then []
    else
      var n := |exits| - 1;
      Select(items, exits[..n], how) + if exits[n] == how then [items[n]] else []
  }

  ghost predicate QueueInv(s: State) {
    && s.capacity >= 1 && s.count <= s.capacity == |s.entries|
    && |s.h.exits| <= |s.h.appended|
    && s.Queue() == s.h.appended[|s.h.exits|..]
    && s.h.shifted == Select(s.h.appended, s.h.exits, Shifted)
    && multiset(s.h.destroyed) == multiset(Select(s.h.appended, s.h.exits, Flushed))
  }

  /** At most one thread holds the mutex, and it is the recorded one. */
  ghost predicate LockInv(s: State) {
    && (s.holder.Some? ==> s.holder.value < |s.pcs|)
    && forall t | 0 <= t < |s.pcs| :: s.pcs[t].HoldsLock() <==> s.holder == Some(t)
  }

  ghost predicate Pending(s: State, id: nat) {
    exists t :: 0 <= t < |s.pcs| && s.pcs[t].Pushing() && s.pcs[t].item.id == id
  }

  ghost predicate Appended(s: State, id: nat) {
    exists k :: 0 <= k < |s.h.appended| && s.h.appended[k].id == id
  }

  /** Every push begun is in exactly one place: still pending in one thread, appended at one position,
      or rejected. */
  ghost predicate PushInv(s: State) {
    && (forall id | 0 <= id < s.h.started :: Pending(s, id) || Appended(s, id) || id in s.h.rejected)
    && (forall t | 0 <= t < |s.pcs| && s.pcs[t].Pushing() ::
          s.pcs[t].item.id < s.h.started && !Appended(s, s.pcs[t].item.id) && s.pcs[t].item.id !in s.h.rejected)
    && (forall t, u | 0 <= t < u < |s.pcs| && s.pcs[t].Pushing() && s.pcs[u].Pushing() ::
          s.pcs[t].item.id != s.pcs[u].item.id)
    && (forall k | 0 <= k < |s.h.appended| :: s.h.appended[k].id < s.h.started && s.h.appended[k].id !in s.h.rejected)
    && (forall j, k | 0 <= j < k < |s.h.appended| :: s.h.appended[j].id != s.h.appended[k].id)
    && (forall id | id in s.h.rejected :: id < s.h.started)
  }

  ghost predicate Inv(s: State) {
    QueueInv(s) && LockInv(s) && PushInv(s)
  }

  lemma SelectAppend(items: seq<Item>, exits: seq<Exit>, e: Exit, how: Exit)
    requires |exits| < |items|
    ensures Select(items, exits + [e], how) == Select(items, exits, how) + if e == how then [items[|exits|]] else []
  {
    assert (exits + [e])[..|exits|] == exits;
  }

  /** Appending to the history does not disturb what already left. */
  lemma {:induction false} SelectStable(items: seq<Item>, more: seq<Item>, exits: seq<Exit>, how: Exit)
    requires |exits| <= |items|
    ensures Select(items + more, exits, how) == Select(items, exits, how)
    decreases |exits|
  {
    if exits != [] {
      SelectStable(items, more, exits[..|exits| - 1], how);
    }
  }

  /** A flush that empties the queue marks everything in it as flushed. */
  lemma {:induction false} SelectFlushed(items: seq<Item>, exits: seq<Exit>, n: nat)
    requires |exits| + n <= |items|
    ensures Select(items, exits + seq(n, _ => Flushed), Shifted) == Select(items, exits, Shifted)
    ensures Select(items, exits + seq(n, _ => Flushed), Flushed)
         == Select(items, exits, Flushed) + items[|exits|..|exits| + n]
  {
    if n == 0 {
      assert exits + seq(n, _ => Flushed) == exits;
    } else {
      var rest := exits + seq(n - 1, _ => Flushed);
      SelectFlushed(items, exits, n - 1);
      SelectAppend(items, rest, Flushed, Shifted);
      SelectAppend(items, rest, Flushed, Flushed);
      assert exits + seq(n, _ => Flushed) == rest + [Flushed];
      assert items[|exits|..|exits| + n] == items[|exits|..|exits| + n - 1] + [items[|exits| + n - 1]];
    }
  }

  lemma PushKeepsQueue(s: State, t: nat, woken: Option<nat>)
    requires Inv(s) && Enabled(s, Run(t, woken)) && s.pcs[t].PushTest?
    ensures QueueInv(Section(s, t, woken))
  {
    hide Move;
    if s.count != s.capacity {
      var item := s.pcs[t].item;
      SelectStable(s.h.appended, [item], s.h.exits, Shifted);
      SelectStable(s.h.appended, [item], s.h.exits, Flushed);
      assert Section(s, t, woken).Queue() == s.Queue() + [item];
    }
  }

  lemma ShiftKeepsQueue(s: State, t: nat, woken: Option<nat>)
    requires Inv(s) && Enabled(s, Run(t, woken)) && s.pcs[t].ShiftTest?
    ensures QueueInv(Section(s, t, woken))
  {
    hide Move, Select, PushInv, LockInv;
    if s.count != 0 {
      var s', n := Section(s, t, woken), |s.h.exits|;
      assert s'.entries == ArrayShift(s.entries, s.count) && s'.count == s.count - 1;
      assert s'.h.shifted == s.h.shifted + [s.entries[0]] && s'.h.exits == s.h.exits + [Shifted];
      assert s'.h.appended == s.h.appended && s'.h.destroyed == s.h.destroyed && s'.capacity == s.capacity;
      hide Section, Enabled;
      SelectAppend(s.h.appended, s.h.exits, Shifted, Shifted);
      SelectAppend(s.h.appended, s.h.exits, Shifted, Flushed);
      assert s.entries[0] == s.Queue()[0] == s.h.appended[n];
      assert s'.Queue() == s.Queue()[1..] == s.h.appended[n + 1..];
    }
  }

  lemma FlushKeepsQueue(s: State, t: nat, woken: Option<nat>)
    requires Inv(s) && Enabled(s, Run(t, woken)) && s.pcs[t].FlushDrain?
    ensures QueueInv(Section(s, t, woken))
  {
    hide Move, Select, PushInv, LockInv;
    SelectFlushed(s.h.appended, s.h.exits, s.count);
    ReverseContents(s.Queue());
    hide Reverse;
    assert s.h.appended[|s.h.exits|..|s.h.exits| + s.count] == s.Queue();
  }

  lemma QueueInvStep(s: State, a: Action)
    requires Inv(s) && Enabled(s, a)
    ensures QueueInv(Step(s, a))
  {
    hide Move, Select, ArrayShift, Reverse, PushInv, LockInv, SignalTarget;
    assert QueueInv(s) && s.count <= s.capacity == |s.entries|;
    if a.Run? {
      match s.pcs[a.t]
      case PushTest(_) => PushKeepsQueue(s, a.t, a.woken);
      case ShiftTest => ShiftKeepsQueue(s, a.t, a.woken);
      case FlushDrain => FlushKeepsQueue(s, a.t, a.woken);
      case _ =>
    }
  }

  /** Apart from thread `t`, a move only turns a sleeper into a woken thread; pushes stay the same pushes. */
  lemma MoveEffect(pcs: seq<Pc>, t: nat, pc: Pc, woken: Option<nat>)
    requires t < |pcs| && !pcs[t].Waiting()
    requires woken.Some? ==> woken.value < |pcs| && pcs[woken.value].Waiting()
    ensures Move(pcs, t, pc, woken)[t] == pc
    ensures forall u | 0 <= u < |pcs| && u != t ::
              && (Move(pcs, t, pc, woken)[u].HoldsLock() <==> pcs[u].HoldsLock())
              && (Move(pcs, t, pc, woken)[u].Pushing() <==> pcs[u].Pushing())
              && (pcs[u].Pushing() ==> Move(pcs, t, pc, woken)[u].item == pcs[u].item)
  {
  }

  /** The program counter thread `a.t` moves to. */
  function Target(s: State, a: Action): Pc
    requires a.t < |s.pcs|
  {
    var pc := s.pcs[a.t];
    match a
    case Start(_, Push(v)) => PushLock(Item(s.h.started, v))
    case Start(_, Shift) => ShiftLock
    case Start(_, Flush) => FlushLock
    case Lock(_) => if pc.WantsLock() then pc.Acquire() else pc
    case Spurious(_) => if pc.Waiting() then pc.Wake() else pc
    case Run(_, _) =>
      match pc
      case PushTest(i) => if s.count == s.capacity then PushWait(i) else Idle
      case PushResume(i) => if s.flush then Idle else PushTest(i)
      case ShiftTest => if s.count == 0 then ShiftWait else Idle
      case FlushBody => if s.pushWait then FlushWait else FlushDrain
      case FlushDrain => Idle
      case _ => pc
  }

  /** Where a critical section takes its thread, and whether it keeps the mutex. */
  lemma SectionMoves(s: State, t: nat, woken: Option<nat>)
    requires t < |s.pcs| && s.pcs[t].HoldsLock() && s.count <= s.capacity == |s.entries|
    requires woken.Some? ==> woken.value < |s.pcs| && s.pcs[woken.value].Waiting()
    ensures var pc := Target(s, Run(t, woken));
            && Section(s, t, woken).pcs == Move(s.pcs, t, pc, woken)
            && Section(s, t, woken).holder == if pc.HoldsLock() then s.holder else None
  {
    hide Move, ArrayShift, Reverse;
  }

  lemma StepMoves(s: State, a: Action)
    requires Inv(s) && Enabled(s, a)
    ensures var r := Step(s, a).pcs;
            && |r| == |s.pcs| && r[a.t] == Target(s, a)
            && forall u | 0 <= u < |s.pcs| && u != a.t ::
                 && (r[u].HoldsLock() <==> s.pcs[u].HoldsLock())
                 && (r[u].Pushing() <==> s.pcs[u].Pushing())
                 && (s.pcs[u].Pushing() ==> r[u].item == s.pcs[u].item)
  {
    hide Move, Section, LockInv, PushInv;
    if a.Run? {
      SectionMoves(s, a.t, a.woken);
      MoveEffect(s.pcs, a.t, Target(s, a), a.woken);
      assert Step(s, a) == Section(s, a.t, a.woken);
      hide *;
    }
  }

  lemma StepHolder(s: State, a: Action)
    requires Inv(s) && Enabled(s, a)
    ensures Step(s, a).holder == if Target(s, a).HoldsLock() then Some(a.t)
                                 else if s.pcs[a.t].HoldsLock() then None else s.holder
  {
    hide Move, Section, PushInv;
    if a.Run? {
      SectionMoves(s, a.t, a.woken);
    }
  }

  lemma LockInvStep(s: State, a: Action)
    requires Inv(s) && Enabled(s, a)
    ensures LockInv(Step(s, a))
  {
    assert s.count <= s.capacity == |s.entries|;
    assert a.Lock? ==> s.holder == None;
    hide Move, ArrayShift, Reverse, Select, QueueInv, PushInv, SignalTarget, Step, Enabled, Target;
    StepMoves(s, a);
    StepHolder(s, a);
    if Target(s, a).HoldsLock() {
      TargetHolds(s, a);
    }
  }

  /** Only the thread that obtains the free mutex starts to hold it. */
  lemma TargetHolds(s: State, a: Action)
    requires Inv(s) && Enabled(s, a) && Target(s, a).HoldsLock()
    ensures s.holder == None || s.holder == Some(a.t)
  {
  }

  /** What an action adds to the record of pushes. */
  lemma StepRecords(s: State, a: Action)
    requires Inv(s) && Enabled(s, a)
    ensures var (pc, h, h') := (s.pcs[a.t], s.h, Step(s, a).h);
            && h'.started == h.started + (if a.Start? && a.op.Push? then 1 else 0)
            && h'.appended == (if a.Run? && pc.PushTest? && s.count != s.capacity
                               then h.appended + [pc.item] else h.appended)
            && h'.rejected == (if a.Run? && pc.PushResume? && s.flush then h.rejected + {pc.item.id} else h.rejected)
  {
    hide Move, ArrayShift, Reverse, Select, PushInv, LockInv, SignalTarget;
  }

  lemma AppendedGrows(s: State, s': State, item: Item)
    requires s'.h.appended == s.h.appended + [item]
    ensures forall id :: Appended(s', id) <==> Appended(s, id) || id == item.id
  {
    forall id ensures Appended(s', id) <==> Appended(s, id) || id == item.id {
      if Appended(s, id) {
        var k :| 0 <= k < |s.h.appended| && s.h.appended[k].id == id;
        assert s'.h.appended[k].id == id;
      }
      assert s'.h.appended[|s.h.appended|] == item;
    }
  }

  lemma PendingOthers(s: State, a: Action, id: nat)
    requires Inv(s) && Enabled(s, a)
    requires Pending(s, id) && !(s.pcs[a.t].Pushing() && s.pcs[a.t].item.id == id)
    ensures Pending(Step(s, a), id)
  {
    assert s.count <= s.capacity == |s.entries|;
    hide Move, ArrayShift, Reverse, Select, QueueInv, LockInv, PushInv, SignalTarget;
    StepMoves(s, a);
    var u :| 0 <= u < |s.pcs| && s.pcs[u].Pushing() && s.pcs[u].item.id == id;
    assert Step(s, a).pcs[u].Pushing() && Step(s, a).pcs[u].item.id == id;
  }

  /** The invariant is about nothing but the pending pushes and the record of pushes. */
  lemma PushInvTransfer(s: State, s': State)
    requires PushInv(s) && |s'.pcs| == |s.pcs|
    requires s'.h.started == s.h.started && s'.h.appended == s.h.appended && s'.h.rejected == s.h.rejected
    requires forall u | 0 <= u < |s.pcs| ::
               (s'.pcs[u].Pushing() <==> s.pcs[u].Pushing()) && (s.pcs[u].Pushing() ==> s'.pcs[u].item == s.pcs[u].item)
    ensures PushInv(s')
  {
    forall id | Pending(s, id) ensures Pending(s', id) {
      var u :| 0 <= u < |s.pcs| && s.pcs[u].Pushing() && s.pcs[u].item.id == id;
      assert s'.pcs[u].Pushing() && s'.pcs[u].item.id == id;
    }
    assert forall id :: Appended(s', id) <==> Appended(s, id);
  }

  /** A step that begins no push and ends none leaves every push where it is. */
  lemma PushInvQuiet(s: State, a: Action)
    requires Inv(s) && Enabled(s, a)
    requires Target(s, a).Pushing() == s.pcs[a.t].Pushing()
    ensures PushInv(Step(s, a))
  {
    hide Move, ArrayShift, Reverse, Select, LockInv, PushInv, SignalTarget, Step;
    StepMoves(s, a);
    StepRecords(s, a);
    PushInvTransfer(s, Step(s, a));
  }

  /** A new push gets a number no other push has. */
  lemma PushInvBegin(s: State, a: Action)
    requires Inv(s) && Enabled(s, a) && a.Start? && a.op.Push?
    ensures PushInv(Step(s, a))
  {
    assert s.count <= s.capacity == |s.entries|;
    assert Target(s, a) == PushLock(Item(s.h.started, a.op.value)) && s.pcs[a.t] == Idle;
    hide Move, ArrayShift, Reverse, Select, QueueInv, LockInv, SignalTarget, Step, Enabled, Target;
    var s' := Step(s, a);
    StepMoves(s, a);
    StepRecords(s, a);
    forall id | Pending(s, id) ensures Pending(s', id) {
      PendingOthers(s, a, id);
    }
    assert s'.pcs[a.t].Pushing() && s'.pcs[a.t].item.id == s.h.started;
    assert forall id :: Appended(s', id) <==> Appended(s, id);
  }

  /** The number of a pending push is nowhere in the record of pushes that ended. */
  lemma PendingIsNew(s: State, t: nat)
    requires PushInv(s) && t < |s.pcs| && s.pcs[t].Pushing()
    ensures forall k | 0 <= k < |s.h.appended| :: s.h.appended[k].id != s.pcs[t].item.id
  {
    forall k | 0 <= k < |s.h.appended| ensures s.h.appended[k].id != s.pcs[t].item.id {
      if s.h.appended[k].id == s.pcs[t].item.id {
        assert Appended(s, s.pcs[t].item.id);
      }
    }
  }

  /** A push that a flush turns away ends up among the rejected, and nowhere else. */
  lemma PushInvReject(s: State, a: Action)
    requires Inv(s) && Enabled(s, a) && s.pcs[a.t].PushResume? && !Target(s, a).Pushing()
    ensures PushInv(Step(s, a))
  {
    assert s.flush && s.count <= s.capacity == |s.entries|;
    hide Move, ArrayShift, Reverse, Select, QueueInv, LockInv, SignalTarget, Step;
    var item, s' := s.pcs[a.t].item, Step(s, a);
    StepMoves(s, a);
    StepRecords(s, a);
    assert s'.h.started == s.h.started && s'.h.appended == s.h.appended && s'.h.rejected == s.h.rejected + {item.id};
    hide Enabled, Target;
    PendingIsNew(s, a.t);
    assert forall id :: Appended(s', id) <==> Appended(s, id);
    forall id | Pending(s, id) && id != item.id ensures Pending(s', id) {
      PendingOthers(s, a, id);
    }
  }

  /** A push that finds room ends up at one position of the order, and nowhere else. */
  lemma PushInvAppend(s: State, a: Action)
    requires Inv(s) && Enabled(s, a) && s.pcs[a.t].PushTest? && !Target(s, a).Pushing()
    ensures PushInv(Step(s, a))
  {
    assert s.count != s.capacity && s.count <= s.capacity == |s.entries|;
    hide Move, ArrayShift, Reverse, Select, QueueInv, LockInv, SignalTarget, Step;
    var item, s' := s.pcs[a.t].item, Step(s, a);
    StepMoves(s, a);
    StepRecords(s, a);
    assert s'.h.started == s.h.started && s'.h.appended == s.h.appended + [item] && s'.h.rejected == s.h.rejected;
    hide Enabled, Target;
    PendingIsNew(s, a.t);
    AppendedGrows(s, s', item);
    forall id | Pending(s, id) && id != item.id ensures Pending(s', id) {
      PendingOthers(s, a, id);
    }
  }

  /** A thread enters or leaves a push in one of three ways. */
  lemma PushCases(s: State, a: Action)
    requires Inv(s) && Enabled(s, a) && Target(s, a).Pushing() != s.pcs[a.t].Pushing()
    ensures if s.pcs[a.t].Pushing() then s.pcs[a.t].PushResume? || s.pcs[a.t].PushTest? else a.Start? && a.op.Push?
  {
  }

  /** Every action of every thread keeps the invariant. */
  lemma InvStep(s: State, a: Action)
    requires Inv(s) && Enabled(s, a)
    ensures Inv(Step(s, a))
  {
    if Target(s, a).Pushing() != s.pcs[a.t].Pushing() {
      PushCases(s, a);
    }
    hide QueueInv, LockInv, PushInv, Step, Enabled, Target;
    QueueInvStep(s, a);
    LockInvStep(s, a);
    if Target(s, a).Pushing() == s.pcs[a.t].Pushing() {
      PushInvQuiet(s, a);
    } else if s.pcs[a.t].PushResume? {
      PushInvReject(s, a);
    } else if s.pcs[a.t].PushTest? {
      PushInvAppend(s, a);
    } else {
      PushInvBegin(s, a);
    }
  }

  lemma InitInv(s: State)
    requires Init(s)
    ensures Inv(s)
  {
  }

  // ----- Runs -----

  /** The states of a run: it starts anywhere initial, and every action is enabled when it is taken. */
  ghost predicate IsRun(states: seq<State>, actions: seq<Action>) {
    && |states| == |actions| + 1
    && Init(states[0])
    && forall i | 0 <= i < |actions| ::
         && states[i].count <= states[i].capacity == |states[i].entries|
         && Enabled(states[i], actions[i])
         && states[i + 1] == Step(states[i], actions[i])
  }

  lemma {:induction false} RunInv(states: seq<State>, actions: seq<Action>, i: nat)
    requires IsRun(states, actions) && i < |states|
    ensures Inv(states[i])
  {
    if i == 0 {
      InitInv(states[0]);
    } else {
      RunInv(states, actions, i - 1);
      InvStep(states[i - 1], actions[i - 1]);
    }
  }

  /** Safety of every run of any number of threads: the count stays within the capacity; every push is
      pending, appended or rejected, and never two of these; what has been appended is what has left by
      shift, in push order, what a flush destroyed, and what is still queued. */
  lemma RunIsSafe(states: seq<State>, actions: seq<Action>, i: nat)
    requires IsRun(states, actions) && i < |states|
    ensures var s := states[i];
            && 0 <= s.count <= s.capacity == |s.entries|
            && |s.h.exits| <= |s.h.appended|
            && s.h.appended == s.h.appended[..|s.h.exits|] + s.Queue()
            && s.h.shifted == Select(s.h.appended, s.h.exits, Shifted)
            && multiset(s.h.appended) == multiset(s.h.shifted) + multiset(s.h.destroyed) + multiset(s.Queue())
            && (forall j, k | 0 <= j < k < |s.h.appended| :: s.h.appended[j].id != s.h.appended[k].id)
            && (forall id | 0 <= id < s.h.started ::
                  (Pending(s, id) && !Appended(s, id) && id !in s.h.rejected)
                  || (!Pending(s, id) && Appended(s, id) && id !in s.h.rejected)
                  || (!Pending(s, id) && !Appended(s, id) && id in s.h.rejected))
  {
    RunInv(states, actions, i);
    var s := states[i];
    SelectSplits(s.h.appended, s.h.exits);
    assert s.h.appended == s.h.appended[..|s.h.exits|] + s.Queue();
    forall id | Appended(s, id) ensures id !in s.h.rejected {
      var k :| 0 <= k < |s.h.appended| && s.h.appended[k].id == id;
    }
  }

  ghost function Count(s: seq<Item>, x: Item): nat { multiset(s)[x] }

  lemma CountAppend(s: seq<Item>, y: Item, x: Item)
    ensures Count(s + [y], x) == Count(s, x) + if x == y then 1 else 0
    ensures Count(s + [], x) == Count(s, x)
  {
    assert s + [] == s;
  }

  lemma {:induction false} CountSplits(items: seq<Item>, exits: seq<Exit>, n: nat, x: Item)
    requires n <= |exits| <= |items|
    ensures Count(items[..n], x)
         == Count(Select(items, exits[..n], Shifted), x) + Count(Select(items, exits[..n], Flushed), x)
  {
    hide Count;
    if n == 0 {
      assert items[..0] == [] && Count([], x) == 0 by { CountEmpty(x); }
    } else {
      hide Select;
      CountSplits(items, exits, n - 1, x);
      TakeOne(exits, n - 1);
      CountStep(items, exits[..n - 1], exits[n - 1], x);
    }
  }

  lemma CountEmpty(x: Item)
    ensures Count([], x) == 0
  {
  }

  lemma TakeOne<T>(s: seq<T>, n: nat)
    requires n < |s|
    ensures s[..n + 1] == s[..n] + [s[n]]
    ensures n == |s| - 1 ==> s[..n] + [s[n]] == s
  {
  }

  lemma CountStep(items: seq<Item>, exits: seq<Exit>, e: Exit, x: Item)
    requires |exits| < |items|
    requires Count(items[..|exits|], x)
          == Count(Select(items, exits, Shifted), x) + Count(Select(items, exits, Flushed), x)
    ensures Count(items[..|exits| + 1], x)
         == Count(Select(items, exits + [e], Shifted), x) + Count(Select(items, exits + [e], Flushed), x)
  {
    hide Select, Count;
    var n := |exits|;
    TakeOne(items, n);
    SelectAppend(items, exits, e, Shifted);
    SelectAppend(items, exits, e, Flushed);
    CountAppend(items[..n], items[n], x);
    CountAppend(Select(items, exits, Shifted), items[n], x);
    CountAppend(Select(items, exits, Flushed), items[n], x);
  }

  lemma SelectSplits(items: seq<Item>, exits: seq<Exit>)
    requires |exits| <= |items|
    ensures multiset(items[..|exits|])
            == multiset(Select(items, exits, Shifted)) + multiset(Select(items, exits, Flushed))
  {
    hide Select;
    var left, right := multiset(Select(items, exits, Shifted)), multiset(Select(items, exits, Flushed));
    forall x ensures multiset(items[..|exits|])[x] == (left + right)[x] {
      CountSplits(items, exits, |exits|, x);
      assert exits[..|exits|] == exits;
      assert Count(items[..|exits|], x) == multiset(items[..|exits|])[x];
    }
  }

  /** In every run of any number of threads, when a flush gives up the mutex the queue is empty: it has
      destroyed what was left in it, last first, and everything appended so far has left either by a shift,
      in push order, or by a flush. */
  lemma FlushLeavesEmpty(states: seq<State>, actions: seq<Action>, i: nat)
    requires IsRun(states, actions) && i < |actions|
    requires actions[i].Run? && states[i].pcs[actions[i].t].FlushDrain?
    ensures var (s, s') := (states[i], states[i + 1]);
            && s'.count == 0 && s'.holder == None && !s'.flush
            && s'.h.destroyed == s.h.destroyed + Reverse(s.Queue())
            && |s'.h.exits| == |s'.h.appended| && s'.h.shifted == Select(s'.h.appended, s'.h.exits, Shifted)
            && multiset(s'.h.appended) == multiset(s'.h.shifted) + multiset(s'.h.destroyed)
  {
    RunInv(states, actions, i);
    hide Reverse, Select, Move, SignalTarget;
    RunIsSafe(states, actions, i + 1);
    var s' := states[i + 1];
    assert s' == Section(states[i], actions[i].t, actions[i].woken);
    assert s'.Queue() == [];
  }

  // ----- No lost wakeup: one pusher, one consumer that also flushes -----

  const PUSHER: nat := 0
  const CONSUMER: nat := 1

  /** A flush is waiting for the pusher to acknowledge it, or has not yet resumed. */
  ghost predicate FlushPending(s: State)
    requires |s.pcs| == 2
  {
    s.pcs[CONSUMER].FlushWait? || s.pcs[CONSUMER].FlushWoken?
  }

  /** A push may begin unless a flush is pending and the queue is full. A pusher that never pushes while
      a flush is pending keeps to this without looking at the queue. */
  ghost predicate MayPush(s: State)
    requires |s.pcs| == 2
  {
    !(FlushPending(s) && s.count == s.capacity)
  }

  /** What the two threads may begin: the pusher pushes when it may; the consumer shifts and flushes. */
  ghost predicate Discipline(s: State, a: Action)
    requires |s.pcs| == 2
  {
    a.Start? ==> if a.t == PUSHER then a.op.Push? && MayPush(s) else !a.op.Push?
  }

  ghost predicate TwoInv(s: State) {
    && |s.pcs| == 2
    && (s.pcs[PUSHER].Pushing() || s.pcs[PUSHER].Idle?)
    && !s.pcs[CONSUMER].Pushing()
    && (s.pushWait <==> s.pcs[PUSHER].PushWait? || s.pcs[PUSHER].PushWoken? || s.pcs[PUSHER].PushResume?)
    && (s.flush <==> FlushPending(s) || s.pcs[CONSUMER].FlushDrain?)
    && (s.pcs[CONSUMER].ShiftWait? ==> s.count == 0)
    && (s.pcs[PUSHER].PushWait? ==> s.count == s.capacity && !s.flush)
    && (s.pcs[CONSUMER].FlushWait? ==> s.pcs[PUSHER].PushWoken? || s.pcs[PUSHER].PushResume?)
    && (s.pcs[CONSUMER].FlushWoken? ==>
          || s.pcs[PUSHER].PushWoken? || s.pcs[PUSHER].PushResume? || s.pcs[PUSHER].Idle?
          || s.count < s.capacity)
  }

  lemma TwoInvPusher(s: State, woken: Option<nat>)
    requires Inv(s) && TwoInv(s) && Enabled(s, Run(PUSHER, woken))
    ensures TwoInv(Section(s, PUSHER, woken))
  {
    hide QueueInv, PushInv, ArrayShift, Reverse;
    assert s.pcs[PUSHER].HoldsLock() && !s.pcs[CONSUMER].HoldsLock();
    if Signals(s, PUSHER) {
      assert woken == None ==> !s.pcs[CONSUMER].Waiting();
    }
  }

  lemma TwoInvConsumer(s: State, woken: Option<nat>)
    requires Inv(s) && TwoInv(s) && Enabled(s, Run(CONSUMER, woken))
    ensures TwoInv(Section(s, CONSUMER, woken))
  {
    hide QueueInv, PushInv, ArrayShift, Reverse;
    assert s.pcs[CONSUMER].HoldsLock() && !s.pcs[PUSHER].HoldsLock();
    if Signals(s, CONSUMER) {
      assert woken == None ==> !s.pcs[PUSHER].Waiting();
    }
  }

  /** Under the discipline, every action keeps the two threads in step. */
  lemma TwoInvStep(s: State, a: Action)
    requires Inv(s) && TwoInv(s) && Enabled(s, a) && Discipline(s, a)
    ensures TwoInv(Step(s, a))
  {
    hide PushInv, Section, SignalTarget;
    if a.Run? {
      if a.t == PUSHER {
        TwoInvPusher(s, a.woken);
      } else {
        TwoInvConsumer(s, a.woken);
      }
    }
  }

  ghost predicate IsDisciplinedRun(states: seq<State>, actions: seq<Action>) {
    && IsRun(states, actions) && |states[0].pcs| == 2
    && forall i | 0 <= i < |actions| :: |states[i].pcs| == 2 && Discipline(states[i], actions[i])
  }

  lemma {:induction false} RunTwoInv(states: seq<State>, actions: seq<Action>, i: nat)
    requires IsDisciplinedRun(states, actions) && i < |states|
    ensures TwoInv(states[i])
  {
    if i > 0 {
      RunTwoInv(states, actions, i - 1);
      RunInv(states, actions, i - 1);
      TwoInvStep(states[i - 1], actions[i - 1]);
    }
  }

  /** Some thread can go on without a spurious wakeup and without a new call being begun. */
  ghost predicate CanProceed(s: State) {
    exists a: Action :: !a.Start? && !a.Spurious? && Enabled(s, a)
  }

  /** No wakeup is lost, and nothing is ever stuck, in any disciplined run: a consumer asleep in shift
      has an empty queue, a pusher asleep has a full one, a flush asleep has a woken pusher that will
      signal it, and when nobody can proceed, at most one thread sleeps, for a good reason, while the
      other one is between calls. */
  lemma NoLostWakeup(states: seq<State>, actions: seq<Action>, i: nat)
    requires IsDisciplinedRun(states, actions) && i < |states|
    ensures var s := states[i];
            && |s.pcs| == 2
            && (s.pcs[CONSUMER].ShiftWait? ==> s.count == 0)
            && (s.pcs[PUSHER].PushWait? ==> s.count == s.capacity)
            && (s.pcs[CONSUMER].FlushWait? ==> s.flush && (s.pcs[PUSHER].PushWoken? || s.pcs[PUSHER].PushResume?))
            && !(s.pcs[PUSHER].Waiting() && s.pcs[CONSUMER].Waiting())
            && (CanProceed(s)
                || (s.pcs[PUSHER].Idle? && (s.pcs[CONSUMER].Idle? || s.pcs[CONSUMER].ShiftWait?))
                || (s.pcs[PUSHER].PushWait? && s.pcs[CONSUMER].Idle?))
  {
    var s := states[i];
    RunInv(states, actions, i);
    RunTwoInv(states, actions, i);
    Progress(s);
  }

  lemma Progress(s: State)
    requires Inv(s) && TwoInv(s)
    ensures CanProceed(s)
         || (s.pcs[PUSHER].Idle? && (s.pcs[CONSUMER].Idle? || s.pcs[CONSUMER].ShiftWait?))
         || (s.pcs[PUSHER].PushWait? && s.pcs[CONSUMER].Idle?)
  {
    assert s.capacity >= 1;
    hide QueueInv, PushInv;
    if t :| 0 <= t < 2 && s.pcs[t].HoldsLock() {
      var u := 1 - t;
      if Signals(s, t) && s.pcs[u].Waiting() {
        assert Enabled(s, Run(t, Some(u)));
      } else {
        assert Signals(s, t) ==> s.NoWaiters() by {
          assert !s.pcs[t].Waiting() && (Signals(s, t) ==> !s.pcs[u].Waiting());
        }
        assert Enabled(s, Run(t, None));
      }
    } else if t :| 0 <= t < 2 && s.pcs[t].WantsLock() {
      assert s.holder == None;
      assert Enabled(s, Lock(t));
    }
  }

  // ----- Why no push may begin while a flush waits and the queue is full -----

  /** A run so far, and where it has got to. */
  datatype Trace = Trace(states: seq<State>, actions: seq<Action>) {
    ghost predicate Valid() { |states| == |actions| + 1 && IsRun(states, actions) }

    /** The actions from number `n` on are disciplined. */
    ghost predicate DisciplinedFrom(n: nat)
      requires |states| == |actions| + 1
    {
      forall i | n <= i < |actions| :: |states[i].pcs| == 2 && Discipline(states[i], actions[i])
    }

    function First(): State
      requires |states| > 0
    {
      states[0]
    }

    function Last(): State
      requires |states| > 0
    {
      states[|states| - 1]
    }
  }

  /** `r` goes on to `r'`, with disciplined actions from number `n` on. */
  ghost predicate Extends(r: Trace, r': Trace, n: nat) {
    && r.Valid() && r'.Valid() && r.states <= r'.states && r.actions <= r'.actions
    && |r.actions| <= n && r'.DisciplinedFrom(n)
  }

  /** Both threads sleep. */
  ghost predicate BothAsleep(s: State) {
    |s.pcs| == 2 && s.pcs[PUSHER].Waiting() && s.pcs[CONSUMER].Waiting()
  }

  /** A sleeper cannot go on by itself, so that two of them sleep for ever. */
  lemma AsleepForEver(s: State)
    requires BothAsleep(s)
    ensures !CanProceed(s)
  {
  }

  /** A push is begun next, and everything after that is disciplined. */
  ghost predicate PushNext(r: Trace, r': Trace) {
    && Extends(r, r', |r.actions| + 1) && |r.actions| < |r'.actions|
    && r'.actions[|r.actions|].Start? && r'.actions[|r.actions|].t == PUSHER && r'.actions[|r.actions|].op.Push?
  }

  /** ... and in the end both threads sleep. */
  ghost predicate PushLeadsToSleep(r: Trace, r': Trace) { PushNext(r, r') && BothAsleep(r'.Last()) }

  lemma Take(r: Trace, a: Action) returns (r': Trace)
    requires r.Valid() && r.Last().count <= r.Last().capacity == |r.Last().entries| && Enabled(r.Last(), a)
    ensures r'.Valid() && r'.Last() == Step(r.Last(), a)
    ensures r'.states == r.states + [r'.Last()] && r'.actions == r.actions + [a]
    ensures Extends(r, r', |r'.actions|)
    ensures |r.Last().pcs| == 2 && Discipline(r.Last(), a) ==> Extends(r, r', |r.actions|)
  {
    hide Step, Enabled, Discipline, Init;
    r' := Trace(r.states + [Step(r.Last(), a)], r.actions + [a]);
    forall i | 0 <= i < |r'.actions|
      ensures r'.states[i].count <= r'.states[i].capacity == |r'.states[i].entries|
           && Enabled(r'.states[i], r'.actions[i]) && r'.states[i + 1] == Step(r'.states[i], r'.actions[i])
    {
      if i < |r.actions| {
        assert r'.states[i] == r.states[i] && r'.states[i + 1] == r.states[i + 1] && r'.actions[i] == r.actions[i];
      }
    }
  }

  lemma Join(r: Trace, mid: Trace, r': Trace, n: nat)
    requires Extends(r, mid, n) && n <= |mid.actions| && Extends(mid, r', |mid.actions|)
    ensures Extends(r, r', n)
  {
    hide Discipline, IsRun;
    forall i | n <= i < |r'.actions| ensures |r'.states[i].pcs| == 2 && Discipline(r'.states[i], r'.actions[i]) {
      if i < |mid.actions| {
        assert mid.states[i] == r'.states[i] && mid.actions[i] == r'.actions[i];
      }
    }
  }

  /** One more disciplined action. */
  lemma TakeNext(r: Trace, mid: Trace, a: Action, n: nat) returns (r': Trace)
    requires Extends(r, mid, n) && n <= |mid.actions| && |mid.Last().pcs| == 2 && Discipline(mid.Last(), a)
    requires mid.Last().count <= mid.Last().capacity == |mid.Last().entries| && Enabled(mid.Last(), a)
    ensures Extends(r, r', n) && n <= |r'.actions| && r'.Last() == Step(mid.Last(), a)
  {
    hide Discipline, IsRun, Step, Enabled, Trace.DisciplinedFrom;
    r' := Take(mid, a);
    Join(r, mid, r', n);
  }

  /** A state in which nobody holds the mutex. */
  ghost predicate Looks(s: State, p: Pc, c: Pc, capacity: nat, count: nat, pushWait: bool, flush: bool) {
    && s.capacity == capacity == |s.entries| && s.count == count <= capacity && s.holder == None
    && s.pushWait == pushWait && s.flush == flush && s.pcs == [p, c]
  }

  /** A push that has begun appends its item, or goes to sleep if the queue is full. */
  lemma FinishPush(r: Trace, mid: Trace, n: nat, item: Item, c: Pc, capacity: nat, count: nat, flush: bool)
    returns (r': Trace)
    requires Extends(r, mid, n) && n <= |mid.actions| && !c.Waiting() && !c.HoldsLock()
    requires Looks(mid.Last(), PushLock(item), c, capacity, count, false, flush)
    ensures Extends(r, r', n) && n <= |r'.actions|
    ensures if count < capacity then Looks(r'.Last(), Idle, c, capacity, count + 1, false, flush)
            else Looks(r'.Last(), PushWait(item), c, capacity, count, true, flush)
  {
    hide IsRun, Trace.DisciplinedFrom;
    r' := TakeNext(r, mid, Lock(PUSHER), n);
    assert r'.Last().pcs == [PushTest(item), c];
    r' := TakeNext(r, r', Run(PUSHER, None), n);
  }

  /** Pushes until the queue is full. */
  lemma {:induction false} Fill(r: Trace, c: Pc, capacity: nat, count: nat, flush: bool) returns (r': Trace)
    requires r.Valid() && (c == Idle || c == FlushWoken)
    requires Looks(r.Last(), Idle, c, capacity, count, false, flush)
    ensures Extends(r, r', |r.actions|) && Looks(r'.Last(), Idle, c, capacity, capacity, false, flush)
    decreases capacity - count, 0
  {
    if count == capacity {
      r' := r;
    } else {
      r' := Take(r, Start(PUSHER, Push(0)));
      hide IsRun, Trace.DisciplinedFrom;
      var item := r'.Last().pcs[PUSHER].item;
      assert r'.Last().pcs == [PushLock(item), c];
      r' := FinishPush(r, r', |r.actions|, item, c, capacity, count, flush);
      r' := FillFrom(r, r', c, capacity, count + 1, flush);
    }
  }

  lemma {:induction false} FillFrom(r: Trace, mid: Trace, c: Pc, capacity: nat, count: nat, flush: bool)
    returns (r': Trace)
    requires Extends(r, mid, |r.actions|) && (c == Idle || c == FlushWoken)
    requires Looks(mid.Last(), Idle, c, capacity, count, false, flush)
    ensures Extends(r, r', |r.actions|) && Looks(r'.Last(), Idle, c, capacity, capacity, false, flush)
    decreases capacity - count, 1
  {
    r' := Fill(mid, c, capacity, count, flush);
    Join(r, mid, r', |r.actions|);
  }

  /** A flush that finds the pusher asleep wakes it, and is acknowledged: the pusher returns. */
  lemma FlushAcknowledged(r: Trace, mid: Trace, n: nat, item: Item, capacity: nat, count: nat) returns (r': Trace)
    requires Extends(r, mid, n) && n <= |mid.actions|
    requires Looks(mid.Last(), PushWait(item), Idle, capacity, count, true, false)
    ensures Extends(r, r', n) && Looks(r'.Last(), Idle, FlushWoken, capacity, count, false, true)
  {
    hide IsRun, Trace.DisciplinedFrom;
    r' := TakeNext(r, mid, Start(CONSUMER, Flush), n);
    assert r'.Last().pcs == [PushWait(item), FlushLock];
    r' := TakeNext(r, r', Lock(CONSUMER), n);
    assert r'.Last().pcs == [PushWait(item), FlushBody];
    r' := TakeNext(r, r', Run(CONSUMER, Some(PUSHER)), n);
    assert r'.Last().pcs == [PushWoken(item), FlushWait];
    r' := TakeNext(r, r', Lock(PUSHER), n);
    assert r'.Last().pcs == [PushResume(item), FlushWait];
    r' := TakeNext(r, r', Run(PUSHER, Some(CONSUMER)), n);
  }

  /** The flush drains the queue, without a signal, and the next shift finds it empty. */
  lemma DrainAndShift(r: Trace, mid: Trace, n: nat, item: Item, capacity: nat, count: nat) returns (r': Trace)
    requires Extends(r, mid, n) && n <= |mid.actions|
    requires Looks(mid.Last(), PushWait(item), FlushWoken, capacity, count, true, true)
    ensures Extends(r, r', n) && Looks(r'.Last(), PushWait(item), ShiftWait, capacity, 0, true, false)
  {
    hide IsRun, Trace.DisciplinedFrom;
    r' := TakeNext(r, mid, Lock(CONSUMER), n);
    assert r'.Last().pcs == [PushWait(item), FlushDrain];
    r' := TakeNext(r, r', Run(CONSUMER, None), n);
    assert r'.Last().pcs == [PushWait(item), Idle];
    r' := TakeNext(r, r', Start(CONSUMER, Shift), n);
    assert r'.Last().pcs == [PushWait(item), ShiftLock];
    r' := TakeNext(r, r', Lock(CONSUMER), n);
    assert r'.Last().pcs == [PushWait(item), ShiftTest];
    r' := TakeNext(r, r', Run(CONSUMER, None), n);
  }

  /** A push begun while a flush is pending and the queue is full goes to sleep; the flush drains the
      queue and the next shift goes to sleep as well. */
  lemma BreachLeadsToSleep(r: Trace, capacity: nat) returns (r': Trace)
    requires r.Valid() && Looks(r.Last(), Idle, FlushWoken, capacity, capacity, false, true)
    ensures PushLeadsToSleep(r, r') && r'.Last().count == 0
  {
    var n := |r.actions| + 1;
    var begun := Take(r, Start(PUSHER, Push(0)));
    var item := begun.Last().pcs[PUSHER].item;
    assert begun.Last().pcs == [PushLock(item), FlushWoken];
    r' := FinishPush(begun, begun, n, item, FlushWoken, capacity, capacity, true);
    r' := DrainAndShift(begun, r', n, item, capacity, capacity);
    Join(r, begun, r', n);
    assert r'.actions[|r.actions|] == begun.actions[|r.actions|];
  }

  /** With an idle pusher, a pending flush has been woken and nobody holds the mutex. */
  lemma PendingLooks(s: State)
    requires Inv(s) && TwoInv(s) && s.pcs[PUSHER].Idle? && FlushPending(s)
    ensures Looks(s, Idle, FlushWoken, s.capacity, s.count, false, true)
  {
    assert s.pcs == [s.pcs[0], s.pcs[1]];
    hide PushInv;
  }

  /** The discipline is exact, for every capacity and after every disciplined run: when the pusher is
      between calls, a push begun now can, with everything after it disciplined, end with both threads
      asleep for ever, if and only if a flush is pending and the queue is full. */
  lemma DisciplineIsExact(r: Trace)
    requires IsDisciplinedRun(r.states, r.actions) && r.Last().pcs != [] && r.Last().pcs[PUSHER].Idle?
    ensures |r.Last().pcs| == 2
    ensures (exists r' :: PushLeadsToSleep(r, r')) <==> FlushPending(r.Last()) && r.Last().count == r.Last().capacity
  {
    var s := r.Last();
    RunInv(r.states, r.actions, |r.actions|);
    RunTwoInv(r.states, r.actions, |r.actions|);
    if MayPush(s) {
      forall r' ensures !PushLeadsToSleep(r, r') {
        if PushNext(r, r') {
          PermittedPush(r, r');
        }
      }
    } else {
      PendingLooks(s);
      var r' := BreachLeadsToSleep(r, s.capacity);
    }
  }

  lemma PermittedPush(r: Trace, r': Trace)
    requires IsDisciplinedRun(r.states, r.actions) && |r.Last().pcs| == 2 && MayPush(r.Last())
    requires PushNext(r, r')
    ensures !BothAsleep(r'.Last())
  {
    hide IsRun;
    var n := |r.actions|;
    forall i | 0 <= i < |r'.actions| ensures |r'.states[i].pcs| == 2 && Discipline(r'.states[i], r'.actions[i]) {
      if i < n {
        assert r'.states[i] == r.states[i] && r'.actions[i] == r.actions[i];
      } else if i == n {
        assert r'.states[n] == r.states[n] == r.Last();
      }
    }
    NoLostWakeup(r'.states, r'.actions, |r'.actions|);
  }

  /** Whenever a flush is pending and the pusher idle, pushes without regard for the flush can end with
      both threads asleep for ever: the permitted ones fill the queue, the next one is a breach. */
  lemma PendingFlushCanGetStuck(r: Trace) returns (r': Trace)
    requires IsDisciplinedRun(r.states, r.actions) && |r.Last().pcs| == 2
    requires r.Last().pcs[PUSHER].Idle? && FlushPending(r.Last())
    ensures r'.Valid() && r.states <= r'.states && r.actions <= r'.actions
    ensures BothAsleep(r'.Last()) && r'.Last().count == 0 && !CanProceed(r'.Last())
  {
    var s := r.Last();
    RunInv(r.states, r.actions, |r.actions|);
    RunTwoInv(r.states, r.actions, |r.actions|);
    PendingLooks(s);
    var full := Fill(r, FlushWoken, s.capacity, s.count, true);
    r' := BreachLeadsToSleep(full, s.capacity);
    AsleepForEver(r'.Last());
  }

  /** For every capacity, a disciplined run reaches a state in which a push may not begin. */
  lemma FullFlushIsReachable(s0: State) returns (r: Trace)
    requires Init(s0) && |s0.pcs| == 2
    ensures IsDisciplinedRun(r.states, r.actions) && r.First() == s0
    ensures |r.Last().pcs| == 2 && r.Last().pcs[PUSHER].Idle? && !MayPush(r.Last())
  {
    var r0 := Trace([s0], []);
    assert s0.pcs == [Idle, Idle];
    r := Fill(r0, Idle, s0.capacity, 0, false);
    var full := r;
    r := Take(full, Start(PUSHER, Push(0)));
    var item := r.Last().pcs[PUSHER].item;
    assert r.Last().pcs == [PushLock(item), Idle];
    Join(r0, full, r, 0);
    r := FinishPush(r0, r, 0, item, Idle, s0.capacity, s0.capacity, false);
    r := FlushAcknowledged(r0, r, 0, item, s0.capacity, s0.capacity);
  }

  // ----- Why there may be only one pusher and one consumer -----

  /** The threads below `pushers` only push and the others only shift; nobody wakes without a signal. */
  ghost predicate Roles(r: Trace, pushers: nat) {
    forall i | 0 <= i < |r.actions| :: Role(r.actions[i], pushers)
  }

  ghost predicate Role(a: Action, pushers: nat) {
    !a.Spurious? && (a.Start? ==> if a.t < pushers then a.op.Push? else a.op.Shift?)
  }

  /** Every thread sleeps. */
  ghost predicate AllAsleep(s: State) { forall t | 0 <= t < |s.pcs| :: s.pcs[t].Waiting() }

  /** Then nothing can happen any more, unless a thread wakes without a signal. */
  lemma AllAsleepForEver(s: State, a: Action)
    requires AllAsleep(s) && Enabled(s, a)
    ensures a.Spurious?
  {
  }

  /** What threads that do not flush depend on. */
  ghost predicate Stands(s: State, pcs: seq<Pc>, holder: Option<nat>, capacity: nat, count: nat) {
    && s.capacity == capacity == |s.entries| && s.count == count <= capacity && !s.flush
    && s.holder == holder && s.pcs == pcs
  }

  /** A run of such threads, and where it has got to. */
  ghost predicate Reaches(r: Trace, s0: State, pushers: nat, pcs: seq<Pc>, holder: Option<nat>,
                          capacity: nat, count: nat)
  {
    r.Valid() && r.First() == s0 && Roles(r, pushers) && Stands(r.Last(), pcs, holder, capacity, count)
  }

  lemma GoOn(r: Trace, s0: State, pushers: nat, pcs: seq<Pc>, holder: Option<nat>, capacity: nat, count: nat, a: Action)
    returns (r': Trace)
    requires Reaches(r, s0, pushers, pcs, holder, capacity, count) && Role(a, pushers) && Enabled(r.Last(), a)
    ensures r'.Valid() && r'.First() == s0 && Roles(r', pushers) && r'.Last() == Step(r.Last(), a)
  {
    hide Role, Step, Enabled, IsRun;
    r' := Take(r, a);
    assert r'.First() == (r.states + [r'.Last()])[0];
  }

  /** Thread `t` begins a call and obtains the mutex. */
  lemma BeginCall(r: Trace, s0: State, pushers: nat, pcs: seq<Pc>, capacity: nat, count: nat, t: nat)
    returns (r': Trace, pc: Pc)
    requires Reaches(r, s0, pushers, pcs, None, capacity, count) && t < |pcs| && pcs[t].Idle?
    ensures if t < pushers then pc.PushTest? else pc.ShiftTest?
    ensures Reaches(r', s0, pushers, pcs[t := pc], Some(t), capacity, count)
  {
    hide IsRun, Roles;
    var a := Start(t, if t < pushers then Push(0) else Shift);
    r' := GoOn(r, s0, pushers, pcs, None, capacity, count, a);
    var lock := r'.Last().pcs[t];
    assert Reaches(r', s0, pushers, pcs[t := lock], None, capacity, count);
    r' := GoOn(r', s0, pushers, pcs[t := lock], None, capacity, count, Lock(t));
    pc := r'.Last().pcs[t];
    assert pcs[t := lock][t := pc] == pcs[t := pc];
  }

  /** Thread `t`, in a shift, empties a queue that is not full and then goes to sleep. It signals nobody. */
  lemma {:induction false} ShiftUntilAsleep(r: Trace, s0: State, pushers: nat, pcs: seq<Pc>, capacity: nat, count: nat,
                                           t: nat) returns (r': Trace)
    requires Reaches(r, s0, pushers, pcs, Some(t), capacity, count) && count < capacity
    requires pushers <= t < |pcs| && pcs[t].ShiftTest?
    ensures Reaches(r', s0, pushers, pcs[t := ShiftWait], None, capacity, 0)
    decreases count
  {
    hide IsRun, Roles;
    r' := GoOn(r, s0, pushers, pcs, Some(t), capacity, count, Run(t, None));
    if count > 0 {
      assert Reaches(r', s0, pushers, pcs[t := Idle], None, capacity, count - 1);
      var pc: Pc;
      r', pc := BeginCall(r', s0, pushers, pcs[t := Idle], capacity, count - 1, t);
      var next := pcs[t := Idle][t := pc];
      r' := ShiftUntilAsleep(r', s0, pushers, next, capacity, count - 1, t);
      assert next[t := ShiftWait] == pcs[t := ShiftWait];
    }
  }

  /** Thread `t`, in a push, fills a queue that is not empty and then goes to sleep. It signals nobody. */
  lemma {:induction false} PushUntilAsleep(r: Trace, s0: State, pushers: nat, pcs: seq<Pc>, capacity: nat, count: nat,
                                          t: nat) returns (r': Trace, item: Item)
    requires Reaches(r, s0, pushers, pcs, Some(t), capacity, count) && count > 0
    requires t < pushers && t < |pcs| && pcs[t].PushTest?
    ensures Reaches(r', s0, pushers, pcs[t := PushWait(item)], None, capacity, capacity)
    decreases capacity - count
  {
    hide IsRun, Roles;
    r' := GoOn(r, s0, pushers, pcs, Some(t), capacity, count, Run(t, None));
    item := pcs[t].item;
    if count < capacity {
      assert Reaches(r', s0, pushers, pcs[t := Idle], None, capacity, count + 1);
      var pc: Pc;
      r', pc := BeginCall(r', s0, pushers, pcs[t := Idle], capacity, count + 1, t);
      var next := pcs[t := Idle][t := pc];
      r', item := PushUntilAsleep(r', s0, pushers, next, capacity, count + 1, t);
      assert next[t := PushWait(item)] == pcs[t := PushWait(item)];
    }
  }

  /** Thread `t` runs its critical section, which lets the mutex go and signals thread `u`. */
  lemma RunAndWake(r: Trace, s0: State, pushers: nat, pcs: seq<Pc>, capacity: nat, count: nat, t: nat, u: nat)
    returns (r': Trace)
    requires Reaches(r, s0, pushers, pcs, Some(t), capacity, count) && t < |pcs| && u < |pcs| && pcs[u].Waiting()
    requires (pcs[t].PushTest? && count == 0 < capacity) || (pcs[t].ShiftTest? && count == capacity > 0)
    ensures Reaches(r', s0, pushers, pcs[u := pcs[u].Wake()][t := Idle], None, capacity,
                    if pcs[t].PushTest? then 1 else capacity - 1)
  {
    hide IsRun, Roles;
    r' := GoOn(r, s0, pushers, pcs, Some(t), capacity, count, Run(t, Some(u)));
  }

  /** Two consumers go to sleep, one of them is woken by a push, and the pusher fills the queue. */
  lemma ConsumersAndFullQueue(s0: State) returns (r: Trace, item: Item)
    requires Init(s0) && |s0.pcs| == 3
    ensures Reaches(r, s0, 1, [PushWait(item), ShiftWoken, ShiftWait], None, s0.capacity, s0.capacity)
  {
    var c, pc := s0.capacity, Idle;
    r := Trace([s0], []);
    assert s0.pcs == [Idle, Idle, Idle];
    hide IsRun, Roles, Init;
    r, pc := BeginCall(r, s0, 1, [Idle, Idle, Idle], c, 0, 1);
    r := ShiftUntilAsleep(r, s0, 1, [Idle, pc, Idle], c, 0, 1);
    r, pc := BeginCall(r, s0, 1, [Idle, ShiftWait, Idle], c, 0, 2);
    r := ShiftUntilAsleep(r, s0, 1, [Idle, ShiftWait, pc], c, 0, 2);
    r, pc := BeginCall(r, s0, 1, [Idle, ShiftWait, ShiftWait], c, 0, 0);
    r := RunAndWake(r, s0, 1, [pc, ShiftWait, ShiftWait], c, 0, 0, 1);
    r, pc := BeginCall(r, s0, 1, [Idle, ShiftWoken, ShiftWait], c, 1, 0);
    r, item := PushUntilAsleep(r, s0, 1, [pc, ShiftWoken, ShiftWait], c, 1, 0);
  }

  /** With two consumers a wakeup can be lost, whatever the capacity: a shift that makes room signals the
      other consumer instead of the pusher, and in the end everybody sleeps on an empty queue. */
  lemma TwoConsumersCanGetStuck(s0: State) returns (r: Trace)
    requires Init(s0) && |s0.pcs| == 3
    ensures r.Valid() && r.First() == s0 && Roles(r, 1)
    ensures |r.Last().pcs| == 3 && AllAsleep(r.Last()) && r.Last().count == 0
    ensures forall a | Enabled(r.Last(), a) :: a.Spurious?
  {
    assert s0.capacity > 0;
    hide IsRun, Roles, Init;
    var c, pc, item := s0.capacity, Idle, Item(0, 0);
    r, item := ConsumersAndFullQueue(s0);
    r := GoOn(r, s0, 1, [PushWait(item), ShiftWoken, ShiftWait], None, c, c, Lock(1));
    r := RunAndWake(r, s0, 1, [PushWait(item), ShiftTest, ShiftWait], c, c, 1, 2);
    r := GoOn(r, s0, 1, [PushWait(item), Idle, ShiftWoken], None, c, c - 1, Lock(2));
    r := ShiftUntilAsleep(r, s0, 1, [PushWait(item), Idle, ShiftTest], c, c - 1, 2);
    r, pc := BeginCall(r, s0, 1, [PushWait(item), Idle, ShiftWait], c, 0, 1);
    r := ShiftUntilAsleep(r, s0, 1, [PushWait(item), pc, ShiftWait], c, 0, 1);
    forall a | Enabled(r.Last(), a) ensures a.Spurious? {
      AllAsleepForEver(r.Last(), a);
    }
  }

  /** Two pushers go to sleep on a full queue; one of them is woken by a shift, and the consumer empties the
      queue before that one runs. */
  lemma PushersAndEmptyQueue(s0: State) returns (r: Trace, i: Item, j: Item)
    requires Init(s0) && |s0.pcs| == 3
    ensures Reaches(r, s0, 2, [PushWoken(i), PushWait(j), ShiftWait], None, s0.capacity, 0)
  {
    var c, pc := s0.capacity, Idle;
    r := Trace([s0], []);
    assert s0.pcs == [Idle, Idle, Idle] && c > 0;
    hide IsRun, Roles, Init;
    r, pc := BeginCall(r, s0, 2, [Idle, Idle, Idle], c, 0, 0);
    r := GoOn(r, s0, 2, [pc, Idle, Idle], Some(0), c, 0, Run(0, None));
    assert Reaches(r, s0, 2, [Idle, Idle, Idle], None, c, 1);
    r, pc := BeginCall(r, s0, 2, [Idle, Idle, Idle], c, 1, 0);
    r, i := PushUntilAsleep(r, s0, 2, [pc, Idle, Idle], c, 1, 0);
    r, pc := BeginCall(r, s0, 2, [PushWait(i), Idle, Idle], c, c, 1);
    r, j := PushUntilAsleep(r, s0, 2, [PushWait(i), pc, Idle], c, c, 1);
    r, pc := BeginCall(r, s0, 2, [PushWait(i), PushWait(j), Idle], c, c, 2);
    r := RunAndWake(r, s0, 2, [PushWait(i), PushWait(j), pc], c, c, 2, 0);
    r, pc := BeginCall(r, s0, 2, [PushWoken(i), PushWait(j), Idle], c, c - 1, 2);
    r := ShiftUntilAsleep(r, s0, 2, [PushWoken(i), PushWait(j), pc], c, c - 1, 2);
  }

  /** The same with two pushers: a push into the empty queue signals the other pusher instead of the
      consumer, and in the end everybody sleeps on a full queue. */
  lemma TwoPushersCanGetStuck(s0: State) returns (r: Trace)
    requires Init(s0) && |s0.pcs| == 3
    ensures r.Valid() && r.First() == s0 && Roles(r, 2)
    ensures |r.Last().pcs| == 3 && AllAsleep(r.Last()) && r.Last().count == r.Last().capacity
    ensures forall a | Enabled(r.Last(), a) :: a.Spurious?
  {
    assert s0.capacity > 0;
    hide IsRun, Roles, Init;
    var c, pc, i, j := s0.capacity, Idle, Item(0, 0), Item(0, 0);
    r, i, j := PushersAndEmptyQueue(s0);
    r := Resume(r, s0, [PushWoken(i), PushWait(j), ShiftWait], c, 0, 0);
    r := RunAndWake(r, s0, 2, [PushTest(i), PushWait(j), ShiftWait], c, 0, 0, 1);
    r := Resume(r, s0, [Idle, PushWoken(j), ShiftWait], c, 1, 1);
    r, j := PushUntilAsleep(r, s0, 2, [Idle, PushTest(j), ShiftWait], c, 1, 1);
    r, pc := BeginCall(r, s0, 2, [Idle, PushWait(j), ShiftWait], c, c, 0);
    r, i := PushUntilAsleep(r, s0, 2, [pc, PushWait(j), ShiftWait], c, c, 0);
    forall a | Enabled(r.Last(), a) ensures a.Spurious? {
      AllAsleepForEver(r.Last(), a);
    }
  }

  /** A woken pusher obtains the mutex and tests again. */
  lemma Resume(r: Trace, s0: State, pcs: seq<Pc>, capacity: nat, count: nat, t: nat) returns (r': Trace)
    requires Reaches(r, s0, 2, pcs, None, capacity, count) && t < |pcs| && pcs[t].PushWoken?
    ensures Reaches(r', s0, 2, pcs[t := PushTest(pcs[t].item)], Some(t), capacity, count)
  {
    hide IsRun, Roles;
    var item := pcs[t].item;
    r' := GoOn(r, s0, 2, pcs, None, capacity, count, Lock(t));
    assert Reaches(r', s0, 2, pcs[t := PushResume(item)], Some(t), capacity, count);
    r' := GoOn(r', s0, 2, pcs[t := PushResume(item)], Some(t), capacity, count, Run(t, None));
    assert pcs[t := PushResume(item)][t := PushTest(item)] == pcs[t := PushTest(item)];
  }
}
