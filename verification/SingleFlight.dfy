/** The protocol of crates/tv-engine/src/materializer.rs as a state machine: every interleaving of
    calls to `get_or_materialize` with evictions, invalidations and replacements. Each action is
    what one task does between two points at which another task may run. */
module SingleFlight {
  import opened Seqs
  import opened Exprs
  import opened ViewKinds

  type Key = string

  const WRAP: nat := 0x1_0000_0000_0000_0000

  datatype View = View(id: nat, kind: ViewKind, size: nat) {
    const provisional: bool := IsProvisional(kind)
    const disk: bool := IsDiskBacked(kind)
  }

  datatype Outcome = Good(view: View) | Bad

  /** A cache entry; only in-memory views count bytes. */
  datatype Entry = Entry(view: View, seqNo: nat)

  function BytesOf(v: View): nat {
    if v.disk then 0 else v.size
  }

  function DiskOf(v: View): nat {
    if v.disk then 1 else 0
  }

  /** A watch channel: the key it is for, the task that made it, and the value once sent. */
  datatype Channel = Channel(key: Key, builder: nat, value: Option<Outcome>)

  /** Where a call stands. `tx` is the channel end a builder took out of the pending table. */
  datatype Phase =
    | Start
    | Missed
    | Waiting(chan: nat)
    | Building(chan: nat)
    | Built(chan: nat, result: Outcome)
    | Unregistered(tx: Option<nat>, result: Outcome)
    | RoomMade(tx: Option<nat>, view: View)
    | Owing(tx: Option<nat>, view: View)
    | Sending(tx: Option<nat>, result: Outcome)
    | Done(result: Outcome)

  /** A call: its key, what it would build the view with, and where it stands. */
  datatype Task = Task(key: Key, builder: Builder, phase: Phase)

  /** `touched` records the keys an eviction, an invalidation or a replacement has hit. */
  datatype State = State(
    entries: map<Key, Entry>,
    pending: map<Key, nat>,
    channels: seq<Channel>,
    tasks: seq<Task>,
    currentBytes: nat,
    diskCount: nat,
    accessSeq: nat,
    touched: set<Key>
  )

  datatype Action =
    | Call(key: Key, builder: Builder)
    | Lookup(t: nat)
    | Register(t: nat)
    | Receive(t: nat)
    | FinishBuild(t: nat, result: Outcome, seen: Observed)
    | Unregister(t: nat)
    | MakeRoom(t: nat, victims: set<Key>)
    | Store(t: nat)
    | PayOwed(t: nat)
    | Publish(t: nat)
    | Touch(key: Key)
    | Evict(disk: bool, victims: set<Key>)
    | Put(key: Key, ops: seq<ViewOp>, seen: Observed, view: View)
    | Invalidate(source: string)

  const EMPTY: State := State(map[], map[], [], [], 0, 0, 0, {})

  // ---- counters

  function AddWrap(c: nat, n: nat): nat {
    (c + n) % WRAP
  }

  function SubWrap(c: nat, n: nat): nat {
    (c + WRAP - n % WRAP) % WRAP
  }

  /** The in-memory bytes and the disk-backed entries of a cache. */
  ghost function BytesIn(m: map<Key, Entry>): nat {
    if m == map[] then 0 else var k :| k in m; BytesOf(m[k].view) + BytesIn(m - {k})
  }

  ghost function DisksIn(m: map<Key, Entry>): nat {
    if m == map[] then 0 else var k :| k in m; DiskOf(m[k].view) + DisksIn(m - {k})
  }

  // ---- actions

  function Restricted(m: map<Key, Entry>, keys: set<Key>): map<Key, Entry> {
    map k | k in m && k in keys :: m[k]
  }

  /** Victims are entries of the kind that needs room. Which ones is `ViewCache`'s matter. */
  predicate Evictable(s: State, disk: bool, victims: set<Key>) {
    forall k :: k in victims ==> k in s.entries && s.entries[k].view.disk == disk
  }

  ghost function Evicted(s: State, victims: set<Key>): State {
    s.(entries := s.entries - victims,
       currentBytes := SubWrap(s.currentBytes, BytesIn(Restricted(s.entries, victims))),
       diskCount := SubWrap(s.diskCount, DisksIn(Restricted(s.entries, victims))),
       touched := s.touched + victims)
  }

  function Touched(s: State, key: Key): State
    requires key in s.entries
  {
    s.(entries := s.entries[key := s.entries[key].(seqNo := s.accessSeq)], accessSeq := s.accessSeq + 1)
  }

  function Moved(s: State, t: nat, phase: Phase): State
    requires t < |s.tasks|
  {
    s.(tasks := s.tasks[t := s.tasks[t].(phase := phase)])
  }

  function Sent(s: State, tx: Option<nat>, result: Outcome): State {
    if tx.Some? && tx.value < |s.channels| then s.(channels := s.channels[tx.value := s.channels[tx.value].(value := Some(result))])
    else s
  }

  /** `invalidate_source` drops the keys that begin with the source and a colon. */
  predicate OfSource(k: Key, source: string) {
    source + ":" <= k
  }

  /** One action by task `t`; `None` when it is not the task's turn to do that. */
  ghost function TaskStep(s: State, a: Action, t: nat): (next: Option<State>)
    requires t < |s.tasks|
  {
    var key, phase := s.tasks[t].key, s.tasks[t].phase;
    match (a, phase)
    case (Lookup(_), Start) =>
      if key in s.entries then Some(Moved(Touched(s, key), t, Done(Good(s.entries[key].view)))) else Some(Moved(s, t, Missed))
    case (Register(_), Missed) =>
      if key in s.pending then Some(Moved(s, t, Waiting(s.pending[key])))
      else
        var c := |s.channels|;
        Some(Moved(s, t, Building(c)).(channels := s.channels + [Channel(key, t, None)], pending := s.pending[key := c]))
    case (Receive(_), Waiting(c)) =>
      if c < |s.channels| && s.channels[c].value.Some? then Some(Moved(s, t, Done(s.channels[c].value.value))) else None
    case (FinishBuild(_, result, seen), Building(c)) =>
      if result.Good? ==> result.view.kind == BuilderKind(s.tasks[t].builder, seen) then Some(Moved(s, t, Built(c, result))) else None
    case (Unregister(_), Built(_, result)) =>
      var tx := if key in s.pending then Some(s.pending[key]) else None;
      Some(Moved(s, t, Unregistered(tx, result)).(pending := s.pending - {key}))
    case (MakeRoom(_, victims), Unregistered(tx, Good(view))) =>
      if Evictable(s, view.disk, victims) then Some(Moved(Evicted(s, victims), t, RoomMade(tx, view))) else None
    case (Publish(_), Unregistered(tx, Bad)) => Some(Moved(Sent(s, tx, Bad), t, Done(Bad)))
    case (Store(_), RoomMade(tx, view)) =>
      if key in s.entries then Some(Moved(Touched(s, key), t, Sending(tx, Good(s.entries[key].view))))
      else Some(Moved(s, t, Owing(tx, view)).(entries := s.entries[key := Entry(view, s.accessSeq)], accessSeq := s.accessSeq + 1))
    case (PayOwed(_), Owing(tx, view)) =>
      Some(Moved(s, t, Sending(tx, Good(view)))
           .(currentBytes := AddWrap(s.currentBytes, BytesOf(view)), diskCount := AddWrap(s.diskCount, DiskOf(view))))
    case (Publish(_), Sending(tx, result)) => Some(Moved(Sent(s, tx, result), t, Done(result)))
    case _ => None
  }

  /** `insert`: the old entry's share leaves the counters and the new one's enters, all under the lock. */
  ghost function Stored(s: State, key: Key, view: View): State {
    var prev := if key in s.entries then Some(s.entries[key].view) else None;
    s.(entries := s.entries[key := Entry(view, s.accessSeq)],
       accessSeq := s.accessSeq + 1,
       currentBytes := AddWrap(if prev.Some? then SubWrap(s.currentBytes, BytesOf(prev.value)) else s.currentBytes, BytesOf(view)),
       diskCount := AddWrap(if prev.Some? then SubWrap(s.diskCount, DiskOf(prev.value)) else s.diskCount, DiskOf(view)),
       touched := s.touched + {key})
  }

  ghost function Step(s: State, a: Action): (next: Option<State>) {
    match a
    case Call(key, builder) => Some(s.(tasks := s.tasks + [Task(key, builder, Start)]))
    case Touch(key) => if key in s.entries then Some(Touched(s, key)) else None
    case Evict(disk, victims) => if Evictable(s, disk, victims) then Some(Evicted(s, victims)) else None
    case Put(key, ops, seen, view) => if view.kind == BuildFullKind(ops, seen) then Some(Stored(s, key, view)) else None
    case Invalidate(source) => Some(Evicted(s, set k | k in s.entries && OfSource(k, source)))
    case _ => if a.t < |s.tasks| then TaskStep(s, a, a.t) else None
  }

  /** The state after a run from the empty cache; `None` if some action was not possible. */
  ghost function After(run: seq<Action>): Option<State> {
    if run == [] then Some(EMPTY)
    else
      var before := After(run[..|run| - 1]);
      if before.None? then None else Step(before.value, run[|run| - 1])
  }

  // ---- who holds which channel

  /** The channel whose sending end a task holds. */
  function Held(p: Phase): Option<nat> {
    match p
    case Building(c) => Some(c)
    case Built(c, _) => Some(c)
    case Unregistered(tx, _) => tx
    case RoomMade(tx, _) => tx
    case Owing(tx, _) => tx
    case Sending(tx, _) => tx
    case _ => None
  }

  /** The channel a task has put into the pending table and not taken out yet. */
  function Registered(p: Phase): Option<nat> {
    match p
    case Building(c) => Some(c)
    case Built(c, _) => Some(c)
    case _ => None
  }

  ghost predicate HeldIsOpen(s: State, t: nat)
    requires t < |s.tasks|
  {
    var c := Held(s.tasks[t].phase);
    c.Some? ==> c.value < |s.channels| && s.channels[c.value] == Channel(s.tasks[t].key, t, None)
  }

  ghost predicate RegisteredIsPending(s: State, t: nat)
    requires t < |s.tasks|
  {
    var c := Registered(s.tasks[t].phase);
    c.Some? ==> s.tasks[t].key in s.pending && s.pending[s.tasks[t].key] == c.value
  }

  ghost predicate WaitsForItsKey(s: State, t: nat)
    requires t < |s.tasks|
  {
    s.tasks[t].phase.Waiting? ==> s.tasks[t].phase.chan < |s.channels| && s.channels[s.tasks[t].phase.chan].key == s.tasks[t].key
  }

  ghost predicate PendingIsBuilding(s: State, k: Key)
    requires k in s.pending
  {
    var c := s.pending[k];
    c < |s.channels| && s.channels[c].builder < |s.tasks| &&
    s.tasks[s.channels[c].builder].key == k && Registered(s.tasks[s.channels[c].builder].phase) == Some(c)
  }

  ghost predicate OpenIsHeld(s: State, c: nat)
    requires c < |s.channels|
  {
    s.channels[c].value.None? ==> s.channels[c].builder < |s.tasks| && Held(s.tasks[s.channels[c].builder].phase) == Some(c)
  }

  ghost predicate TaskInv(s: State, t: nat)
    requires t < |s.tasks|
  {
    HeldIsOpen(s, t) && RegisteredIsPending(s, t) && WaitsForItsKey(s, t)
  }

  /** The structural invariant: pending keys, channels and builders match one to one. */
  ghost predicate Inv(s: State) {
    && (forall t :: 0 <= t < |s.tasks| ==> TaskInv(s, t))
    && (forall k :: k in s.pending ==> PendingIsBuilding(s, k))
    && (forall c :: 0 <= c < |s.channels| ==> OpenIsHeld(s, c))
  }

  /** What the structural invariant looks at. */
  predicate SameShape(a: State, b: State) {
    a.pending == b.pending && a.channels == b.channels && a.tasks == b.tasks
  }

  lemma ShapeKeepsInv(a: State, b: State)
    requires Inv(a) && SameShape(a, b)
    ensures Inv(b)
  {
    forall t | 0 <= t < |b.tasks|
      ensures TaskInv(b, t)
    {
      assert TaskInv(a, t);
    }
    forall k | k in b.pending
      ensures PendingIsBuilding(b, k)
    {
      assert PendingIsBuilding(a, k);
    }
    forall c | 0 <= c < |b.channels|
      ensures OpenIsHeld(b, c)
    {
      assert OpenIsHeld(a, c);
    }
  }

  /** A move that changes neither what the task holds nor what it has registered. */
  lemma MoveKeepsInv(s: State, t: nat, phase: Phase)
    requires Inv(s) && t < |s.tasks|
    requires Held(phase) == Held(s.tasks[t].phase) && Registered(phase) == Registered(s.tasks[t].phase)
    requires phase.Waiting? ==> phase.chan < |s.channels| && s.channels[phase.chan].key == s.tasks[t].key
    ensures Inv(Moved(s, t, phase))
  {
    var next := Moved(s, t, phase);
    forall u | 0 <= u < |next.tasks|
      ensures TaskInv(next, u)
    {
      assert TaskInv(s, u);
    }
    forall k | k in next.pending
      ensures PendingIsBuilding(next, k)
    {
      assert PendingIsBuilding(s, k);
    }
    forall c | 0 <= c < |next.channels|
      ensures OpenIsHeld(next, c)
    {
      assert OpenIsHeld(s, c);
    }
  }

  lemma CallKeepsInv(s: State, key: Key, builder: Builder)
    requires Inv(s)
    ensures Inv(s.(tasks := s.tasks + [Task(key, builder, Start)]))
  {
    var next := s.(tasks := s.tasks + [Task(key, builder, Start)]);
    forall u | 0 <= u < |next.tasks|
      ensures TaskInv(next, u)
    {
      assert u < |s.tasks| ==> TaskInv(s, u);
    }
    forall k | k in next.pending
      ensures PendingIsBuilding(next, k)
    {
      assert PendingIsBuilding(s, k);
    }
    forall c | 0 <= c < |next.channels|
      ensures OpenIsHeld(next, c)
    {
      assert OpenIsHeld(s, c);
    }
  }

  /** A missed call finds the key pending and waits, or opens a channel and builds. */
  lemma RegisterKeepsInv(s: State, t: nat)
    requires Inv(s) && t < |s.tasks| && s.tasks[t].phase.Missed?
    ensures Inv(TaskStep(s, Register(t), t).value)
  {
    var key, next := s.tasks[t].key, TaskStep(s, Register(t), t).value;
    if key in s.pending {
      assert PendingIsBuilding(s, key);
      assert OpenIsHeld(s, s.pending[key]);
      assert TaskInv(s, s.channels[s.pending[key]].builder);
      MoveKeepsInv(s, t, Waiting(s.pending[key]));
    } else {
      forall u | 0 <= u < |next.tasks|
        ensures TaskInv(next, u)
      {
        assert TaskInv(s, u);
      }
      forall k | k in next.pending
        ensures PendingIsBuilding(next, k)
      {
        assert k != key ==> PendingIsBuilding(s, k);
      }
      forall c | 0 <= c < |next.channels|
        ensures OpenIsHeld(next, c)
      {
        assert c < |s.channels| ==> OpenIsHeld(s, c);
      }
    }
  }

  /** A builder takes out of the pending table the very channel it put in. */
  lemma UnregisterKeepsInv(s: State, t: nat)
    requires Inv(s) && t < |s.tasks| && s.tasks[t].phase.Built?
    ensures Inv(TaskStep(s, Unregister(t), t).value)
    ensures TaskStep(s, Unregister(t), t).value.tasks[t].phase == Unregistered(Some(s.tasks[t].phase.chan), s.tasks[t].phase.result)
  {
    var key, next := s.tasks[t].key, TaskStep(s, Unregister(t), t).value;
    assert TaskInv(s, t);
    forall u | 0 <= u < |next.tasks|
      ensures TaskInv(next, u)
    {
      assert TaskInv(s, u);
    }
    forall k | k in next.pending
      ensures PendingIsBuilding(next, k)
    {
      assert PendingIsBuilding(s, k);
    }
    forall c | 0 <= c < |next.channels|
      ensures OpenIsHeld(next, c)
    {
      assert OpenIsHeld(s, c);
    }
  }

  lemma PublishKeepsInv(s: State, t: nat, tx: Option<nat>, result: Outcome)
    requires Inv(s) && t < |s.tasks| && Held(s.tasks[t].phase) == tx && Registered(s.tasks[t].phase) == None
    ensures Inv(Moved(Sent(s, tx, result), t, Done(result)))
  {
    var next := Moved(Sent(s, tx, result), t, Done(result));
    assert TaskInv(s, t);
    forall u | 0 <= u < |next.tasks|
      ensures TaskInv(next, u)
    {
      assert TaskInv(s, u);
    }
    forall k | k in next.pending
      ensures PendingIsBuilding(next, k)
    {
      assert PendingIsBuilding(s, k);
    }
    forall c | 0 <= c < |next.channels|
      ensures OpenIsHeld(next, c)
    {
      assert OpenIsHeld(s, c);
    }
  }

  /** Most steps of a task change nothing the structural invariant looks at but its phase, and not what it holds. */
  lemma TaskStepShape(s: State, a: Action, t: nat)
    requires t < |s.tasks| && TaskStep(s, a, t).Some? && !s.tasks[t].phase.Missed? && !s.tasks[t].phase.Built? && !a.Publish?
    ensures t < |TaskStep(s, a, t).value.tasks|
    ensures var phase, next := s.tasks[t].phase, TaskStep(s, a, t).value;
            && SameShape(Moved(s, t, next.tasks[t].phase), next) && !next.tasks[t].phase.Waiting?
            && Held(next.tasks[t].phase) == Held(phase) && Registered(next.tasks[t].phase) == Registered(phase)
  {
  }

  lemma TaskStepKeepsInv(s: State, a: Action, t: nat)
    requires Inv(s) && t < |s.tasks| && TaskStep(s, a, t).Some?
    ensures Inv(TaskStep(s, a, t).value)
  {
    var phase, next := s.tasks[t].phase, TaskStep(s, a, t).value;
    if phase.Missed? {
      RegisterKeepsInv(s, t);
    } else if phase.Built? {
      UnregisterKeepsInv(s, t);
    } else if a.Publish? {
      PublishKeepsInv(s, t, phase.tx, phase.result);
    } else {
      TaskStepShape(s, a, t);
      MoveKeepsInv(s, t, next.tasks[t].phase);
      ShapeKeepsInv(Moved(s, t, next.tasks[t].phase), next);
    }
  }

  /** Every action keeps the structural invariant. */
  lemma StepKeepsInv(s: State, a: Action)
    requires Inv(s) && Step(s, a).Some?
    ensures Inv(Step(s, a).value)
  {
    match a
    case Call(key, builder) => CallKeepsInv(s, key, builder);
    case Touch(_) => ShapeKeepsInv(s, Step(s, a).value);
    case Evict(_, _) => ShapeKeepsInv(s, Step(s, a).value);
    case Put(_, _, _, _) => ShapeKeepsInv(s, Step(s, a).value);
    case Invalidate(_) => ShapeKeepsInv(s, Step(s, a).value);
    case _ => TaskStepKeepsInv(s, a, a.t);
  }

  /** The invariant holds after every run, whatever the interleaving. */
  lemma {:induction false} RunKeepsInv(run: seq<Action>)
    requires After(run).Some?
    ensures Inv(After(run).value)
  {
    if run != [] {
      var before := run[..|run| - 1];
      RunKeepsInv(before);
      StepKeepsInv(After(before).value, run[|run| - 1]);
    }
  }

  // ---- single flight

  /** Whether a task is running its builder for `k`, from the pending table's point of view. */
  predicate Builds(s: State, t: nat, k: Key) {
    t < |s.tasks| && s.tasks[t].key == k && Registered(s.tasks[t].phase).Some?
  }

  /** After every run, a key is pending exactly when a task is building it, and then exactly one is. */
  lemma SingleBuilder(run: seq<Action>, k: Key)
    requires After(run).Some?
    ensures var s := After(run).value;
            && (k in s.pending <==> exists t :: Builds(s, t, k))
            && forall t, u :: Builds(s, t, k) && Builds(s, u, k) ==> t == u
  {
    var s := After(run).value;
    RunKeepsInv(run);
    if k in s.pending {
      assert PendingIsBuilding(s, k);
      assert Builds(s, s.channels[s.pending[k]].builder, k);
    }
    forall t, u | Builds(s, t, k) && Builds(s, u, k)
      ensures t == u
    {
      assert TaskInv(s, t) && TaskInv(s, u);
    }
    if exists t :: Builds(s, t, k) {
      var t :| Builds(s, t, k);
      assert TaskInv(s, t);
    }
  }

  /** What a task that holds a channel end can do next. */
  function NextOf(t: nat, p: Phase, result: Outcome, seen: Observed): Action {
    match p
    case Building(_) => FinishBuild(t, result, seen)
    case Built(_, _) => Unregister(t)
    case Unregistered(_, Good(_)) => MakeRoom(t, {})
    case RoomMade(_, _) => Store(t)
    case Owing(_, _) => PayOwed(t)
    case _ => Publish(t)
  }

  const NOTHING_SEEN: Observed := Observed(0, 0, 0, 0, 0, false)

  /** A task that holds a sending end has a step to take. */
  lemma HolderCanStep(s: State, b: nat)
    requires Inv(s) && b < |s.tasks| && Held(s.tasks[b].phase).Some?
    ensures Step(s, NextOf(b, s.tasks[b].phase, Bad, NOTHING_SEEN)).Some?
  {
    assert TaskInv(s, b);
  }

  /** How many steps a builder has left at most until it has sent its result. */
  function StepsLeft(p: Phase): (n: nat)
    ensures n <= 6
  {
    match p
    case Building(_) => 6
    case Built(_, _) => 5
    case Unregistered(_, _) => 4
    case RoomMade(_, _) => 3
    case Owing(_, _) => 2
    case Sending(_, _) => 1
    case _ => 0
  }

  /** The task whose step an action is. */
  function Actor(a: Action): Option<nat> {
    if a.Call? || a.Touch? || a.Evict? || a.Put? || a.Invalidate? then None else Some(a.t)
  }

  function StepsBy(run: seq<Action>, b: nat): nat {
    if run == [] then 0 else StepsBy(run[..|run| - 1], b) + if Actor(run[|run| - 1]) == Some(b) then 1 else 0
  }

  lemma TaskStepAdvances(s: State, a: Action, b: nat)
    requires b < |s.tasks| && TaskStep(s, a, b).Some? && StepsLeft(s.tasks[b].phase) > 0
    ensures b < |TaskStep(s, a, b).value.tasks|
    ensures var q := TaskStep(s, a, b).value.tasks[b].phase;
            StepsLeft(q) < StepsLeft(s.tasks[b].phase) && (StepsLeft(q) > 0 || q.Done?)
  {
  }

  lemma DoneTakesNoStep(s: State, a: Action, b: nat)
    requires b < |s.tasks| && s.tasks[b].phase.Done?
    ensures TaskStep(s, a, b).None?
  {
  }

  /** A step of the builder brings it closer to the end, a step of anyone else leaves it where it is. */
  lemma BuilderAdvances(s: State, a: Action, b: nat)
    requires b < |s.tasks| && Step(s, a).Some? && (StepsLeft(s.tasks[b].phase) > 0 || s.tasks[b].phase.Done?)
    ensures b < |Step(s, a).value.tasks|
    ensures var p, q := s.tasks[b].phase, Step(s, a).value.tasks[b].phase;
            && (StepsLeft(q) > 0 || q.Done?)
            && StepsLeft(q) + (if Actor(a) == Some(b) then 1 else 0) <= StepsLeft(p)
  {
    if Actor(a) == Some(b) {
      ActorKeepsKey(s, a, b);
      if s.tasks[b].phase.Done? {
        DoneTakesNoStep(s, a, b);
      } else {
        TaskStepAdvances(s, a, b);
      }
    } else {
      StepMovesActor(s, a, b);
    }
  }

  /** Once begun, a build ends: the steps its task takes and those it has left never exceed the ones it began with. */
  lemma {:induction false} BuilderProgress(run: seq<Action>, n: nat, b: nat)
    requires n <= |run| && After(run).Some? && After(run[..n]).Some? && b < |After(run[..n]).value.tasks|
    requires StepsLeft(After(run[..n]).value.tasks[b].phase) > 0 || After(run[..n]).value.tasks[b].phase.Done?
    ensures b < |After(run).value.tasks|
    ensures var p, q := After(run[..n]).value.tasks[b].phase, After(run).value.tasks[b].phase;
            && StepsBy(run[n..], b) + StepsLeft(q) <= StepsLeft(p)
            && (StepsLeft(q) > 0 || q.Done?)
    decreases |run|
  {
    if n == |run| {
      assert run[..n] == run && run[n..] == [];
    } else {
      var before, a := run[..|run| - 1], run[|run| - 1];
      assert before[..n] == run[..n] && run[n..][..|run| - n - 1] == before[n..];
      BuilderProgress(before, n, b);
      BuilderAdvances(After(before).value, a, b);
    }
  }

  /** A channel keeps its key, its builder and the value it carries. */
  predicate SameChannel(a: Channel, b: Channel) {
    a.key == b.key && a.builder == b.builder && (a.value.Some? ==> b.value.Some?)
  }

  /** A call keeps its key and builder, a waiter its channel until it receives, and a call that is done its result. */
  predicate SameCall(a: Task, b: Task) {
    && a.key == b.key && a.builder == b.builder
    && (a.phase.Waiting? ==> b.phase == a.phase || b.phase.Done?) && (a.phase.Done? ==> b.phase == a.phase)
  }

  ghost predicate Follows(s: State, next: State) {
    && |s.channels| <= |next.channels| && |s.tasks| <= |next.tasks|
    && (forall c :: 0 <= c < |s.channels| ==> SameChannel(s.channels[c], next.channels[c]))
    && (forall t :: 0 <= t < |s.tasks| ==> SameCall(s.tasks[t], next.tasks[t]))
  }

  /** A step of a task moves that task only. */
  lemma TaskStepMovesOne(s: State, a: Action, t: nat)
    requires t < |s.tasks| && TaskStep(s, a, t).Some?
    ensures |TaskStep(s, a, t).value.tasks| == |s.tasks|
    ensures var next := TaskStep(s, a, t).value;
            && (forall u :: 0 <= u < |s.tasks| && u != t ==> next.tasks[u] == s.tasks[u]) && SameCall(s.tasks[t], next.tasks[t])
  {
  }

  lemma TaskStepKeepsChannels(s: State, a: Action, t: nat)
    requires t < |s.tasks| && TaskStep(s, a, t).Some?
    ensures |s.channels| <= |TaskStep(s, a, t).value.channels|
    ensures forall c :: 0 <= c < |s.channels| ==> SameChannel(s.channels[c], TaskStep(s, a, t).value.channels[c])
  {
  }

  lemma StepFollows(s: State, a: Action)
    requires Step(s, a).Some?
    ensures Follows(s, Step(s, a).value)
  {
    if Actor(a).Some? {
      TaskStepMovesOne(s, a, a.t);
      TaskStepKeepsChannels(s, a, a.t);
    }
  }

  lemma {:induction false} RunFollows(run: seq<Action>, n: nat)
    requires n <= |run| && After(run).Some? && After(run[..n]).Some?
    ensures Follows(After(run[..n]).value, After(run).value)
    decreases |run|
  {
    if n == |run| {
      assert run[..n] == run;
    } else {
      var before := run[..|run| - 1];
      assert before[..n] == run[..n];
      RunFollows(before, n);
      StepFollows(After(before).value, run[|run| - 1]);
    }
  }

  /** No wait is in vain. From the moment `n` at which call `t` waits on a channel, the task that made the channel, for
      the same key, takes no more steps than it has left then, at most six. As long as the channel carries no value
      that task has a step to take; once it does, the waiter can receive it. */
  lemma WaitersAreServed(run: seq<Action>, n: nat, t: nat)
    requires n <= |run| && After(run).Some? && After(run[..n]).Some? && t < |After(run[..n]).value.tasks|
    requires After(run[..n]).value.tasks[t].phase.Waiting?
    ensures var s, now := After(run[..n]).value, After(run).value;
            var c := s.tasks[t].phase.chan;
            && c < |s.channels| && c < |now.channels| && t < |now.tasks|
            && (now.channels[c].value.Some? ==> now.tasks[t].phase.Done? || Step(now, Receive(t)).Some?)
            && (now.channels[c].value.None? ==>
                  var b := s.channels[c].builder;
                  && b < |s.tasks| && s.tasks[b].key == s.tasks[t].key && b < |now.tasks|
                  && StepsBy(run[n..], b) < StepsLeft(s.tasks[b].phase) <= 6
                  && Step(now, NextOf(b, now.tasks[b].phase, Bad, NOTHING_SEEN)).Some?)
  {
    var s, now := After(run[..n]).value, After(run).value;
    var c := s.tasks[t].phase.chan;
    RunKeepsInv(run[..n]);
    RunKeepsInv(run);
    RunFollows(run, n);
    assert TaskInv(s, t);
    if now.channels[c].value.None? {
      BuilderHolds(run, n, c);
    }
  }

  /** The maker of a channel without a value holds its sending end, has been at it since, and has not used up its steps. */
  lemma BuilderHolds(run: seq<Action>, n: nat, c: nat)
    requires n <= |run| && After(run).Some? && After(run[..n]).Some? && c < |After(run[..n]).value.channels|
    requires Inv(After(run[..n]).value) && Inv(After(run).value) && Follows(After(run[..n]).value, After(run).value)
    requires After(run).value.channels[c].value.None?
    ensures var s, now := After(run[..n]).value, After(run).value;
            var b := s.channels[c].builder;
            && b < |s.tasks| && s.tasks[b].key == s.channels[c].key && b < |now.tasks|
            && StepsBy(run[n..], b) < StepsLeft(s.tasks[b].phase)
            && Step(now, NextOf(b, now.tasks[b].phase, Bad, NOTHING_SEEN)).Some?
  {
    var s, now := After(run[..n]).value, After(run).value;
    var b := now.channels[c].builder;
    assert OpenIsHeld(now, c);
    HolderCanStep(now, b);
    assert SameChannel(s.channels[c], now.channels[c]);
    assert OpenIsHeld(s, c);
    assert TaskInv(s, b);
    BuilderProgress(run, n, b);
  }

  // ---- one view for everyone

  /** While nothing has touched a key, its entry is there and shows this view. */
  ghost predicate Settled(s: State, k: Key, v: View) {
    k in s.touched || (k in s.entries && s.entries[k].view == v)
  }

  /** The view a task has settled on. */
  function Promise(p: Phase): Option<View> {
    match p
    case Owing(_, view) => Some(view)
    case Sending(_, Good(view)) => Some(view)
    case Done(Good(view)) => Some(view)
    case _ => None
  }

  function Announced(c: Channel): Option<View> {
    if c.value.Some? && c.value.value.Good? then Some(c.value.value.view) else None
  }

  ghost predicate Agreed(s: State) {
    && (forall t :: 0 <= t < |s.tasks| && Promise(s.tasks[t].phase).Some? ==> Settled(s, s.tasks[t].key, Promise(s.tasks[t].phase).value))
    && (forall c :: 0 <= c < |s.channels| && Announced(s.channels[c]).Some? ==> Settled(s, s.channels[c].key, Announced(s.channels[c]).value))
  }

  /** Whatever an action does to the cache, a settled view stays settled. */
  ghost predicate KeepsSettled(s: State, next: State) {
    forall k, v :: Settled(s, k, v) ==> Settled(next, k, v)
  }

  lemma StepKeepsSettled(s: State, a: Action)
    requires Step(s, a).Some?
    ensures KeepsSettled(s, Step(s, a).value)
  {
  }

  /** The view a task settles on in a step is the one it had settled on, the cached one, or its channel's. */
  lemma PromiseFrom(s: State, a: Action, t: nat)
    requires t < |s.tasks| && TaskStep(s, a, t).Some?
    ensures t < |TaskStep(s, a, t).value.tasks|
    ensures var p, q, next := s.tasks[t].phase, TaskStep(s, a, t).value.tasks[t].phase, TaskStep(s, a, t).value;
            Promise(q).Some? ==>
              || Promise(q) == Promise(p)
              || (s.tasks[t].key in next.entries && next.entries[s.tasks[t].key].view == Promise(q).value)
              || (p.Waiting? && p.chan < |s.channels| && Announced(s.channels[p.chan]) == Promise(q))
  {
  }

  lemma TaskPromiseSettled(s: State, a: Action, t: nat)
    requires Inv(s) && Agreed(s) && t < |s.tasks| && TaskStep(s, a, t).Some? && KeepsSettled(s, TaskStep(s, a, t).value)
    ensures t < |TaskStep(s, a, t).value.tasks|
    ensures var next := TaskStep(s, a, t).value;
            Promise(next.tasks[t].phase).Some? ==> Settled(next, s.tasks[t].key, Promise(next.tasks[t].phase).value)
  {
    var p := s.tasks[t].phase;
    PromiseFrom(s, a, t);
    assert TaskInv(s, t);
    assert Promise(p).Some? ==> Settled(s, s.tasks[t].key, Promise(p).value);
    if p.Waiting? && p.chan < |s.channels| && Announced(s.channels[p.chan]).Some? {
      assert Settled(s, s.channels[p.chan].key, Announced(s.channels[p.chan]).value);
    }
  }

  lemma ChannelSettled(s: State, a: Action, t: nat, c: nat)
    requires Inv(s) && Agreed(s) && t < |s.tasks| && TaskStep(s, a, t).Some? && KeepsSettled(s, TaskStep(s, a, t).value)
    requires c < |TaskStep(s, a, t).value.channels|
    ensures var next := TaskStep(s, a, t).value;
            Announced(next.channels[c]).Some? ==> Settled(next, next.channels[c].key, Announced(next.channels[c]).value)
  {
    var next := TaskStep(s, a, t).value;
    assert TaskInv(s, t);
    if Announced(next.channels[c]).Some? {
      if c < |s.channels| && next.channels[c] == s.channels[c] {
        assert Settled(s, s.channels[c].key, Announced(s.channels[c]).value);
      } else {
        assert Held(s.tasks[t].phase) == Some(c) && a.Publish?;
        assert Settled(s, s.tasks[t].key, Announced(next.channels[c]).value);
      }
    }
  }

  lemma TaskStepKeepsAgreed(s: State, a: Action, t: nat)
    requires Inv(s) && Agreed(s) && t < |s.tasks| && TaskStep(s, a, t).Some? && KeepsSettled(s, TaskStep(s, a, t).value)
    ensures Agreed(TaskStep(s, a, t).value)
  {
    var next := TaskStep(s, a, t).value;
    TaskStepMovesOne(s, a, t);
    forall u | 0 <= u < |next.tasks| && Promise(next.tasks[u].phase).Some?
      ensures Settled(next, next.tasks[u].key, Promise(next.tasks[u].phase).value)
    {
      if u != t {
        assert next.tasks[u] == s.tasks[u];
        assert Settled(s, s.tasks[u].key, Promise(s.tasks[u].phase).value);
      } else {
        TaskPromiseSettled(s, a, t);
      }
    }
    forall c | 0 <= c < |next.channels| && Announced(next.channels[c]).Some?
      ensures Settled(next, next.channels[c].key, Announced(next.channels[c]).value)
    {
      ChannelSettled(s, a, t, c);
    }
  }

  lemma StepKeepsAgreed(s: State, a: Action)
    requires Inv(s) && Agreed(s) && Step(s, a).Some?
    ensures Agreed(Step(s, a).value)
  {
    StepKeepsSettled(s, a);
    if a.Call? || a.Touch? || a.Evict? || a.Put? || a.Invalidate? {
    } else {
      TaskStepKeepsAgreed(s, a, a.t);
    }
  }

  lemma {:induction false} RunKeepsAgreed(run: seq<Action>)
    requires After(run).Some?
    ensures Agreed(After(run).value)
  {
    if run != [] {
      var before := run[..|run| - 1];
      RunKeepsAgreed(before);
      RunKeepsInv(before);
      StepKeepsAgreed(After(before).value, run[|run| - 1]);
    }
  }

  /** Of a key that nothing has evicted, invalidated or replaced, every successful call has returned
      the same view, and it is the cached one. */
  lemma OneViewPerKey(run: seq<Action>, t: nat, u: nat)
    requires After(run).Some? && t < |After(run).value.tasks| && u < |After(run).value.tasks|
    requires var s := After(run).value;
             && s.tasks[t].phase.Done? && s.tasks[t].phase.result.Good? && s.tasks[u].phase.Done? && s.tasks[u].phase.result.Good?
             && s.tasks[t].key == s.tasks[u].key && s.tasks[t].key !in s.touched
    ensures var s := After(run).value;
            && s.tasks[t].phase.result == s.tasks[u].phase.result
            && s.tasks[t].key in s.entries && s.entries[s.tasks[t].key].view == s.tasks[t].phase.result.view
  {
    var s := After(run).value;
    RunKeepsAgreed(run);
    assert Settled(s, s.tasks[t].key, Promise(s.tasks[t].phase).value);
    assert Settled(s, s.tasks[u].key, Promise(s.tasks[u].phase).value);
  }

  // ---- provisional views

  /** A step that leaves a key's entry there keeps a full view full. */
  lemma StepKeepsFull(s: State, a: Action, k: Key)
    requires Step(s, a).Some? && k in s.entries && !s.entries[k].view.provisional && k in Step(s, a).value.entries
    ensures !Step(s, a).value.entries[k].view.provisional
  {
    if a.Put? {
      BuildFullIsNeverProvisional(a.ops, a.seen);
    }
  }

  /** The key has an entry after each of the first `m`, ..., |run| actions. */
  ghost predicate Kept(run: seq<Action>, n: nat, k: Key) {
    forall m :: n <= m <= |run| ==> After(run[..m]).Some? && k in After(run[..m]).value.entries
  }

  /** Whatever the interleaving of calls, replacements and evictions: once a key holds a full view it holds only full
      views until its entry is evicted or invalidated. */
  lemma {:induction false} FullViewsStay(run: seq<Action>, n: nat, k: Key)
    requires n <= |run| && Kept(run, n, k) && !After(run[..n]).value.entries[k].view.provisional
    ensures After(run).Some? && k in After(run).value.entries && !After(run).value.entries[k].view.provisional
    decreases |run|
  {
    assert run[..|run|] == run;
    if n < |run| {
      var before := run[..|run| - 1];
      forall m | n <= m <= |before|
        ensures before[..m] == run[..m]
      {
      }
      FullViewsStay(before, n, k);
      StepKeepsFull(After(before).value, run[|run| - 1], k);
    }
  }

  /** What a call for the key builds, if it is provisional at all, is a large sort on its own. */
  ghost predicate SortCalled(s: State, k: Key) {
    exists t :: 0 <= t < |s.tasks| && s.tasks[t].key == k && s.tasks[t].builder.Spill? &&
      exists o :: LargeSort(s.tasks[t].builder.ops, o)
  }

  /** A provisional view of a key goes back to a call that sorts. */
  ghost predicate Sourced(s: State, k: Key, v: View) {
    v.provisional ==> SortCalled(s, k)
  }

  /** The view a task carries, from the end of its build on. */
  function Carried(p: Phase): Option<View> {
    match p
    case Built(_, Good(view)) => Some(view)
    case Unregistered(_, Good(view)) => Some(view)
    case RoomMade(_, view) => Some(view)
    case _ => Promise(p)
  }

  ghost predicate AllSourced(s: State) {
    && (forall k :: k in s.entries ==> Sourced(s, k, s.entries[k].view))
    && (forall t :: 0 <= t < |s.tasks| && Carried(s.tasks[t].phase).Some? ==> Sourced(s, s.tasks[t].key, Carried(s.tasks[t].phase).value))
    && (forall c :: 0 <= c < |s.channels| && Announced(s.channels[c]).Some? ==> Sourced(s, s.channels[c].key, Announced(s.channels[c]).value))
  }

  lemma SourcedLater(s: State, next: State, k: Key, v: View)
    requires Follows(s, next) && Sourced(s, k, v)
    ensures Sourced(next, k, v)
  {
    if v.provisional {
      var t :| 0 <= t < |s.tasks| && s.tasks[t].key == k && s.tasks[t].builder.Spill? && exists o :: LargeSort(s.tasks[t].builder.ops, o);
      assert next.tasks[t].key == k && next.tasks[t].builder == s.tasks[t].builder;
    }
  }

  /** A build that ends with a provisional view was a large sort. */
  lemma BuiltIsSourced(s: State, t: nat, view: View, seen: Observed)
    requires t < |s.tasks| && view.kind == BuilderKind(s.tasks[t].builder, seen)
    ensures Sourced(s, s.tasks[t].key, view)
  {
    if view.provisional {
      ProvisionalExactly(s.tasks[t].builder.ops, seen);
    }
  }

  /** Where the view a task carries after a step comes from: its build, the cache, its channel, or before. */
  lemma CarriedFrom(s: State, a: Action, t: nat)
    requires t < |s.tasks| && TaskStep(s, a, t).Some?
    ensures t < |TaskStep(s, a, t).value.tasks|
    ensures var p, q := s.tasks[t].phase, TaskStep(s, a, t).value.tasks[t].phase;
            Carried(q).Some? ==>
              || (a.FinishBuild? && Carried(q).value.kind == BuilderKind(s.tasks[t].builder, a.seen))
              || (s.tasks[t].key in s.entries && s.entries[s.tasks[t].key].view == Carried(q).value)
              || (p.Waiting? && p.chan < |s.channels| && Announced(s.channels[p.chan]) == Carried(q))
              || Carried(q) == Carried(p)
  {
  }

  lemma CarriedIsSourced(s: State, a: Action, t: nat)
    requires Inv(s) && AllSourced(s) && t < |s.tasks| && TaskStep(s, a, t).Some?
    ensures t < |TaskStep(s, a, t).value.tasks|
    ensures var p := TaskStep(s, a, t).value.tasks[t].phase; Carried(p).Some? ==> Sourced(s, s.tasks[t].key, Carried(p).value)
  {
    var p, key := s.tasks[t].phase, s.tasks[t].key;
    CarriedFrom(s, a, t);
    assert TaskInv(s, t);
    assert Carried(p).Some? ==> Sourced(s, key, Carried(p).value);
    assert key in s.entries ==> Sourced(s, key, s.entries[key].view);
    if p.Waiting? && p.chan < |s.channels| && Announced(s.channels[p.chan]).Some? {
      assert Sourced(s, s.channels[p.chan].key, Announced(s.channels[p.chan]).value);
    }
    var q := TaskStep(s, a, t).value.tasks[t].phase;
    if a.FinishBuild? && Carried(q).Some? && Carried(q).value.kind == BuilderKind(s.tasks[t].builder, a.seen) {
      BuiltIsSourced(s, t, Carried(q).value, a.seen);
    }
  }

  /** What a channel announces afterwards was announced before, or carried by the task that sent it. */
  lemma AnnouncedIsSourced(s: State, a: Action, t: nat, c: nat)
    requires Inv(s) && AllSourced(s) && t < |s.tasks| && TaskStep(s, a, t).Some? && c < |TaskStep(s, a, t).value.channels|
    ensures var ch := TaskStep(s, a, t).value.channels[c]; Announced(ch).Some? ==> Sourced(s, ch.key, Announced(ch).value)
  {
    var next := TaskStep(s, a, t).value;
    assert TaskInv(s, t);
    if c < |s.channels| && next.channels[c] == s.channels[c] {
      assert Announced(s.channels[c]).Some? ==> Sourced(s, s.channels[c].key, Announced(s.channels[c]).value);
    } else if Announced(next.channels[c]).Some? {
      assert Held(s.tasks[t].phase) == Some(c) && a.Publish?;
      assert Sourced(s, s.tasks[t].key, Carried(s.tasks[t].phase).value);
    }
  }

  lemma EntriesAreSourced(s: State, a: Action, k: Key)
    requires AllSourced(s) && Step(s, a).Some? && k in Step(s, a).value.entries
    ensures Sourced(s, k, Step(s, a).value.entries[k].view)
  {
    var v := Step(s, a).value.entries[k].view;
    if a.Put? {
      BuildFullIsNeverProvisional(a.ops, a.seen);
    }
    if k in s.entries && s.entries[k].view == v {
      assert Sourced(s, k, s.entries[k].view);
    } else if a.Store? {
      assert Sourced(s, s.tasks[a.t].key, Carried(s.tasks[a.t].phase).value);
    }
  }

  lemma StepKeepsSourced(s: State, a: Action)
    requires Inv(s) && AllSourced(s) && Step(s, a).Some?
    ensures AllSourced(Step(s, a).value)
  {
    var next := Step(s, a).value;
    StepFollows(s, a);
    forall k | k in next.entries
      ensures Sourced(next, k, next.entries[k].view)
    {
      EntriesAreSourced(s, a, k);
      SourcedLater(s, next, k, next.entries[k].view);
    }
    forall u | 0 <= u < |next.tasks| && Carried(next.tasks[u].phase).Some?
      ensures Sourced(next, next.tasks[u].key, Carried(next.tasks[u].phase).value)
    {
      TaskIsSourced(s, a, u);
      SourcedLater(s, next, next.tasks[u].key, Carried(next.tasks[u].phase).value);
    }
    forall c | 0 <= c < |next.channels| && Announced(next.channels[c]).Some?
      ensures Sourced(next, next.channels[c].key, Announced(next.channels[c]).value)
    {
      ChannelIsSourced(s, a, c);
      SourcedLater(s, next, next.channels[c].key, Announced(next.channels[c]).value);
    }
  }

  lemma TaskIsSourced(s: State, a: Action, u: nat)
    requires Inv(s) && AllSourced(s) && Step(s, a).Some? && u < |Step(s, a).value.tasks|
    ensures var task := Step(s, a).value.tasks[u]; Carried(task.phase).Some? ==> Sourced(s, task.key, Carried(task.phase).value)
  {
    if Actor(a) == Some(u) {
      ActorKeepsKey(s, a, u);
      CarriedIsSourced(s, a, u);
    } else if u < |s.tasks| {
      StepMovesActor(s, a, u);
      assert Carried(s.tasks[u].phase).Some? ==> Sourced(s, s.tasks[u].key, Carried(s.tasks[u].phase).value);
    }
  }

  lemma ActorKeepsKey(s: State, a: Action, u: nat)
    requires Step(s, a).Some? && Actor(a) == Some(u)
    ensures u < |s.tasks| && u < |Step(s, a).value.tasks| && Step(s, a) == TaskStep(s, a, u)
    ensures Step(s, a).value.tasks[u].key == s.tasks[u].key
  {
    TaskStepMovesOne(s, a, u);
  }

  lemma StepMovesActor(s: State, a: Action, u: nat)
    requires Step(s, a).Some? && u < |s.tasks| && Actor(a) != Some(u)
    ensures u < |Step(s, a).value.tasks| && Step(s, a).value.tasks[u] == s.tasks[u]
  {
    if Actor(a).Some? {
      TaskStepMovesOne(s, a, a.t);
    }
  }

  lemma ChannelIsSourced(s: State, a: Action, c: nat)
    requires Inv(s) && AllSourced(s) && Step(s, a).Some? && c < |Step(s, a).value.channels|
    ensures var ch := Step(s, a).value.channels[c]; Announced(ch).Some? ==> Sourced(s, ch.key, Announced(ch).value)
  {
    if Actor(a).Some? {
      AnnouncedIsSourced(s, a, a.t, c);
    } else {
      assert Announced(s.channels[c]).Some? ==> Sourced(s, s.channels[c].key, Announced(s.channels[c]).value);
    }
  }

  lemma {:induction false} RunKeepsSourced(run: seq<Action>)
    requires After(run).Some?
    ensures AllSourced(After(run).value)
  {
    if run != [] {
      var before := run[..|run| - 1];
      RunKeepsSourced(before);
      RunKeepsInv(before);
      StepKeepsSourced(After(before).value, run[|run| - 1]);
    }
  }

  /** A provisional view, in the cache or in the hands of a call, goes back to a call for its key whose pipeline is a
      sort on its own. */
  lemma ProvisionalViewsAreSorts(run: seq<Action>, k: Key, t: nat)
    requires After(run).Some?
    ensures var s := After(run).value;
            && (k in s.entries && s.entries[k].view.provisional ==> SortCalled(s, k))
            && (t < |s.tasks| && s.tasks[t].phase.Done? && s.tasks[t].phase.result.Good? && s.tasks[t].phase.result.view.provisional ==>
                  SortCalled(s, s.tasks[t].key))
  {
    RunKeepsSourced(run);
    var s := After(run).value;
    if t < |s.tasks| && Carried(s.tasks[t].phase).Some? {
      assert Sourced(s, s.tasks[t].key, Carried(s.tasks[t].phase).value);
    }
  }

  // ---- the counters

  lemma BytesWithout(m: map<Key, Entry>, k: Key)
    requires k in m
    ensures BytesIn(m) == BytesOf(m[k].view) + BytesIn(m - {k})
    ensures DisksIn(m) == DiskOf(m[k].view) + DisksIn(m - {k})
  {
    BytesWithoutKey(m, k);
    DisksWithoutKey(m, k);
  }

  lemma {:induction false} BytesWithoutKey(m: map<Key, Entry>, k: Key)
    requires k in m
    ensures BytesIn(m) == BytesOf(m[k].view) + BytesIn(m - {k})
    decreases |m|
  {
    var j :| j in m && BytesIn(m) == BytesOf(m[j].view) + BytesIn(m - {j});
    if j != k {
      BytesWithoutKey(m - {j}, k);
      BytesWithoutKey(m - {k}, j);
      assert m - {j} - {k} == m - {k} - {j};
    }
  }

  lemma {:induction false} DisksWithoutKey(m: map<Key, Entry>, k: Key)
    requires k in m
    ensures DisksIn(m) == DiskOf(m[k].view) + DisksIn(m - {k})
    decreases |m|
  {
    var j :| j in m && DisksIn(m) == DiskOf(m[j].view) + DisksIn(m - {j});
    if j != k {
      DisksWithoutKey(m - {j}, k);
      DisksWithoutKey(m - {k}, j);
      assert m - {j} - {k} == m - {k} - {j};
    }
  }

  /** Splitting a cache splits its bytes and its disk count. */
  lemma {:induction false} BytesSplit(m: map<Key, Entry>, victims: set<Key>)
    ensures BytesIn(m) == BytesIn(Restricted(m, victims)) + BytesIn(m - victims)
    ensures DisksIn(m) == DisksIn(Restricted(m, victims)) + DisksIn(m - victims)
    decreases |m|
  {
    if m == map[] {
      assert Restricted(m, victims) == map[] && m - victims == map[];
    } else {
      var k :| k in m;
      BytesSplit(m - {k}, victims);
      BytesWithout(m, k);
      SplitWithout(m, victims, k);
      if k in victims {
        BytesWithout(Restricted(m, victims), k);
      } else {
        BytesWithout(m - victims, k);
      }
    }
  }

  lemma SplitWithout(m: map<Key, Entry>, victims: set<Key>, k: Key)
    requires k in m
    ensures k in victims ==>
              (k in Restricted(m, victims) && Restricted(m, victims) - {k} == Restricted(m - {k}, victims)
              && Restricted(m, victims)[k] == m[k] && m - {k} - victims == m - victims)
    ensures k !in victims ==>
              (k in m - victims && (m - victims)[k] == m[k] && Restricted(m, victims) == Restricted(m - {k}, victims)
              && m - victims - {k} == m - {k} - victims)
  {
  }

  lemma BytesUpdated(m: map<Key, Entry>, k: Key, e: Entry)
    ensures BytesIn(m[k := e]) == BytesOf(e.view) + BytesIn(m - {k})
    ensures DisksIn(m[k := e]) == DiskOf(e.view) + DisksIn(m - {k})
  {
    BytesWithout(m[k := e], k);
    assert m[k := e] - {k} == m - {k};
  }

  function OwesBytes(p: Phase): nat {
    if p.Owing? then BytesOf(p.view) else 0
  }

  function OwesDisks(p: Phase): nat {
    if p.Owing? then DiskOf(p.view) else 0
  }

  /** What tasks between unlocking the cache and paying the counters still owe. */
  function OwedBytes(tasks: seq<Task>): nat {
    if tasks == [] then 0 else OwesBytes(tasks[0].phase) + OwedBytes(tasks[1..])
  }

  function OwedDisks(tasks: seq<Task>): nat {
    if tasks == [] then 0 else OwesDisks(tasks[0].phase) + OwedDisks(tasks[1..])
  }

  lemma {:induction false} OwedMoved(tasks: seq<Task>, t: nat, phase: Phase)
    requires t < |tasks|
    ensures OwedBytes(tasks[t := tasks[t].(phase := phase)]) + OwesBytes(tasks[t].phase) == OwedBytes(tasks) + OwesBytes(phase)
    ensures OwedDisks(tasks[t := tasks[t].(phase := phase)]) + OwesDisks(tasks[t].phase) == OwedDisks(tasks) + OwesDisks(phase)
  {
    var moved := tasks[t := tasks[t].(phase := phase)];
    if t == 0 {
      assert moved[1..] == tasks[1..];
    } else {
      OwedMoved(tasks[1..], t - 1, phase);
      assert moved[1..] == tasks[1..][t - 1 := tasks[1..][t - 1].(phase := phase)];
    }
  }

  lemma {:induction false} OwedPushed(tasks: seq<Task>, task: Task)
    requires !task.phase.Owing?
    ensures OwedBytes(tasks + [task]) == OwedBytes(tasks) && OwedDisks(tasks + [task]) == OwedDisks(tasks)
  {
    if tasks == [] {
      assert [task][1..] == [];
    } else {
      assert (tasks + [task])[1..] == tasks[1..] + [task];
      OwedPushed(tasks[1..], task);
    }
  }

  predicate Congruent(a: int, b: int) {
    (a - b) % WRAP == 0
  }

  /** The counters, with the additions tasks still owe, are what the entries weigh, modulo 2^64. */
  ghost predicate Balanced(s: State) {
    && Congruent(s.currentBytes + OwedBytes(s.tasks), BytesIn(s.entries))
    && Congruent(s.diskCount + OwedDisks(s.tasks), DisksIn(s.entries))
  }

  /** Adding or subtracting with wrap-around is adding or subtracting, modulo 2^64. */
  lemma WrapsAreExact(c: nat, n: nat)
    ensures Congruent(AddWrap(c, n), c + n) && Congruent(SubWrap(c, n), c - n)
  {
    assert Congruent(AddWrap(c, n), c + n) by {
      ReducedIsCongruent(c + n);
    }
    assert Congruent(SubWrap(c, n), c - n) by {
      var q := n / WRAP;
      ReducedIsCongruent(c + WRAP - n % WRAP);
      MultipleIsCongruent(c + WRAP - n % WRAP, c - n, q + 1);
      CongruentTrans(SubWrap(c, n), c + WRAP - n % WRAP, c - n);
    }
  }

  lemma ReducedIsCongruent(a: int)
    ensures Congruent(a % WRAP, a)
  {
    MultipleIsCongruent(a % WRAP, a, 0 - a / WRAP);
  }

  lemma MultipleIsCongruent(a: int, b: int, q: int)
    requires a - b == q * WRAP
    ensures Congruent(a, b)
  {
  }

  lemma CongruentShift(a: int, b: int, a': int, b': int)
    requires Congruent(a, b) && Congruent(a', b')
    ensures Congruent(a + a', b + b') && Congruent(a - a', b - b')
  {
    var p, q := (a - b) / WRAP, (a' - b') / WRAP;
    MultipleIsCongruent(a + a', b + b', p + q);
    MultipleIsCongruent(a - a', b - b', p - q);
  }

  /** A change of the counters by `db` and `dd` that the entries and the debts match. */
  lemma Rebalanced(s: State, next: State, db: int, dd: int, ob: int, od: int)
    requires Balanced(s)
    requires Congruent(next.currentBytes, s.currentBytes + db) && Congruent(next.diskCount, s.diskCount + dd)
    requires OwedBytes(next.tasks) == OwedBytes(s.tasks) + ob && OwedDisks(next.tasks) == OwedDisks(s.tasks) + od
    requires BytesIn(next.entries) == BytesIn(s.entries) + db + ob && DisksIn(next.entries) == DisksIn(s.entries) + dd + od
    ensures Balanced(next)
  {
    CongruentShift(next.currentBytes, s.currentBytes + db, s.currentBytes + OwedBytes(s.tasks), BytesIn(s.entries));
    CongruentShift(next.diskCount, s.diskCount + dd, s.diskCount + OwedDisks(s.tasks), DisksIn(s.entries));
  }

  lemma TouchedBalanced(s: State, key: Key)
    requires Balanced(s) && key in s.entries
    ensures Balanced(Touched(s, key))
  {
    BytesUpdated(s.entries, key, s.entries[key].(seqNo := s.accessSeq));
    BytesWithout(s.entries, key);
    Rebalanced(s, Touched(s, key), 0, 0, 0, 0);
  }

  lemma EvictedBalanced(s: State, victims: set<Key>)
    requires Balanced(s)
    ensures Balanced(Evicted(s, victims))
  {
    var out := Restricted(s.entries, victims);
    BytesSplit(s.entries, victims);
    WrapsAreExact(s.currentBytes, BytesIn(out));
    WrapsAreExact(s.diskCount, DisksIn(out));
    Rebalanced(s, Evicted(s, victims), 0 - BytesIn(out), 0 - DisksIn(out), 0, 0);
  }

  lemma CongruentTrans(a: int, b: int, c: int)
    requires Congruent(a, b) && Congruent(b, c)
    ensures Congruent(a, c)
  {
    CongruentShift(a, b, b, c);
  }

  /** Taking one share out and putting another in. */
  lemma SwapShare(c: nat, gone: nat, come: nat)
    ensures Congruent(AddWrap(SubWrap(c, gone), come), c - gone + come)
  {
    WrapsAreExact(c, gone);
    WrapsAreExact(SubWrap(c, gone), come);
    CongruentShift(SubWrap(c, gone), c - gone, come, come);
    CongruentTrans(AddWrap(SubWrap(c, gone), come), SubWrap(c, gone) + come, c - gone + come);
  }

  lemma StoredBalanced(s: State, key: Key, view: View)
    requires Balanced(s)
    ensures Balanced(Stored(s, key, view))
  {
    BytesUpdated(s.entries, key, Entry(view, s.accessSeq));
    if key in s.entries {
      var prev := s.entries[key].view;
      BytesWithout(s.entries, key);
      SwapShare(s.currentBytes, BytesOf(prev), BytesOf(view));
      SwapShare(s.diskCount, DiskOf(prev), DiskOf(view));
      Rebalanced(s, Stored(s, key, view), BytesOf(view) - BytesOf(prev), DiskOf(view) - DiskOf(prev), 0, 0);
    } else {
      assert s.entries - {key} == s.entries;
      WrapsAreExact(s.currentBytes, BytesOf(view));
      WrapsAreExact(s.diskCount, DiskOf(view));
      Rebalanced(s, Stored(s, key, view), BytesOf(view), DiskOf(view), 0, 0);
    }
  }

  /** A builder that finds nothing stores its view and owes its share. */
  lemma StoreBalanced(s: State, t: nat)
    requires Balanced(s) && t < |s.tasks| && s.tasks[t].phase.RoomMade? && s.tasks[t].key !in s.entries
    ensures Balanced(TaskStep(s, Store(t), t).value)
  {
    var key, view, next := s.tasks[t].key, s.tasks[t].phase.view, TaskStep(s, Store(t), t).value;
    BytesUpdated(s.entries, key, Entry(view, s.accessSeq));
    assert s.entries - {key} == s.entries;
    OwedMoved(s.tasks, t, Owing(s.tasks[t].phase.tx, view));
    Rebalanced(s, next, 0, 0, BytesOf(view), DiskOf(view));
  }

  lemma PayBalanced(s: State, t: nat)
    requires Balanced(s) && t < |s.tasks| && s.tasks[t].phase.Owing?
    ensures Balanced(TaskStep(s, PayOwed(t), t).value)
  {
    var phase, next := s.tasks[t].phase, TaskStep(s, PayOwed(t), t).value;
    OwedMoved(s.tasks, t, Sending(phase.tx, Good(phase.view)));
    WrapsAreExact(s.currentBytes, BytesOf(phase.view));
    WrapsAreExact(s.diskCount, DiskOf(phase.view));
    Rebalanced(s, next, BytesOf(phase.view), DiskOf(phase.view), 0 - BytesOf(phase.view), 0 - DiskOf(phase.view));
  }

  /** A move between phases that owe nothing. */
  lemma MovedBalanced(s: State, next: State, t: nat, phase: Phase)
    requires Balanced(s) && t < |s.tasks| && !s.tasks[t].phase.Owing? && !phase.Owing?
    requires next.tasks == s.tasks[t := s.tasks[t].(phase := phase)]
    requires next.entries == s.entries && next.currentBytes == s.currentBytes && next.diskCount == s.diskCount
    ensures Balanced(next)
  {
    OwedMoved(s.tasks, t, phase);
    Rebalanced(s, next, 0, 0, 0, 0);
  }

  /** The other steps touch neither the entries nor the counters, and leave nothing owed. */
  lemma QuietStep(s: State, a: Action, t: nat)
    requires t < |s.tasks| && TaskStep(s, a, t).Some? && !s.tasks[t].phase.Owing? && !a.MakeRoom?
    requires s.tasks[t].phase.RoomMade? || s.tasks[t].phase.Start? ==> s.tasks[t].phase.Start? && s.tasks[t].key !in s.entries
    ensures var next := TaskStep(s, a, t).value;
            && t < |next.tasks| && next.tasks == s.tasks[t := s.tasks[t].(phase := next.tasks[t].phase)] && !next.tasks[t].phase.Owing?
            && next.entries == s.entries && next.currentBytes == s.currentBytes && next.diskCount == s.diskCount
  {
  }

  lemma TaskStepBalanced(s: State, a: Action, t: nat)
    requires Balanced(s) && t < |s.tasks| && TaskStep(s, a, t).Some?
    ensures Balanced(TaskStep(s, a, t).value)
  {
    var key, phase, next := s.tasks[t].key, s.tasks[t].phase, TaskStep(s, a, t).value;
    if phase.Owing? {
      PayBalanced(s, t);
    } else if phase.RoomMade? && key !in s.entries {
      StoreBalanced(s, t);
    } else if (phase.Start? || phase.RoomMade?) && key in s.entries {
      TouchedBalanced(s, key);
      MovedBalanced(Touched(s, key), next, t, next.tasks[t].phase);
    } else if a.MakeRoom? {
      EvictedBalanced(s, a.victims);
      MovedBalanced(Evicted(s, a.victims), next, t, next.tasks[t].phase);
    } else {
      QuietStep(s, a, t);
      MovedBalanced(s, next, t, next.tasks[t].phase);
    }
  }

  lemma StepBalanced(s: State, a: Action)
    requires Balanced(s) && Step(s, a).Some?
    ensures Balanced(Step(s, a).value)
  {
    match a
    case Call(key, builder) =>
      OwedPushed(s.tasks, Task(key, builder, Start));
      Rebalanced(s, Step(s, a).value, 0, 0, 0, 0);
    case Touch(key) => TouchedBalanced(s, key);
    case Evict(_, victims) => EvictedBalanced(s, victims);
    case Put(key, _, _, view) => StoredBalanced(s, key, view);
    case Invalidate(source) => EvictedBalanced(s, set k | k in s.entries && OfSource(k, source));
    case _ => TaskStepBalanced(s, a, a.t);
  }

  /** After every run the counters, with what is still owed, are the weight of the cache modulo 2^64. */
  lemma {:induction false} RunBalanced(run: seq<Action>)
    requires After(run).Some?
    ensures Balanced(After(run).value)
  {
    if run != [] {
      var before := run[..|run| - 1];
      RunBalanced(before);
      StepBalanced(After(before).value, run[|run| - 1]);
    }
  }
}
