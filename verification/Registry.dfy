/** The session registry with its delayed cleanup tasks, and the loop that watches a session.
    Each lock-protected section is one step; steps of all tasks interleave freely. */
module Registry {
  import opened Bytes

  type Key = nat
  type Descriptor = nat
  type Token = nat
  type TaskId = nat

  datatype SessionState = Pending | Connecting | Connected | Disconnected

  function Rank(s: SessionState): (r: nat)
    ensures r <= 3
  {
    match s
    case Pending => 0
    case Connecting => 1
    case Connected => 2
    case Disconnected => 3
  }

  datatype Entry = Entry(descriptor: Descriptor, token: Token)

  /** Where a cleanup task stands: its entry is in the map but it is not yet spawned,
      waiting for the cancellation, or in the grace period after marking the descriptor. */
  datatype Phase = Registering | Waiting | Marked

  datatype Task = Task(key: Key, descriptor: Descriptor, token: Token, phase: Phase)

  datatype Reg = Reg(
    sessions: map<Key, Entry>,
    states: map<Descriptor, SessionState>,
    tasks: map<TaskId, Task>,
    cancelled: set<Token>)

  const EMPTY := Reg(map[], map[], map[], {})

  // ------------------------------------------------------------------- the steps

  /** `register_session` up to the map entry; an occupied key is refused. A descriptor not
      seen before brings its `initial` state along. */
  function Registered(r: Reg, key: Key, d: Descriptor, initial: SessionState, token: Token, id: TaskId): (r': Reg)
    requires id !in r.tasks
  {
    if key in r.sessions then r
    else
      Reg(r.sessions[key := Entry(d, token)],
          if d in r.states then r.states else r.states[d := initial],
          r.tasks[id := Task(key, d, token, Registering)],
          r.cancelled)
  }

  /** The transition `update_state` allows from `current`; `Err` where it refuses. */
  function Transition(current: SessionState, new_: SessionState): (r: Result<SessionState>)
  {
    if current == Disconnected then Err
    else if current == new_ then Ok(current)
    else
      match new_
      case Connecting => if current == Pending then Ok(Connecting) else Err
      case Connected => if current == Pending || current == Connecting then Ok(Connected) else Err
      case Disconnected => Ok(Disconnected)
      case Pending => Err
  }

  function Updated(r: Reg, d: Descriptor, new_: SessionState): (r': Reg)
    requires d in r.states
  {
    match Transition(r.states[d], new_)
    case Err => r
    case Ok(s) => r.(states := r.states[d := s])
  }

  predicate CanMark(r: Reg, id: TaskId)
  {
    id in r.tasks && r.tasks[id].phase == Waiting && r.tasks[id].token in r.cancelled
  }

  /** The cleanup task wakes up and marks its descriptor. */
  function MarkedDown(r: Reg, id: TaskId): (r': Reg)
    requires CanMark(r, id)
  {
    r.(states := r.states[r.tasks[id].descriptor := Disconnected],
       tasks := r.tasks[id := r.tasks[id].(phase := Marked)])
  }

  /** After the grace period it removes whatever sits under its key, and ends. */
  function Removed(r: Reg, id: TaskId): (r': Reg)
    requires id in r.tasks
  {
    r.(sessions := r.sessions - {r.tasks[id].key}, tasks := r.tasks - {id})
  }

  class SessionRegistry {
    var sessions: map<Key, Entry>
    var states: map<Descriptor, SessionState>
    var tasks: map<TaskId, Task>
    var cancelled: set<Token>

    ghost function State(): (r: Reg)
      reads this
    {
      Reg(sessions, states, tasks, cancelled)
    }

    constructor ()
      ensures State() == EMPTY
    {
      sessions, states, tasks, cancelled := map[], map[], map[], {};
    }

    method RegisterSession(key: Key, d: Descriptor, initial: SessionState, token: Token, id: TaskId) returns (ok: bool)
      requires id !in tasks
      modifies this
      ensures ok == (key !in old(sessions))
      ensures State() == Registered(old(State()), key, d, initial, token, id)
    {
      if key in sessions {
        return false;
      }
      sessions := sessions[key := Entry(d, token)];
      if d !in states {
        states := states[d := initial];
      }
      tasks := tasks[id := Task(key, d, token, Registering)];
      ok := true;
    }

    /** A missing key and a refused transition are errors that change nothing. */
    method UpdateState(key: Key, new_: SessionState) returns (ok: bool)
      requires StatesKnown(State())
      modifies this
      ensures key !in old(sessions) ==> !ok && State() == old(State())
      ensures key in old(sessions) ==>
                var d := old(sessions)[key].descriptor;
                && ok == Transition(old(states)[d], new_).Ok?
                && State() == Updated(old(State()), d, new_)
    {
      if key !in sessions {
        return false;
      }
      var d := sessions[key].descriptor;
      var current := states[d];
      if current == Disconnected {
        return false;
      }
      if current == new_ {
        assert states == states[d := current];
        return true;
      }
      if new_ == Connecting && current == Pending {
        states := states[d := Connecting];
      } else if new_ == Connected && (current == Pending || current == Connecting) {
        states := states[d := Connected];
      } else if new_ == Disconnected {
        states := states[d := Disconnected];
      } else {
        return false;
      }
      ok := true;
    }

    /** The two effects of the spawned task, on either side of its sleep. */
    method CleanupMark(id: TaskId)
      requires CanMark(State(), id)
      modifies this
      ensures State() == MarkedDown(old(State()), id)
      ensures Forward(old(State()), State())
      ensures old(OneTaskPerKey(State())) ==> OneTaskPerKey(State())
    {
      states := states[tasks[id].descriptor := Disconnected];
      tasks := tasks[id := tasks[id].(phase := Marked)];
      MarkKeeps(old(State()), id);
    }

    method CleanupRemove(id: TaskId)
      requires id in tasks
      modifies this
      ensures State() == Removed(old(State()), id)
      ensures old(OneTaskPerKey(State())) ==>
                var t := old(tasks)[id];
                && OneTaskPerKey(State())
                && old(sessions) == sessions[t.key := Entry(t.descriptor, t.token)]
    {
      sessions := sessions - {tasks[id].key};
      tasks := tasks - {id};
      if old(OneTaskPerKey(State())) {
        RemoveKeeps(old(State()), id);
      }
    }
  }

  // ------------------------------------------------------------------- the watch

  /** Between looking up the key and reading the state the loop holds the descriptor. */
  datatype WatchPhase = Looking | Found(descriptor: Descriptor) | Missing | Ended

  datatype Watch = Watch(key: Key, previous: Option<SessionState>, phase: WatchPhase, seen: seq<SessionState>)

  function NewWatch(key: Key): (w: Watch)
  {
    Watch(key, None, Looking, [])
  }

  function Yielded(w: Watch, s: SessionState): (w': Watch)
  {
    Watch(w.key, Some(s), if s == Disconnected then Ended else Looking, w.seen + [s])
  }

  function LookedUp(w: Watch, r: Reg): (w': Watch)
  {
    w.(phase := if w.key in r.sessions then Found(r.sessions[w.key].descriptor) else Missing)
  }

  /** The match in `wait_for_next_state`, and the loop around it. */
  function Checked(w: Watch, r: Reg): (w': Watch)
    requires w.phase.Found? ==> w.phase.descriptor in r.states
  {
    match w.phase
    case Found(d) =>
      var s := r.states[d];
      if w.previous != Some(s) then Yielded(w, s)
      else if s == Disconnected then w.(phase := Ended)
      else w.(phase := Looking)
    case Missing =>
      if w.previous == Some(Disconnected) then w.(phase := Ended) else Yielded(w, Disconnected)
    case _ => w
  }

  // ------------------------------------------------------------------ interleaving

  datatype Sys = Sys(r: Reg, w: Watch)

  datatype Event =
    | Register(key: Key, descriptor: Descriptor, initial: SessionState, token: Token, id: TaskId)
    | Spawn(id: TaskId)
    | Cancel(token: Token)
    | Mark(id: TaskId)
    | Remove(id: TaskId)
    | Update(descriptor: Descriptor, new_: SessionState)
    | Look
    | Check

  predicate Enabled(y: Sys, e: Event)
  {
    match e
    case Register(_, _, _, _, id) => id !in y.r.tasks
    case Spawn(id) => id in y.r.tasks && y.r.tasks[id].phase == Registering
    case Cancel(_) => true
    case Mark(id) => CanMark(y.r, id)
    case Remove(id) => id in y.r.tasks && y.r.tasks[id].phase == Marked
    case Update(d, _) => d in y.r.states
    case Look => y.w.phase == Looking
    case Check => y.w.phase.Missing? || (y.w.phase.Found? && y.w.phase.descriptor in y.r.states)
  }

  function Next(y: Sys, e: Event): (y': Sys)
  {
    if !Enabled(y, e) then y
    else
      match e
      case Register(key, d, initial, token, id) => y.(r := Registered(y.r, key, d, initial, token, id))
      case Spawn(id) => y.(r := y.r.(tasks := y.r.tasks[id := y.r.tasks[id].(phase := Waiting)]))
      case Cancel(token) => y.(r := y.r.(cancelled := y.r.cancelled + {token}))
      case Mark(id) => y.(r := MarkedDown(y.r, id))
      case Remove(id) => y.(r := Removed(y.r, id))
      case Update(d, new_) => y.(r := Updated(y.r, d, new_))
      case Look => y.(w := LookedUp(y.w, y.r))
      case Check => y.(w := Checked(y.w, y.r))
  }

  function RunOf(y: Sys, events: seq<Event>): (y': Sys)
    decreases |events|
  {
    if events == [] then y else RunOf(Next(y, events[0]), events[1..])
  }

  // --------------------------------------------------------------------- ownership

  /** The cleanup task that owns an entry. */
  predicate Owns(r: Reg, id: TaskId, key: Key)
  {
    id in r.tasks && r.tasks[id].key == key && key in r.sessions
    && r.sessions[key] == Entry(r.tasks[id].descriptor, r.tasks[id].token)
  }

  /** Every occupied key has exactly one outstanding cleanup task, and every task owns the
      entry under its key. */
  ghost predicate OneTaskPerKey(r: Reg)
  {
    && (forall key :: key in r.sessions ==> exists id :: Owns(r, id, key))
    && (forall id :: id in r.tasks ==> Owns(r, id, r.tasks[id].key))
    && (forall i, j :: i in r.tasks && j in r.tasks && i != j ==> r.tasks[i].key != r.tasks[j].key)
  }

  /** Registered descriptors have a state; a marked task's descriptor is disconnected. */
  ghost predicate StatesKnown(r: Reg)
  {
    && (forall key :: key in r.sessions ==> r.sessions[key].descriptor in r.states)
    && (forall id :: id in r.tasks ==> r.tasks[id].descriptor in r.states)
    && (forall id :: id in r.tasks && r.tasks[id].phase == Marked ==>
          r.states[r.tasks[id].descriptor] == Disconnected)
  }

  ghost predicate Sound(r: Reg)
  {
    OneTaskPerKey(r) && StatesKnown(r)
  }

  lemma RegisterKeeps(r: Reg, key: Key, d: Descriptor, initial: SessionState, token: Token, id: TaskId)
    requires OneTaskPerKey(r) && id !in r.tasks
    ensures OneTaskPerKey(Registered(r, key, d, initial, token, id))
  {
    if key !in r.sessions {
      var r' := Registered(r, key, d, initial, token, id);
      assert Owns(r', id, key);
      forall i | i in r.tasks
        ensures Owns(r', i, r'.tasks[i].key) && r'.tasks[i].key != key
      {
        assert Owns(r, i, r.tasks[i].key);
      }
      SameOwners(r, r', key);
    }
  }

  /** Owners carry over for every key both registries agree on. */
  lemma SameOwners(r: Reg, r': Reg, except: Key)
    requires OneTaskPerKey(r)
    requires forall i, k :: Owns(r, i, k) && k != except ==> Owns(r', i, k)
    ensures forall k :: k in r.sessions && k != except ==> exists i :: Owns(r', i, k)
  {
    forall k | k in r.sessions && k != except
      ensures exists i :: Owns(r', i, k)
    {
      var i :| Owns(r, i, k);
      assert Owns(r', i, k);
    }
  }

  /** Ownership does not depend on phases, states or cancellations. */
  lemma RephaseKeeps(r: Reg, r': Reg)
    requires OneTaskPerKey(r) && r'.sessions == r.sessions && r'.tasks.Keys == r.tasks.Keys
    requires forall id :: id in r.tasks ==> r'.tasks[id] == r.tasks[id].(phase := r'.tasks[id].phase)
    ensures OneTaskPerKey(r')
  {
    forall k | k in r'.sessions
      ensures exists i :: Owns(r', i, k)
    {
      var i :| Owns(r, i, k);
      assert Owns(r', i, k);
    }
    forall i | i in r'.tasks
      ensures Owns(r', i, r'.tasks[i].key)
    {
      assert Owns(r, i, r.tasks[i].key);
    }
  }

  lemma MarkKeeps(r: Reg, id: TaskId)
    requires CanMark(r, id)
    ensures Forward(r, MarkedDown(r, id))
    ensures OneTaskPerKey(r) ==> OneTaskPerKey(MarkedDown(r, id))
  {
    if OneTaskPerKey(r) {
      RephaseKeeps(r, MarkedDown(r, id));
    }
  }

  /** Removal takes away exactly the entry its own registration made. */
  lemma RemoveKeeps(r: Reg, id: TaskId)
    requires OneTaskPerKey(r) && id in r.tasks
    ensures OneTaskPerKey(Removed(r, id))
    ensures r.tasks[id].key in r.sessions
    ensures r.sessions[r.tasks[id].key] == Entry(r.tasks[id].descriptor, r.tasks[id].token)
    ensures Removed(r, id).sessions.Keys == r.sessions.Keys - {r.tasks[id].key}
  {
    assert Owns(r, id, r.tasks[id].key);
    var r' := Removed(r, id);
    forall i, k | Owns(r, i, k) && k != r.tasks[id].key
      ensures Owns(r', i, k)
    {
      OthersStay(r, id, i, k);
    }
    forall i | i in r'.tasks
      ensures Owns(r', i, r'.tasks[i].key)
    {
      assert Owns(r, i, r.tasks[i].key);
      OthersStay(r, id, i, r.tasks[i].key);
    }
    SameOwners(r, r', r.tasks[id].key);
  }

  lemma OthersStay(r: Reg, id: TaskId, i: TaskId, k: Key)
    requires id in r.tasks && Owns(r, i, k) && k != r.tasks[id].key
    ensures Owns(Removed(r, id), i, k)
  {
  }

  /** Exactly the moves that do not go back, and none out of Disconnected, are allowed. */
  lemma TransitionIsForward(current: SessionState, new_: SessionState)
    ensures Transition(current, new_)
            == if current != Disconnected && Rank(current) <= Rank(new_) then Ok(new_) else Err
  {
  }

  /** States only move forward. */
  ghost predicate Forward(a: Reg, b: Reg)
  {
    forall d :: d in a.states ==> d in b.states && Rank(a.states[d]) <= Rank(b.states[d])
  }

  lemma StepKeepsStates(y: Sys, e: Event)
    requires StatesKnown(y.r)
    ensures StatesKnown(Next(y, e).r)
    ensures Forward(y.r, Next(y, e).r)
  {
    if e.Update? && Enabled(y, e) {
      TransitionIsForward(y.r.states[e.descriptor], e.new_);
    }
  }

  lemma StepKeepsOwnership(y: Sys, e: Event)
    requires OneTaskPerKey(y.r)
    ensures OneTaskPerKey(Next(y, e).r)
  {
    if Enabled(y, e) {
      match e
      case Register(key, d, initial, token, id) => RegisterKeeps(y.r, key, d, initial, token, id);
      case Remove(id) => RemoveKeeps(y.r, id);
      case Spawn(id) => RephaseKeeps(y.r, Next(y, e).r);
      case Mark(id) => MarkKeeps(y.r, id);
      case _ => RephaseKeeps(y.r, Next(y, e).r);
    }
  }

  /** Ownership and forward states, over every interleaving. */
  lemma {:induction false} EveryRunOwned(y: Sys, events: seq<Event>)
    requires Sound(y.r)
    ensures Sound(RunOf(y, events).r)
    ensures Forward(y.r, RunOf(y, events).r)
    decreases |events|
  {
    if events != [] {
      StepKeepsOwnership(y, events[0]);
      StepKeepsStates(y, events[0]);
      EveryRunOwned(Next(y, events[0]), events[1..]);
    }
  }

  lemma {:induction false} RunAppend(y: Sys, a: seq<Event>, b: seq<Event>)
    ensures RunOf(y, a + b) == RunOf(RunOf(y, a), b)
    decreases |a|
  {
    if a == [] {
      assert a + b == b;
    } else {
      RunAppend(Next(y, a[0]), a[1..], b);
      assert (a + b)[1..] == a[1..] + b;
    }
  }

  /** From an empty registry on: ownership holds at every moment, and between any two moments
      descriptor states only move forward. */
  lemma OwnedFromStart(w: Watch, events: seq<Event>, more: seq<Event>)
    ensures Sound(RunOf(Sys(EMPTY, w), events).r)
    ensures Forward(RunOf(Sys(EMPTY, w), events).r, RunOf(Sys(EMPTY, w), events + more).r)
  {
    EveryRunOwned(Sys(EMPTY, w), events);
    EveryRunOwned(RunOf(Sys(EMPTY, w), events), more);
    RunAppend(Sys(EMPTY, w), events, more);
  }

  // ------------------------------------------------------------------ watch runs

  ghost predicate Climbs(states: seq<SessionState>)
  {
    forall i, j :: 0 <= i < j < |states| ==> Rank(states[i]) < Rank(states[j])
  }

  function Last(states: seq<SessionState>): (s: Option<SessionState>)
  {
    if states == [] then None else Some(states[|states| - 1])
  }

  /** The state is not behind what the watch reported last. */
  predicate NotBehind(previous: Option<SessionState>, s: SessionState)
  {
    previous.None? || Rank(previous.value) <= Rank(s)
  }

  /** The state a descriptor has once it is registered. */
  function StateOf(r: Reg, d: Descriptor, initial: SessionState): (s: SessionState)
  {
    if d in r.states then r.states[d] else initial
  }

  /** The event puts an entry under the watched key, between two looks, whose descriptor is
      behind what the watch reported last. */
  predicate FallsBehind(y: Sys, e: Event)
  {
    && e.Register? && Enabled(y, e) && e.key == y.w.key && e.key !in y.r.sessions
    && y.w.phase == Looking && !NotBehind(y.w.previous, StateOf(y.r, e.descriptor, e.initial))
  }

  ghost predicate NeverBehind(y: Sys, events: seq<Event>)
    decreases |events|
  {
    events != [] ==> !FallsBehind(y, events[0]) && NeverBehind(Next(y, events[0]), events[1..])
  }

  /** The descriptor a look found is still under the key, or disconnected. */
  predicate FoundRight(y: Sys, d: Descriptor)
  {
    && d in y.r.states && NotBehind(y.w.previous, y.r.states[d])
    && (y.r.states[d] == Disconnected || (y.w.key in y.r.sessions && y.r.sessions[y.w.key].descriptor == d))
  }

  /** Between two looks, what sits under the key is not behind. */
  predicate KeyRight(y: Sys)
  {
    y.w.key in y.r.sessions ==>
      var d := y.r.sessions[y.w.key].descriptor;
      d in y.r.states && NotBehind(y.w.previous, y.r.states[d])
  }

  ghost predicate WatchInv(y: Sys)
  {
    && Sound(y.r)
    && Climbs(y.w.seen)
    && y.w.previous == Last(y.w.seen)
    && (y.w.phase == Ended <==> y.w.previous == Some(Disconnected))
    && (y.w.phase.Found? ==> FoundRight(y, y.w.phase.descriptor))
    && (y.w.phase == Looking ==> KeyRight(y))
  }

  lemma CheckKeeps(y: Sys)
    requires WatchInv(y) && Enabled(y, Check)
    ensures WatchInv(Next(y, Check))
  {
    var s := if y.w.phase.Found? then y.r.states[y.w.phase.descriptor] else Disconnected;
    if y.w.previous != Some(s) {
      ClimbsSnoc(y.w.seen, s);
    }
  }

  /** Steps of the registry that add nothing under the watched key. */
  lemma KeyKept(y: Sys, e: Event)
    requires Sound(y.r) && !e.Look? && !e.Check?
    ensures var y' := Next(y, e);
            && y'.w == y.w && Forward(y.r, y'.r)
            && (y.w.key in y.r.sessions ==>
                  var entry := y.r.sessions[y.w.key];
                  if y.w.key in y'.r.sessions then y'.r.sessions[y.w.key] == entry
                  else entry.descriptor in y.r.states && y.r.states[entry.descriptor] == Disconnected)
            && (y.w.key !in y.r.sessions && y.w.key in y'.r.sessions ==>
                  && e.Register? && Enabled(y, e) && e.key == y.w.key
                  && y'.r.sessions[y.w.key].descriptor == e.descriptor
                  && e.descriptor in y'.r.states
                  && y'.r.states[e.descriptor] == StateOf(y.r, e.descriptor, e.initial))
  {
    StepKeepsStates(y, e);
    if e.Remove? && Enabled(y, e) && y.r.tasks[e.id].key == y.w.key {
      assert Owns(y.r, e.id, y.w.key);
    }
  }

  lemma FoundKept(y: Sys, e: Event)
    requires Sound(y.r) && !e.Look? && !e.Check?
    requires y.w.phase.Found? && FoundRight(y, y.w.phase.descriptor)
    ensures FoundRight(Next(y, e), y.w.phase.descriptor)
  {
    KeyKept(y, e);
  }

  lemma KeyRightKept(y: Sys, e: Event)
    requires Sound(y.r) && !e.Look? && !e.Check?
    requires y.w.phase == Looking && KeyRight(y) && !FallsBehind(y, e)
    ensures KeyRight(Next(y, e))
  {
    KeyKept(y, e);
  }

  /** A registry step the watch does not take part in. */
  lemma RegistryStep(y: Sys, e: Event)
    requires WatchInv(y) && !FallsBehind(y, e) && !e.Look? && !e.Check?
    ensures WatchInv(Next(y, e))
  {
    assert Sound(Next(y, e).r) by {
      StepKeepsOwnership(y, e);
      StepKeepsStates(y, e);
    }
    assert Next(y, e).w == y.w;
    if y.w.phase.Found? {
      FoundKept(y, e);
    }
    if y.w.phase == Looking {
      KeyRightKept(y, e);
    }
  }

  lemma WatchStep(y: Sys, e: Event)
    requires WatchInv(y) && !FallsBehind(y, e)
    ensures WatchInv(Next(y, e))
  {
    if !Enabled(y, e) {
      assert Next(y, e) == y;
    } else if e.Check? {
      CheckKeeps(y);
    } else if !e.Look? {
      RegistryStep(y, e);
    }
  }

  lemma {:induction false} WatchRun(y: Sys, events: seq<Event>)
    requires WatchInv(y) && NeverBehind(y, events)
    ensures WatchInv(RunOf(y, events))
    decreases |events|
  {
    if events != [] {
      WatchStep(y, events[0]);
      WatchRun(Next(y, events[0]), events[1..]);
    }
  }

  lemma {:induction false} ClimbIsShort(states: seq<SessionState>)
    requires Climbs(states)
    ensures states != [] ==> |states| <= Rank(states[|states| - 1]) + 1
    decreases |states|
  {
    if |states| > 1 {
      ClimbIsShort(states[..|states| - 1]);
    }
  }

  /** A watch yields strictly advancing states, at most four, and has ended exactly when the last
      of them is Disconnected, in every run in which nothing behind its last report is registered
      under its key between two looks; in particular when the key is not registered anew. */
  lemma WatchYieldsClimb(r: Reg, key: Key, events: seq<Event>)
    requires Sound(r) && NeverBehind(Sys(r, NewWatch(key)), events)
    ensures var w := RunOf(Sys(r, NewWatch(key)), events).w;
            && Climbs(w.seen) && |w.seen| <= 4
            && (w.phase == Ended <==> Last(w.seen) == Some(Disconnected))
  {
    var y := Sys(r, NewWatch(key));
    WatchRun(y, events);
    ClimbIsShort(RunOf(y, events).w.seen);
  }

  /** It does end: one more look and check suffice once the session is gone or disconnected. */
  lemma WatchEnds(y: Sys)
    requires WatchInv(y) && y.w.phase == Looking
    requires y.w.key in y.r.sessions ==> y.r.states[y.r.sessions[y.w.key].descriptor] == Disconnected
    ensures Next(Next(y, Look), Check).w.phase == Ended
  {
    var y1 := Next(y, Look);
    assert Enabled(y1, Check);
  }

  // ------------------------------------------------------- exactly when it falls back

  /** The check reads a state behind the last report. */
  predicate ReadsBehind(y: Sys, e: Event)
  {
    && e.Check? && Enabled(y, e) && y.w.phase.Found?
    && !NotBehind(y.w.previous, y.r.states[y.w.phase.descriptor])
  }

  ghost predicate NeverReadsBehind(y: Sys, events: seq<Event>)
    decreases |events|
  {
    events != [] ==> !ReadsBehind(y, events[0]) && NeverReadsBehind(Next(y, events[0]), events[1..])
  }

  /** What holds of a watch in any run at all. */
  predicate Reporting(w: Watch)
  {
    w.previous == Last(w.seen) && (w.previous == Some(Disconnected) ==> w.phase == Ended)
  }

  lemma ReportStep(y: Sys, e: Event)
    requires Reporting(y.w)
    ensures var w := Next(y, e).w;
            && Reporting(w) && y.w.seen <= w.seen
            && (Climbs(y.w.seen) ==> (Climbs(w.seen) <==> !ReadsBehind(y, e)))
  {
    if e.Check? && Enabled(y, e) && Climbs(y.w.seen) {
      var s := if y.w.phase.Found? then y.r.states[y.w.phase.descriptor] else Disconnected;
      ClimbsSnoc(y.w.seen, s);
      assert y.w.previous.Some? && Rank(y.w.previous.value) == Rank(s) ==> y.w.previous == Some(s);
    }
  }

  lemma {:induction false} SeenGrows(y: Sys, events: seq<Event>)
    requires Reporting(y.w)
    ensures y.w.seen <= RunOf(y, events).w.seen
    decreases |events|
  {
    if events != [] {
      ReportStep(y, events[0]);
      SeenGrows(Next(y, events[0]), events[1..]);
    }
  }

  lemma {:induction false} ClimbsIff(y: Sys, events: seq<Event>)
    requires Reporting(y.w) && Climbs(y.w.seen)
    ensures Climbs(RunOf(y, events).w.seen) <==> NeverReadsBehind(y, events)
    decreases |events|
  {
    if events != [] {
      var y1 := Next(y, events[0]);
      ReportStep(y, events[0]);
      if Climbs(y1.w.seen) {
        ClimbsIff(y1, events[1..]);
      } else {
        SeenGrows(y1, events[1..]);
        assert forall i :: 0 <= i < |y1.w.seen| ==> y1.w.seen[i] == RunOf(y, events).w.seen[i];
      }
    }
  }

  /** Exactly when reports advance, in every run of any registry: no check reads a state behind
      the last report. */
  lemma WatchClimbsIff(r: Reg, key: Key, events: seq<Event>)
    ensures Climbs(RunOf(Sys(r, NewWatch(key)), events).w.seen)
            <==> NeverReadsBehind(Sys(r, NewWatch(key)), events)
  {
    ClimbsIff(Sys(r, NewWatch(key)), events);
  }

  ghost predicate RegistryOnly(events: seq<Event>)
  {
    forall i :: 0 <= i < |events| ==> !events[i].Look? && !events[i].Check?
  }

  lemma {:induction false} RegistryRun(y: Sys, events: seq<Event>)
    requires StatesKnown(y.r) && RegistryOnly(events)
    ensures RunOf(y, events).w == y.w && Forward(y.r, RunOf(y, events).r)
    ensures StatesKnown(RunOf(y, events).r)
    decreases |events|
  {
    if events != [] {
      StepKeepsStates(y, events[0]);
      RegistryRun(Next(y, events[0]), events[1..]);
    }
  }

  /** One round of the watch: registry steps `a`, a look, registry steps `b`, a check. */
  function Round(y: Sys, a: seq<Event>, b: seq<Event>): (y': Sys)
  {
    Next(RunOf(Next(RunOf(y, a), Look), b), Check)
  }

  /** The state that round reads: what the descriptor found by the look is in at the check. */
  function RoundReads(y: Sys, a: seq<Event>, b: seq<Event>): (s: SessionState)
  {
    var found, checking := RunOf(y, a), RunOf(Next(RunOf(y, a), Look), b);
    if y.w.key !in found.r.sessions then Disconnected
    else StateOf(checking.r, found.r.sessions[y.w.key].descriptor, Disconnected)
  }

  /** What a registration does to the next report, whatever the registry does in between: the
      states keep advancing if and only if the descriptor is not behind the last report by the
      time of the check, where it may have caught up. */
  lemma ReregisteredWatch(y: Sys, a: seq<Event>, b: seq<Event>)
    requires WatchInv(y) && y.w.phase == Looking && RegistryOnly(a) && RegistryOnly(b)
    ensures Climbs(Round(y, a, b).w.seen) <==> NotBehind(y.w.previous, RoundReads(y, a, b))
    ensures Round(y, a, b).w.seen
            == if y.w.previous == Some(RoundReads(y, a, b)) then y.w.seen else y.w.seen + [RoundReads(y, a, b)]
  {
    var s := RoundReads(y, a, b);
    RoundSees(y, a, b);
    ClimbsSnoc(y.w.seen, s);
    assert y.w.previous.Some? && Rank(y.w.previous.value) == Rank(s) ==> y.w.previous == Some(s);
  }

  lemma RoundSees(y: Sys, a: seq<Event>, b: seq<Event>)
    requires StatesKnown(y.r) && y.w.phase == Looking && y.w.previous != Some(Disconnected)
    requires RegistryOnly(a) && RegistryOnly(b)
    ensures Round(y, a, b).w.seen
            == if y.w.previous == Some(RoundReads(y, a, b)) then y.w.seen else y.w.seen + [RoundReads(y, a, b)]
  {
    var found := RunOf(y, a);
    RegistryRun(y, a);
    var looked := Next(found, Look);
    assert looked.r == found.r;
    RegistryRun(looked, b);
  }

  lemma ClimbsSnoc(seen: seq<SessionState>, s: SessionState)
    requires Climbs(seen)
    ensures Climbs(seen + [s]) <==> seen == [] || Rank(seen[|seen| - 1]) < Rank(s)
  {
    var all := seen + [s];
    if seen != [] {
      assert all[|seen| - 1] == seen[|seen| - 1] && all[|seen|] == s;
    }
  }

  /** One session from registration to removal, with the watch reading it while connected. */
  function WatchedSession(): (y: Sys)
  {
    var registered := Next(Next(Sys(EMPTY, NewWatch(0)), Register(0, 0, Pending, 0, 0)), Spawn(0));
    var watched := Next(Next(Next(registered, Update(0, Connected)), Look), Check);
    Next(Next(Next(watched, Cancel(0)), Mark(0)), Remove(0))
  }

  lemma WatchedSessionIs()
    ensures var y := WatchedSession();
            && y.w == Watch(0, Some(Connected), Looking, [Connected])
            && y.r.sessions.Keys == {} && y.r.tasks.Keys == {} && y.r.states == map[0 := Disconnected]
  {
    var registered := Next(Next(Sys(EMPTY, NewWatch(0)), Register(0, 0, Pending, 0, 0)), Spawn(0));
    var watched := Next(Next(Next(registered, Update(0, Connected)), Look), Check);
    assert watched.w == Watch(0, Some(Connected), Looking, [Connected]);
  }

  lemma LooksAt(y: Sys, d: Descriptor, s: SessionState)
    requires y.w.phase == Looking && y.w.key in y.r.sessions && y.r.sessions[y.w.key].descriptor == d
    requires d in y.r.states && y.r.states[d] == s
    ensures Next(Next(y, Look), Check).w.seen == if y.w.previous == Some(s) then y.w.seen else y.w.seen + [s]
  {
  }

  /** The key is registered again. */
  function SecondSession(): (y: Sys)
  {
    Next(WatchedSession(), Register(0, 1, Pending, 1, 1))
  }

  lemma SecondSessionIs()
    ensures var y := SecondSession();
            && y.w == Watch(0, Some(Connected), Looking, [Connected])
            && y.r.sessions == map[0 := Entry(1, 1)] && y.r.states == map[0 := Disconnected, 1 := Pending]
  {
    WatchedSessionIs();
  }

  /** Registering the key anew can send a watch backwards: a watcher that saw Connected reports
      Pending next. */
  lemma ReregisteredWatchFallsBack()
    ensures Next(Next(SecondSession(), Look), Check).w.seen == [Connected, Pending]
  {
    SecondSessionIs();
    LooksAt(SecondSession(), 1, Pending);
  }

  /** The same registration does no harm when the session connects before the next look. */
  lemma ReregisteredWatchCatchesUp()
    ensures Next(Next(Next(SecondSession(), Update(1, Connected)), Look), Check).w.seen == [Connected]
  {
    SecondSessionIs();
    LooksAt(Next(SecondSession(), Update(1, Connected)), 1, Connected);
  }
}
