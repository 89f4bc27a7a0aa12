/** The critical section of utils/sow/sow.c (mkcs, enter, leave) under every
    interleaving of any number of threads. One action is one access to the
    shared state; the recursion count is read and written in separate actions. */
module CriticalSection {
  import opened Basics

  const NOHANDLE := -1

  datatype Pc =
    | Idle                // outside enter and leave
    | EnterTest           // enter: owner == tid?
    | IncLoad             // enter: recursion++, read
    | IncStore(inc: int)  // enter: recursion++, write
    | EnterAdd            // enter: atomic_add(count, 1) > 0?
    | Wait                // enter: waitone(event)
    | SetOwner            // enter: owner = tid
    | LeaveTest           // leave: owner != tid?
    | RecTest             // leave: recursion > 0?, and the read of recursion--
    | DecStore(dec: int)  // leave: recursion--, write
    | ClearOwner          // leave: owner = NOHANDLE
    | LeaveAdd            // leave: atomic_add(count, -1) >= 0?
    | SetEvent            // leave: eset(event)

  /** depth is history: the enters of a thread that no leave has undone. */
  datatype State = State(count: int, recursion: int, owner: int, event: bool, pcs: seq<Pc>, depth: seq<nat>)

  datatype Call = Enter | Leave

  /** mkcs, with n threads about to use the section. */
  function Init(n: nat): State {
    State(-1, 0, NOHANDLE, false, seq(n, _ => Idle), seq(n, _ => 0))
  }

  ghost predicate Shaped(s: State) {
    |s.pcs| == |s.depth|
  }

  predicate Enabled(s: State, t: nat) {
    t < |s.pcs| && |s.pcs| == |s.depth| && (s.pcs[t].Wait? ==> s.event)
  }

  function Goto(s: State, t: nat, pc: Pc): State
    requires t < |s.pcs|
  {
    s.(pcs := s.pcs[t := pc])
  }

  function Deepen(s: State, t: nat): State
    requires t < |s.depth|
  {
    s.(depth := s.depth[t := s.depth[t] + 1])
  }

  function Undo(s: State, t: nat): State
    requires t < |s.depth|
  {
    s.(depth := s.depth[t := if s.depth[t] > 0 then s.depth[t] - 1 else 0])
  }

  /** One action of thread t; an idle thread makes the given call. */
  function Next(s: State, t: nat, call: Call): State
    requires Enabled(s, t)
  {
    match s.pcs[t]
    case Idle => Goto(s, t, if call.Enter? then EnterTest else LeaveTest)
    case EnterTest => Goto(s, t, if s.owner == t then IncLoad else EnterAdd)
    case IncLoad => Goto(s, t, IncStore(s.recursion))
    case IncStore(v) => Goto(Deepen(s, t), t, Idle).(recursion := v + 1)
    case EnterAdd => Goto(s, t, if s.count + 1 > 0 then Wait else SetOwner).(count := s.count + 1)
    case Wait => Goto(s, t, SetOwner).(event := false)
    case SetOwner => Goto(Deepen(s, t), t, Idle).(owner := t)
    case LeaveTest => Goto(s, t, if s.owner != t then Idle else RecTest)
    case RecTest => Goto(s, t, if s.recursion > 0 then DecStore(s.recursion) else ClearOwner)
    case DecStore(v) => Goto(Undo(s, t), t, Idle).(recursion := v - 1)
    case ClearOwner => Goto(s, t, LeaveAdd).(owner := NOHANDLE)
    case LeaveAdd => Goto(Undo(s, t), t, if s.count - 1 >= 0 then SetEvent else Idle).(count := s.count - 1)
    case SetEvent => Goto(s, t, Idle).(event := true)
  }

  // ----- who is where --------------------------------------------------------------

  /** Past the wait in enter and before the decrement in leave. */
  predicate Holding(s: State, t: nat)
    requires t < |s.pcs| && |s.pcs| == |s.depth|
  {
    s.depth[t] > 0 || s.pcs[t].SetOwner?
  }

  ghost function Holders(s: State): set<nat>
    requires Shaped(s)
  {
    set t: nat | t < |s.pcs| && Holding(s, t)
  }

  ghost function Waiters(s: State): set<nat> {
    set t: nat | t < |s.pcs| && s.pcs[t].Wait?
  }

  ghost function Setters(s: State): set<nat> {
    set t: nat | t < |s.pcs| && s.pcs[t].SetEvent?
  }

  function Flag(b: bool): nat { if b then 1 else 0 }

  /** What a thread knows at each point. */
  predicate Local(s: State, t: nat)
    requires t < |s.pcs| && |s.pcs| == |s.depth|
  {
    var d := s.depth[t];
    match s.pcs[t]
    case Idle => true
    case EnterTest => true
    case IncLoad => d > 0
    case IncStore(v) => d > 0 && v == s.recursion
    case EnterAdd => d == 0
    case Wait => d == 0
    case SetOwner => d == 0
    case LeaveTest => true
    case RecTest => d > 0
    case DecStore(v) => d > 1 && v == s.recursion
    case ClearOwner => d == 1
    case LeaveAdd => d == 1
    case SetEvent => d == 0
  }

  /** Owner and recursion describe exactly the thread between its two writes. */
  predicate Owned(s: State, t: nat)
    requires t < |s.pcs| && |s.pcs| == |s.depth|
  {
    && (s.owner == t <==> s.depth[t] > 0 && !s.pcs[t].LeaveAdd?)
    && (s.depth[t] > 0 ==> s.recursion == s.depth[t] - 1)
  }

  /** count + 1 threads are inside or waiting; if there are any, then exactly one
      of them is inside, or its release is on the way. */
  ghost predicate Counted(s: State)
    requires Shaped(s)
  {
    && s.count + 1 == |Holders(s)| + |Waiters(s)|
    && |Holders(s)| + |Setters(s)| + Flag(s.event) == Flag(s.count >= 0)
  }

  ghost predicate Inv(s: State) {
    && Shaped(s)
    && (forall t: nat :: t < |s.pcs| ==> Local(s, t) && Owned(s, t))
    && (s.owner == NOHANDLE || 0 <= s.owner < |s.pcs|)
    && (s.owner == NOHANDLE ==> s.recursion == 0)
    && Counted(s)
  }

  lemma InitInv(n: nat)
    ensures Inv(Init(n))
  {
    assert Holders(Init(n)) == {} && Waiters(Init(n)) == {} && Setters(Init(n)) == {};
  }

  /** A set of at most one element that has t has only t. */
  lemma OnlyOne(a: set<nat>, t: nat, u: nat)
    requires |a| <= 1 && t in a && u in a
    ensures t == u
  {
    if t != u { Two(a, t, u); }
  }

  lemma Two(a: set<nat>, t: nat, u: nat)
    requires t in a && u in a && t != u
    ensures |a| >= 2
  {
    assert a == (a - {t} - {u}) + {t, u};
  }

  /** At most one thread is inside. */
  lemma Exclusive(s: State, t: nat, u: nat)
    requires Inv(s) && t < |s.pcs| && u < |s.pcs| && Holding(s, t) && Holding(s, u)
    ensures t == u
  {
    assert t in Holders(s) && u in Holders(s);
    OnlyOne(Holders(s), t, u);
  }

  /** Only thread t's part differs. */
  ghost predicate OnlyMoved(s: State, s': State, t: nat) {
    && Shaped(s) && Shaped(s') && |s'.pcs| == |s.pcs| && t < |s.pcs|
    && forall u: nat :: u < |s.pcs| && u != t ==> s'.pcs[u] == s.pcs[u] && s'.depth[u] == s.depth[u]
  }

  lemma NextMoves(s: State, t: nat, call: Call)
    requires Shaped(s) && Enabled(s, t)
    ensures OnlyMoved(s, Next(s, t, call), t)
  {}

  lemma Resize(a: set<nat>, t: nat, p: bool)
    ensures |if p then a + {t} else a - {t}| == |a| - Flag(t in a) + Flag(p)
  {
    assert t in a ==> a + {t} == a;
    assert t !in a ==> a - {t} == a;
  }

  lemma HoldersMoved(s: State, s': State, t: nat)
    requires OnlyMoved(s, s', t)
    ensures |Holders(s')| == |Holders(s)| - Flag(Holding(s, t)) + Flag(Holding(s', t))
  {
    assert Holders(s') == if Holding(s', t) then Holders(s) + {t} else Holders(s) - {t};
    Resize(Holders(s), t, Holding(s', t));
  }

  lemma WaitersMoved(s: State, s': State, t: nat)
    requires OnlyMoved(s, s', t)
    ensures |Waiters(s')| == |Waiters(s)| - Flag(s.pcs[t].Wait?) + Flag(s'.pcs[t].Wait?)
  {
    assert Waiters(s') == if s'.pcs[t].Wait? then Waiters(s) + {t} else Waiters(s) - {t};
    Resize(Waiters(s), t, s'.pcs[t].Wait?);
  }

  lemma SettersMoved(s: State, s': State, t: nat)
    requires OnlyMoved(s, s', t)
    ensures |Setters(s')| == |Setters(s)| - Flag(s.pcs[t].SetEvent?) + Flag(s'.pcs[t].SetEvent?)
  {
    assert Setters(s') == if s'.pcs[t].SetEvent? then Setters(s) + {t} else Setters(s) - {t};
    Resize(Setters(s), t, s'.pcs[t].SetEvent?);
  }

  lemma Member(s: State, t: nat)
    requires Shaped(s) && t < |s.pcs|
    ensures t in Holders(s) <==> Holding(s, t)
    ensures Holding(s, t) ==> |Holders(s)| > 0
    ensures s.pcs[t].Wait? ==> t in Waiters(s) && |Waiters(s)| > 0
    ensures s.pcs[t].SetEvent? ==> t in Setters(s) && |Setters(s)| > 0
  {}

  lemma NextCounted(s: State, t: nat, call: Call)
    requires Inv(s) && Enabled(s, t)
    ensures Shaped(Next(s, t, call)) && Counted(Next(s, t, call))
  {
    hide Holders, Waiters, Setters;
    assert Local(s, t) && Owned(s, t);
    NextMoves(s, t, call);
    HoldersMoved(s, Next(s, t, call), t);
    WaitersMoved(s, Next(s, t, call), t);
    SettersMoved(s, Next(s, t, call), t);
    Member(s, t);
  }

  /** The acting thread knows what it should at its next point. */
  lemma NextOwn(s: State, t: nat, call: Call)
    requires Inv(s) && Enabled(s, t)
    ensures Shaped(Next(s, t, call)) && |Next(s, t, call).pcs| == |s.pcs|
    ensures Local(Next(s, t, call), t) && Owned(Next(s, t, call), t)
  {
    hide Holders, Waiters, Setters;
    NextMoves(s, t, call);
    assert Local(s, t) && Owned(s, t);
    Alone(s, t);
  }

  /** The others lose nothing: whoever writes owner or recursion is the only one
      inside. */
  lemma NextOther(s: State, t: nat, call: Call, u: nat)
    requires Inv(s) && Enabled(s, t) && u < |s.pcs| && u != t
    ensures Shaped(Next(s, t, call)) && |Next(s, t, call).pcs| == |s.pcs|
    ensures Local(Next(s, t, call), u) && Owned(Next(s, t, call), u)
  {
    hide Holders, Waiters, Setters;
    NextMoves(s, t, call);
    assert Local(s, t) && Owned(s, t) && Local(s, u) && Owned(s, u);
    if Holding(s, t) && Holding(s, u) { Exclusive(s, t, u); }
    Alone(s, t);
  }

  /** A thread about to claim the section finds nobody's data in it. */
  lemma Alone(s: State, t: nat)
    requires Inv(s) && t < |s.pcs|
    ensures s.pcs[t].SetOwner? ==> s.owner == NOHANDLE && s.recursion == 0
  {
    if s.owner != NOHANDLE && s.pcs[t].SetOwner? {
      assert Owned(s, s.owner) && Local(s, t);
      Exclusive(s, t, s.owner);
    }
  }

  /** Every action of every thread keeps the invariant. */
  lemma NextInv(s: State, t: nat, call: Call)
    requires Inv(s) && Enabled(s, t)
    ensures Inv(Next(s, t, call))
  {
    hide Holders, Waiters, Setters, Next, Local, Owned;
    NextMoves(s, t, call);
    NextCounted(s, t, call);
    NextShared(s, t, call);
    forall u: nat | u < |s.pcs|
      ensures Local(Next(s, t, call), u) && Owned(Next(s, t, call), u)
    {
      if u == t { NextOwn(s, t, call); } else { NextOther(s, t, call, u); }
    }
  }

  lemma NextShared(s: State, t: nat, call: Call)
    requires Inv(s) && Enabled(s, t)
    ensures var s' := Next(s, t, call); s'.owner == NOHANDLE || 0 <= s'.owner < |s.pcs|
    ensures var s' := Next(s, t, call); s'.owner == NOHANDLE ==> s'.recursion == 0
  {
    hide Holders, Waiters, Setters;
    assert Local(s, t) && Owned(s, t);
    Alone(s, t);
  }

  // ----- runs ------------------------------------------------------------------------

  datatype Action = Act(thread: nat, call: Call)

  /** Actions in any order; one of a blocked thread has no effect. */
  function Run(s: State, acts: seq<Action>): State
    decreases |acts|
  {
    if acts == [] then s else
    var s' := Run(s, acts[..|acts| - 1]);
    var a := acts[|acts| - 1];
    if Enabled(s', a.thread) then Next(s', a.thread, a.call) else s'
  }

  lemma {:induction false} RunInv(s: State, acts: seq<Action>)
    requires Inv(s)
    ensures Inv(Run(s, acts))
    decreases |acts|
  {
    hide Inv, Next;
    if acts != [] {
      var a := acts[|acts| - 1];
      RunInv(s, acts[..|acts| - 1]);
      var s' := Run(s, acts[..|acts| - 1]);
      if Enabled(s', a.thread) { NextInv(s', a.thread, a.call); }
    }
  }

  /** Mutual exclusion, on every run of any number of threads. */
  lemma MutualExclusion(n: nat, acts: seq<Action>, t: nat, u: nat)
    ensures var s := Run(Init(n), acts);
      Shaped(s) && (t < |s.pcs| && u < |s.pcs| && Holding(s, t) && Holding(s, u) ==> t == u)
  {
    InitInv(n);
    RunInv(Init(n), acts);
    var s := Run(Init(n), acts);
    if t < |s.pcs| && u < |s.pcs| && Holding(s, t) && Holding(s, u) { Exclusive(s, t, u); }
  }

  /** The recursion count is that of the thread inside, and each leave undoes one
      enter of the same thread. */
  lemma RecursionOfHolder(n: nat, acts: seq<Action>, t: nat)
    ensures var s := Run(Init(n), acts);
      Shaped(s) && (t < |s.pcs| && s.depth[t] > 0 ==> s.recursion == s.depth[t] - 1)
    ensures var s := Run(Init(n), acts);
      t < |s.pcs| && s.pcs[t].Idle? ==> (s.owner == t <==> s.depth[t] > 0)
  {
    InitInv(n);
    RunInv(Init(n), acts);
    var s := Run(Init(n), acts);
    if t < |s.pcs| { assert Owned(s, t); }
  }

  /** The event is never set twice: whoever is about to set it finds it reset,
      and once set it has a waiter to consume it. */
  lemma NoLostSet(n: nat, acts: seq<Action>, t: nat)
    ensures var s := Run(Init(n), acts);
      t < |s.pcs| && s.pcs[t].SetEvent? ==> !s.event && Waiters(s) != {}
    ensures var s := Run(Init(n), acts); s.event ==> Waiters(s) != {}
  {
    InitInv(n);
    RunInv(Init(n), acts);
    var s := Run(Init(n), acts);
    if t < |s.pcs| { Member(s, t); }
  }

  /** While a thread is blocked, exactly one of these exists: a thread inside, a
      thread about to set the event, or a set event. */
  lemma BlockedHasCause(n: nat, acts: seq<Action>, t: nat)
    ensures var s := Run(Init(n), acts);
      Shaped(s) && (t < |s.pcs| && s.pcs[t].Wait? ==> |Holders(s)| + |Setters(s)| + Flag(s.event) == 1)
  {
    InitInv(n);
    RunInv(Init(n), acts);
    var s := Run(Init(n), acts);
    if t < |s.pcs| { Member(s, t); }
  }

  // ----- what a call does ----------------------------------------------------------

  predicate InEnter(pc: Pc) {
    pc.EnterTest? || pc.IncLoad? || pc.IncStore? || pc.EnterAdd? || pc.Wait? || pc.SetOwner?
  }

  predicate InLeave(pc: Pc) {
    pc.LeaveTest? || pc.RecTest? || pc.DecStore? || pc.ClearOwner? || pc.LeaveAdd? || pc.SetEvent?
  }

  /** A call in progress, and how deep the thread was inside when it made it. */
  datatype Pending = Pending(call: Call, before: nat)

  /** The call that thread t is in, read off the run: it starts with an action of t
      outside any call and ends when t is outside again. */
  function CallOf(s: State, acts: seq<Action>, t: nat): Option<Pending>
    decreases |acts|
  {
    if acts == [] then None else
    var s', a := Run(s, acts[..|acts| - 1]), acts[|acts| - 1];
    if a.thread != t || !Enabled(s', t) then CallOf(s, acts[..|acts| - 1], t)
    else if s'.pcs[t].Idle? then Some(Pending(a.call, s'.depth[t]))
    else if Next(s', t, a.call).pcs[t].Idle? then None
    else CallOf(s, acts[..|acts| - 1], t)
  }

  /** Where a thread is in its call, and what the call has done so far. */
  ghost predicate Underway(s: State, t: nat, p: Option<Pending>)
    requires t < |s.pcs| && Shaped(s)
  {
    match p
    case None => s.pcs[t].Idle?
    case Some(Pending(Enter, d)) => InEnter(s.pcs[t]) && s.depth[t] == d
    case Some(Pending(Leave, d)) =>
      && InLeave(s.pcs[t]) && (d == 0 ==> s.pcs[t].LeaveTest?)
      && s.depth[t] == if s.pcs[t].SetEvent? then d - 1 else d
  }

  lemma NextUnderway(s: State, t: nat, call: Call, p: Option<Pending>)
    requires Inv(s) && Enabled(s, t) && Underway(s, t, p)
    ensures var s' := Next(s, t, call);
      Shaped(s') && t < |s'.pcs| &&
      Underway(s', t, if p.None? then Some(Pending(call, s.depth[t])) else if s'.pcs[t].Idle? then None else p)
  {
    assert Local(s, t) && Owned(s, t);
  }

  lemma {:induction false} RunUnderway(n: nat, acts: seq<Action>, t: nat)
    requires t < n
    ensures var s := Run(Init(n), acts);
      Inv(s) && |s.pcs| == |s.depth| == n && Underway(s, t, CallOf(Init(n), acts, t))
    decreases |acts|
  {
    hide Inv, Next;
    InitInv(n);
    RunInv(Init(n), acts);
    if acts != [] {
      var before, a := acts[..|acts| - 1], acts[|acts| - 1];
      RunUnderway(n, before, t);
      var s := Run(Init(n), before);
      if Enabled(s, a.thread) {
        NextMoves(s, a.thread, a.call);
        if a.thread == t { NextUnderway(s, t, a.call, CallOf(Init(n), before, t)); }
      }
    }
  }

  /** On every run, a call that returns has done what it is for: after an enter the
      thread is inside once more and owns the section; after a leave of a thread
      inside it is inside once less and owns the section as long as it is inside;
      and a leave of a thread outside returns without any effect. */
  lemma Returns(n: nat, acts: seq<Action>, t: nat, call: Call, p: Pending)
    requires t < n && CallOf(Init(n), acts, t) == Some(p) && Enabled(Run(Init(n), acts), t)
    requires Next(Run(Init(n), acts), t, call).pcs[t].Idle?
    ensures var s, s' := Run(Init(n), acts), Next(Run(Init(n), acts), t, call);
      match p.call
      case Enter => s'.owner == t && s'.depth[t] == p.before + 1
      case Leave =>
        && (p.before > 0 ==> s'.depth[t] == p.before - 1 && (s'.owner == t <==> p.before > 1))
        && (p.before == 0 ==> s' == s.(pcs := s'.pcs) && s'.owner != t)
  {
    hide Holders, Waiters, Setters;
    RunUnderway(n, acts, t);
    var s := Run(Init(n), acts);
    assert Local(s, t) && Owned(s, t);
    NextOwn(s, t, call);
  }

  /** k actions of one thread. */
  function Solo(t: nat, call: Call, k: nat): seq<Action> {
    seq(k, _ => Act(t, call))
  }

  lemma MoveAlone(s: State, t: nat, call: Call, k: nat)
    requires Enabled(Run(s, Solo(t, call, k)), t)
    ensures Run(s, Solo(t, call, k + 1)) == Next(Run(s, Solo(t, call, k)), t, call)
  {
    assert Solo(t, call, k + 1)[..k] == Solo(t, call, k);
  }

  /** From every reachable state in which nobody is inside or waiting, or the thread
      is inside itself, an enter that runs alone takes the section in four actions. */
  lemma EntersAlone(n: nat, past: seq<Action>, t: nat)
    requires t < n && CallOf(Init(n), past, t) == None
    requires Run(Init(n), past).count == -1 || Run(Init(n), past).owner == t
    ensures var s, s' := Run(Init(n), past), Run(Run(Init(n), past), Solo(t, Enter, 4));
      && OnlyMoved(s, s', t) && s'.pcs[t].Idle? && s'.owner == t && s'.depth[t] == s.depth[t] + 1
      && s'.event == s.event && s'.count == if s.owner == t then s.count else 0
  {
    hide Run, Inv, Holders, Waiters, Setters;
    RunUnderway(n, past, t);
    var s := Run(Init(n), past);
    NobodyIn(s, t);
    RunNothing(s);
    assert Solo(t, Enter, 0) == [];
    MoveAlone(s, t, Enter, 0);
    MoveAlone(s, t, Enter, 1);
    MoveAlone(s, t, Enter, 2);
    MoveAlone(s, t, Enter, 3);
  }

  lemma NobodyIn(s: State, t: nat)
    requires Inv(s) && t < |s.pcs| && s.pcs[t].Idle?
    ensures s.owner == t <==> s.depth[t] > 0
    ensures s.count == -1 ==> s.depth[t] == 0
  {
    assert Owned(s, t);
    Member(s, t);
  }

  /** A leave of a thread inside returns in six actions, and the section it gives up
      is free again, or the event is set for a waiter. */
  lemma LeavesAlone(n: nat, past: seq<Action>, t: nat)
    requires t < n && CallOf(Init(n), past, t) == None && Run(Init(n), past).owner == t
    ensures var s := Run(Init(n), past);
      var s' := Run(s, Solo(t, Leave, if s.recursion > 0 then 4 else if s.count > 0 then 6 else 5));
      && OnlyMoved(s, s', t) && s'.pcs[t].Idle? && s'.depth[t] + 1 == s.depth[t]
      && (s.depth[t] > 1 ==> s'.owner == t && s'.event == s.event && s'.count == s.count)
      && (s.depth[t] == 1 ==> s'.owner == NOHANDLE && s'.count == s.count - 1 && s'.event == (Waiters(s) != {}))
  {
    hide Run, Inv, Holders, Setters;
    RunUnderway(n, past, t);
    var s := Run(Init(n), past);
    OwnerIn(s, t);
    RunNothing(s);
    assert Solo(t, Leave, 0) == [];
    MoveAlone(s, t, Leave, 0);
    MoveAlone(s, t, Leave, 1);
    MoveAlone(s, t, Leave, 2);
    MoveAlone(s, t, Leave, 3);
    if s.recursion == 0 {
      MoveAlone(s, t, Leave, 4);
      if s.count > 0 { MoveAlone(s, t, Leave, 5); }
    }
  }

  /** The thread inside is the only one, so that all others count as waiters. */
  lemma OwnerIn(s: State, t: nat)
    requires Inv(s) && t < |s.pcs| && s.owner == t
    ensures s.depth[t] > 0 && s.recursion == s.depth[t] - 1 && s.count >= 0 && !s.event
    ensures s.count > 0 <==> Waiters(s) != {}
  {
    assert Owned(s, t);
    Member(s, t);
  }

  // ----- every waiter can be let in ------------------------------------------------

  /** How many actions of thread t until it has set the event, when it keeps
      leaving. */
  function Rank(s: State, t: nat): nat
    requires t < |s.pcs| && |s.pcs| == |s.depth|
  {
    var d := s.depth[t];
    match s.pcs[t]
    case Idle => 10 * d + 5
    case EnterTest => 10 * (d + 1) + 8
    case IncLoad => 10 * (d + 1) + 7
    case IncStore(_) => 10 * (d + 1) + 6
    case EnterAdd => 0
    case Wait => 0
    case SetOwner => 10 * (d + 1) + 6
    case LeaveTest => 10 * d + 4
    case RecTest => 10 * d + 3
    case DecStore(_) => 10 * d + 2
    case ClearOwner => 10 * d + 2
    case LeaveAdd => 10 * d + 1
    case SetEvent => 1
  }

  predicate Active(s: State, t: nat) {
    t < |s.pcs| && |s.pcs| == |s.depth| && (Holding(s, t) || s.pcs[t].SetEvent?)
  }

  lemma ActiveStep(s: State, t: nat, w: nat)
    requires Inv(s) && Active(s, t) && w < |s.pcs| && s.pcs[w].Wait?
    ensures w != t && Enabled(s, t)
    ensures var s' := Next(s, t, Leave);
      Inv(s') && |s'.pcs| == |s.pcs| && s'.pcs[w].Wait? && (s'.event || (Active(s', t) && Rank(s', t) < Rank(s, t)))
  {
    assert Local(s, w) && Owned(s, w) && Local(s, t) && Owned(s, t);
    NextInv(s, t, Leave);
    Member(s, w);
    Member(s, t);
  }

  lemma {:induction false} RunMore(s: State, acts: seq<Action>, a: Action)
    requires Enabled(s, a.thread)
    ensures Run(Next(s, a.thread, a.call), acts) == Run(s, [a] + acts)
    decreases |acts|
  {
    hide Next;
    var all := [a] + acts;
    if acts == [] {
      assert all == [a] && all[..0] == [];
      assert Run(s, []) == s;
    } else {
      RunMore(s, acts[..|acts| - 1], a);
      assert all[..|all| - 1] == [a] + acts[..|acts| - 1];
    }
  }

  lemma {:induction false} LeaveUntilSet(s: State, t: nat, w: nat) returns (acts: seq<Action>)
    requires Inv(s) && Active(s, t) && w < |s.pcs| && s.pcs[w].Wait?
    ensures forall i :: 0 <= i < |acts| ==> acts[i] == Act(t, Leave)
    ensures var s' := Run(s, acts); Inv(s') && |s'.pcs| == |s.pcs| && s'.pcs[w].Wait? && s'.event
    decreases Rank(s, t)
  {
    hide Inv, Next, Active;
    ActiveStep(s, t, w);
    var s' := Next(s, t, Leave);
    var more := [];
    if !s'.event { more := LeaveUntilSet(s', t, w); }
    acts := [Act(t, Leave)] + more;
    RunMore(s, more, Act(t, Leave));
  }

  lemma SomeActive(s: State, w: nat) returns (t: nat)
    requires Inv(s) && w < |s.pcs| && s.pcs[w].Wait? && !s.event
    ensures Active(s, t)
  {
    Member(s, w);
    if Holders(s) != {} {
      t :| t in Holders(s);
    } else {
      assert |Holders(s)| == 0;
      t :| t in Setters(s);
    }
  }

  /** A schedule of threads t and w only, after which w is past its wait. */
  ghost predicate LetsIn(s: State, w: nat, t: nat, acts: seq<Action>) {
    && (forall i :: 0 <= i < |acts| ==> acts[i].thread == t || acts[i].thread == w)
    && w < |Run(s, acts).pcs| && Run(s, acts).pcs[w].SetOwner?
  }

  lemma WaitThenIn(s: State, w: nat, t: nat, leaving: seq<Action>)
    requires forall i :: 0 <= i < |leaving| ==> leaving[i].thread == t
    requires Shaped(Run(s, leaving)) && w < |Run(s, leaving).pcs| && Run(s, leaving).pcs[w].Wait? &&
             Run(s, leaving).event
    ensures LetsIn(s, w, t, leaving + [Act(w, Enter)])
  {
    var acts := leaving + [Act(w, Enter)];
    assert acts[..|acts| - 1] == leaving;
  }

  /** No wake-up is lost: from every reachable state, each blocked thread gets in
      once the one thread inside (or about to set the event) has left, however
      deeply it had entered, and without any other thread moving. */
  lemma WaiterGetsIn(n: nat, past: seq<Action>, w: nat)
    requires w < |Run(Init(n), past).pcs| && Run(Init(n), past).pcs[w].Wait?
    ensures exists t, acts :: LetsIn(Run(Init(n), past), w, t, acts)
  {
    hide Inv, Run, LetsIn, Init;
    InitInv(n);
    RunInv(Init(n), past);
    var s := Run(Init(n), past);
    var leaving, t := [], w;
    RunNothing(s);
    if !s.event {
      t := SomeActive(s, w);
      leaving := LeaveUntilSet(s, t, w);
    }
    InvShaped(Run(s, leaving));
    WaitThenIn(s, w, t, leaving);
  }

  lemma RunNothing(s: State)
    ensures Run(s, []) == s
  {}

  lemma InvShaped(s: State)
    requires Inv(s)
    ensures Shaped(s)
  {}
}
