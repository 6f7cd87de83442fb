/**
 The call gate of the native client: `Invoke` and `Dispose` over one re-entrant lock, as steps of
 unboundedly many threads.
 */
module CoreGate {
  import opened Wrappers

  type Thread = nat

  /**
   What an operation passed to `Invoke` does, in order: native calls on the core, nested calls of
   the client (whose exception the operation may catch), and calls of `Dispose`.
   */
  datatype Action = Native | Call(op: Operation, caught: bool) | DisposeCall
  datatype Operation = Done | Then(first: Action, rest: Operation)

  /** One call in progress. `caught` says whether its caller survives an exception. */
  datatype Frame =
    | Entering(op: Operation, caught: bool)    // waiting at the lock
    | Checking(op: Operation, caught: bool)    // inside, about to test `disposed`
    | Running(op: Operation, caught: bool)     // inside, the rest of the operation under way
    | DisposeEntering
    | DisposeHolding                           // inside, about to exchange `disposed`
    | Leaving(threw: bool, caught: bool)       // inside, about to release the lock
  {
    /** Not yet past the lock. */
    predicate Outside() {
      Entering? || DisposeEntering?
    }
  }

  /** A thread's calls, innermost on top. */
  datatype Calls = Idle | On(top: Frame, below: Calls)

  datatype Event = Admitted(thread: Thread) | NativeCall(thread: Thread) | Threw(thread: Thread) | Released(thread: Thread)

  /** `owner` and `depth` are the lock. */
  datatype Gate = Gate(
    owner: Option<Thread>, depth: nat, disposed: bool, releases: nat,
    threads: map<Thread, Calls>, log: seq<Event>)

  const Initial := Gate(None, 0, false, 0, map[], [])

  /** `Fail`: the running operation throws of its own accord. */
  datatype Move = Begin(op: Operation) | BeginDispose | Proceed | Fail

  function CallsOf(g: Gate, t: Thread): Calls {
    if t in g.threads then g.threads[t] else Idle
  }

  function With(g: Gate, t: Thread, calls: Calls): Gate {
    g.(threads := g.threads[t := calls])
  }

  function Acquire(g: Gate, t: Thread): Gate {
    g.(owner := Some(t), depth := g.depth + 1)
  }

  function Release(g: Gate): Gate
    requires g.depth > 0
  {
    g.(owner := if g.depth == 1 then None else g.owner, depth := g.depth - 1)
  }

  function Logged(g: Gate, e: Event): Gate {
    g.(log := g.log + [e])
  }

  /** The calls below a finished one: an uncaught exception ends the caller too. */
  function Resumed(below: Calls, thrown: bool): Calls {
    if thrown && below.On? && below.top.Running? then On(Leaving(true, below.top.caught), below.below) else below
  }

  /** One step of thread `t`; `None` when it is blocked at the lock or the move does not apply. */
  function Step(g: Gate, t: Thread, move: Move): Option<Gate> {
    var calls := CallsOf(g, t);
    match move
    case Begin(op) => if calls.Idle? then Some(With(g, t, On(Entering(op, false), Idle))) else None
    case BeginDispose => if calls.Idle? then Some(With(g, t, On(DisposeEntering, Idle))) else None
    case Proceed => if calls.Idle? then None else Advance(g, t, calls.top, calls.below)
    case Fail => if calls.Idle? || !calls.top.Running? then None else Some(With(g, t, Failed(calls)))
  }

  function Failed(calls: Calls): Calls
    requires calls.On? && calls.top.Running?
  {
    On(Leaving(true, calls.top.caught), calls.below)
  }

  function Advance(g: Gate, t: Thread, top: Frame, below: Calls): Option<Gate> {
    match top
    case Entering(op, caught) =>
      if g.owner.Some? && g.owner != Some(t) then None
      else Some(Acquire(With(g, t, On(Checking(op, caught), below)), t))
    case DisposeEntering =>
      if g.owner.Some? && g.owner != Some(t) then None
      else Some(Acquire(With(g, t, On(DisposeHolding, below)), t))
    case Checking(op, caught) =>
      if g.disposed then Some(Logged(With(g, t, On(Leaving(true, caught), below)), Threw(t)))
      else Some(Logged(With(g, t, On(Running(op, caught), below)), Admitted(t)))
    case Running(Done, caught) => Some(With(g, t, On(Leaving(false, caught), below)))
    case Running(Then(first, rest), caught) =>
      var self := On(Running(rest, caught), below);
      (match first
       case Native => Some(Logged(With(g, t, self), NativeCall(t)))
       case Call(op, c) => Some(With(g, t, On(Entering(op, c), self)))
       case DisposeCall => Some(With(g, t, On(DisposeEntering, self))))
    case DisposeHolding =>
      var left := With(g, t, On(Leaving(false, false), below));
      if g.disposed then Some(left)
      else Some(Logged(left.(disposed := true, releases := g.releases + 1), Released(t)))
    case Leaving(threw, caught) =>
      if g.depth == 0 then None else Some(Release(With(g, t, Resumed(below, threw && !caught))))
  }

  datatype Turn = Turn(thread: Thread, move: Move)

  /** Any interleaving at all: a sequence of turns that are each possible when taken. */
  ghost function Execute(g: Gate, turns: seq<Turn>): Option<Gate> {
    if turns == [] then Some(g)
    else
      var before := Execute(g, turns[..|turns| - 1]);
      var turn := turns[|turns| - 1];
      if before.None? then None else Step(before.value, turn.thread, turn.move)
  }

  // ----- what the log must look like

  predicate HasRelease(log: seq<Event>) {
    log != [] && (log[|log| - 1].Released? || HasRelease(log[..|log| - 1]))
  }

  /** Released at most once; calls are admitted and reach the core only before, and throw only after. */
  predicate Clean(log: seq<Event>) {
    log == [] ||
    (var before := log[..|log| - 1];
     Clean(before) && (log[|log| - 1].Threw? <==> HasRelease(before)))
  }

  lemma LogGrows(log: seq<Event>, e: Event)
    ensures HasRelease(log + [e]) <==> e.Released? || HasRelease(log)
    ensures Clean(log + [e]) <==> Clean(log) && (e.Threw? <==> HasRelease(log))
  {
    assert (log + [e])[..|log + [e]| - 1] == log;
  }

  // ----- what an operation does when nobody interferes

  /**
   Some run of `op` that starts with the flag at `disposed` ends with it at `after`, having thrown
   iff `threw`. An operation may throw before each of its actions and at its end.
   */
  ghost predicate Ends(op: Operation, disposed: bool, after: bool, threw: bool)
    decreases op, 0
  {
    match op
    case Done => after == disposed
    case Then(Native, rest) => Ends(rest, disposed, after, threw)
    case Then(DisposeCall, rest) => (after == disposed && threw) || Ends(rest, true, after, threw)
    case Then(Call(nested, caught), rest) =>
      || (after == disposed && threw)
      || (exists d, th :: Returns(nested, disposed, d, th) &&
                          if th && !caught then after == d && threw else Ends(rest, d, after, threw))
  }

  /** A client call refuses a disposed core, otherwise it runs its operation. */
  ghost predicate Returns(op: Operation, disposed: bool, after: bool, threw: bool)
    decreases op, 1
  {
    if disposed then after && threw else Ends(op, false, after, threw)
  }

  /** Some run of `op` makes a native call on a released core. */
  ghost predicate Bad(op: Operation, disposed: bool) {
    match op
    case Done => false
    case Then(Native, rest) => disposed || Bad(rest, disposed)
    case Then(DisposeCall, rest) => Bad(rest, true)
    case Then(Call(nested, caught), rest) =>
      || (!disposed && Bad(nested, false))
      || (exists d, th :: Returns(nested, disposed, d, th) && !(th && !caught) && Bad(rest, d))
  }

  /** Never touches the core after a `Dispose` of its own. */
  ghost predicate Quiet(op: Operation) {
    !Bad(op, false)
  }

  /** No continuation of a thread's calls touches a released core; `thrown`: the call above them threw. */
  ghost predicate Fine(calls: Calls, disposed: bool, thrown: bool) {
    match calls
    case Idle => true
    case On(Running(op, caught), below) =>
      if thrown then Fine(below, disposed, !caught)
      else !Bad(op, disposed) && forall d, th :: Ends(op, disposed, d, th) ==> Fine(below, d, th && !caught)
    case On(Leaving(threw, caught), below) => Fine(below, disposed, threw && !caught)
    case On(DisposeEntering, below) => Fine(below, true, false)
    case On(DisposeHolding, below) => Fine(below, true, false)
    case On(_, below) =>
      && (!disposed ==> !Bad(calls.top.op, false))
      && forall d, th :: Returns(calls.top.op, disposed, d, th) ==> Fine(below, d, th && !calls.top.caught)
  }

  // ----- invariant

  predicate Waiting(calls: Calls) {
    calls.Idle? || (calls.top.Outside() && calls.below.Idle?)
  }

  function Length(calls: Calls): nat {
    if calls.Idle? then 0 else 1 + Length(calls.below)
  }

  /** Calls inside the lock. */
  function Holds(calls: Calls): nat {
    if calls.Idle? then 0 else if calls.top.Outside() then Length(calls.below) else 1 + Length(calls.below)
  }

  predicate AllRunning(calls: Calls) {
    calls.Idle? || (calls.top.Running? && AllRunning(calls.below))
  }

  predicate OwnerShape(calls: Calls, depth: nat) {
    calls.On? && depth > 0 && depth == Holds(calls) && AllRunning(calls.below)
  }

  ghost predicate OthersWait(g: Gate, t: Thread) {
    forall u: Thread :: u != t ==> Waiting(CallsOf(g, u))
  }

  ghost predicate LockInv(g: Gate) {
    match g.owner
    case None => g.depth == 0 && forall u: Thread :: Waiting(CallsOf(g, u))
    case Some(t) => OwnerShape(CallsOf(g, t), g.depth) && OthersWait(g, t)
  }

  predicate FlagInv(g: Gate) {
    g.releases == (if g.disposed then 1 else 0) && (HasRelease(g.log) <==> g.disposed)
  }

  ghost predicate Inv(g: Gate) {
    LockInv(g) && FlagInv(g)
  }

  lemma BeginKeepsInv(g: Gate, t: Thread, frame: Frame)
    requires Inv(g) && CallsOf(g, t).Idle? && frame.Outside()
    ensures Inv(With(g, t, On(frame, Idle)))
  {
    var next := With(g, t, On(frame, Idle));
    forall u: Thread
      ensures u != t ==> CallsOf(next, u) == CallsOf(g, u)
      ensures CallsOf(next, t) == On(frame, Idle)
    {
    }
  }

  /** Inside the lock the acting thread is the owner. */
  lemma InsideIsOwner(g: Gate, t: Thread)
    requires LockInv(g) && CallsOf(g, t).On? && !CallsOf(g, t).top.Outside()
    ensures g.owner == Some(t)
  {
    assert !Waiting(CallsOf(g, t));
  }

  lemma OthersWaitFor(g: Gate, t: Thread)
    requires LockInv(g) && (g.owner.None? || g.owner == Some(t))
    ensures OthersWait(g, t)
  {
  }

  lemma OnlyActorChanges(g: Gate, t: Thread, top: Frame, below: Calls)
    requires Advance(g, t, top, below).Some?
    ensures forall u: Thread :: u != t ==> CallsOf(Advance(g, t, top, below).value, u) == CallsOf(g, u)
  {
  }

  /** Entering takes the lock once more. */
  lemma EnterKeepsShape(g: Gate, t: Thread, top: Frame, below: Calls)
    requires LockInv(g) && CallsOf(g, t) == On(top, below) && top.Outside() && Advance(g, t, top, below).Some?
    ensures var next := Advance(g, t, top, below).value;
            next.owner == Some(t) && OwnerShape(CallsOf(next, t), next.depth)
  {
    if g.owner.None? {
      assert Waiting(CallsOf(g, t));
    }
  }

  lemma RunningKeepsShape(g: Gate, t: Thread, top: Frame, below: Calls)
    requires g.owner == Some(t) && OwnerShape(On(top, below), g.depth) && top.Running?
    ensures Advance(g, t, top, below).Some?
    ensures var next := Advance(g, t, top, below).value;
            next.owner == Some(t) && OwnerShape(CallsOf(next, t), next.depth)
  {
    if top.op.Then? {
      var self := On(Running(top.op.rest, top.caught), below);
      assert Length(self) == g.depth && AllRunning(self);
    }
  }

  /** Between entering and leaving the lock does not move. */
  lemma InsideKeepsShape(g: Gate, t: Thread, top: Frame, below: Calls)
    requires g.owner == Some(t) && OwnerShape(On(top, below), g.depth) && !top.Outside() && !top.Leaving?
    ensures Advance(g, t, top, below).Some?
    ensures var next := Advance(g, t, top, below).value;
            next.owner == Some(t) && OwnerShape(CallsOf(next, t), next.depth)
  {
    if top.Running? {
      RunningKeepsShape(g, t, top, below);
    }
  }

  /** Leaving gives the lock back once; the last leave frees it. */
  lemma LeaveKeepsShape(g: Gate, t: Thread, top: Frame, below: Calls)
    requires g.owner == Some(t) && OwnerShape(On(top, below), g.depth) && top.Leaving?
    ensures Advance(g, t, top, below).Some?
    ensures var next := Advance(g, t, top, below).value;
            if below.Idle? then next.owner == None && next.depth == 0 && CallsOf(next, t) == Idle
            else next.owner == Some(t) && OwnerShape(CallsOf(next, t), next.depth)
  {
    assert below.On? ==> Length(below) > 0;
  }

  lemma AdvanceKeepsLock(g: Gate, t: Thread, top: Frame, below: Calls)
    requires LockInv(g) && CallsOf(g, t) == On(top, below) && Advance(g, t, top, below).Some?
    ensures LockInv(Advance(g, t, top, below).value)
  {
    OnlyActorChanges(g, t, top, below);
    if top.Outside() {
      EnterKeepsShape(g, t, top, below);
    } else {
      InsideIsOwner(g, t);
      if top.Leaving? {
        LeaveKeepsShape(g, t, top, below);
      } else {
        InsideKeepsShape(g, t, top, below);
      }
    }
    OthersWaitFor(g, t);
  }

  lemma AdvanceKeepsFlags(g: Gate, t: Thread, top: Frame, below: Calls)
    requires FlagInv(g) && Advance(g, t, top, below).Some?
    ensures FlagInv(Advance(g, t, top, below).value)
  {
    LogGrows(g.log, Threw(t));
    LogGrows(g.log, Admitted(t));
    LogGrows(g.log, NativeCall(t));
    LogGrows(g.log, Released(t));
  }

  lemma FailKeepsInv(g: Gate, t: Thread)
    requires Inv(g) && Step(g, t, Fail).Some?
    ensures Inv(Step(g, t, Fail).value) && g.owner == Some(t)
  {
    InsideIsOwner(g, t);
    var next := Step(g, t, Fail).value;
    forall u: Thread | u != t
      ensures Waiting(CallsOf(next, u))
    {
      assert CallsOf(next, u) == CallsOf(g, u);
    }
  }

  lemma StepKeepsInv(g: Gate, t: Thread, move: Move)
    requires Inv(g) && Step(g, t, move).Some?
    ensures Inv(Step(g, t, move).value)
  {
    match move {
      case Begin(op) => BeginKeepsInv(g, t, Entering(op, false));
      case BeginDispose => BeginKeepsInv(g, t, DisposeEntering);
      case Proceed =>
        AdvanceKeepsLock(g, t, CallsOf(g, t).top, CallsOf(g, t).below);
        AdvanceKeepsFlags(g, t, CallsOf(g, t).top, CallsOf(g, t).below);
      case Fail => FailKeepsInv(g, t);
    }
  }

  lemma {:induction false} RunKeepsInv(turns: seq<Turn>)
    requires Execute(Initial, turns).Some?
    ensures Inv(Execute(Initial, turns).value)
  {
    if turns != [] {
      var last := |turns| - 1;
      RunKeepsInv(turns[..last]);
      StepKeepsInv(Execute(Initial, turns[..last]).value, turns[last].thread, turns[last].move);
    }
  }

  // ----- safety of every interleaving

  /** Some call of the thread is past the lock. */
  predicate Inside(calls: Calls) {
    Holds(calls) > 0
  }

  /** At most one thread is inside the gate at any moment of any interleaving. */
  lemma OneThreadInside(turns: seq<Turn>, t: Thread, u: Thread)
    requires Execute(Initial, turns).Some?
    requires Inside(CallsOf(Execute(Initial, turns).value, t)) && Inside(CallsOf(Execute(Initial, turns).value, u))
    ensures t == u
  {
    RunKeepsInv(turns);
    var g := Execute(Initial, turns).value;
    assert !Waiting(CallsOf(g, t)) && !Waiting(CallsOf(g, u));
  }

  /** The core is released at most once, and only while no other thread is inside a call. */
  lemma ReleasedOnceAndAlone(turns: seq<Turn>, t: Thread, move: Move)
    requires Execute(Initial, turns).Some? && Step(Execute(Initial, turns).value, t, move).Some?
    ensures var before := Execute(Initial, turns).value;
            var after := Step(before, t, move).value;
            && after.releases <= 1
            && (after.releases > before.releases ==>
                  Inside(CallsOf(before, t)) && forall u: Thread :: u != t ==> !Inside(CallsOf(before, u)))
  {
    RunKeepsInv(turns);
    var before := Execute(Initial, turns).value;
    StepKeepsInv(before, t, move);
    if Step(before, t, move).value.releases > before.releases {
      assert CallsOf(before, t).top.DisposeHolding?;
      InsideIsOwner(before, t);
    }
  }

  // ----- when does every interleaving keep the log clean?

  ghost predicate Uses(turns: seq<Turn>, ops: iset<Operation>) {
    forall i :: 0 <= i < |turns| && turns[i].move.Begin? ==> turns[i].move.op in ops
  }

  ghost predicate AllQuiet(ops: iset<Operation>) {
    forall op :: op in ops ==> Quiet(op)
  }

  /** Waiting threads are about to run quiet operations; the owner's calls will end well. */
  ghost predicate FateInv(g: Gate) {
    && (forall u: Thread :: g.owner != Some(u) ==> Fine(CallsOf(g, u), false, false))
    && (g.owner.Some? ==> Fine(CallsOf(g, g.owner.value), g.disposed, false))
    && Clean(g.log)
  }

  /** A native call that the log will not forgive. */
  predicate Offends(g: Gate, top: Frame) {
    top.Running? && top.op.Then? && top.op.first.Native? && g.disposed
  }

  /** The next step on its own neither saves nor dooms; a running operation may also fail. */
  ghost predicate SameFate(g: Gate, t: Thread, top: Frame, below: Calls)
    requires Advance(g, t, top, below).Some?
  {
    var next := Advance(g, t, top, below).value;
    Fine(On(top, below), g.disposed, false) <==>
      && !Offends(g, top) && Fine(CallsOf(next, t), next.disposed, false)
      && (top.Running? ==> Fine(below, g.disposed, !top.caught))
  }

  /** Every operation can throw before doing anything. */
  lemma {:induction false} CanThrow(op: Operation, disposed: bool)
    ensures Ends(op, disposed, disposed, true)
  {
    match op
    case Done =>
    case Then(Native, rest) => CanThrow(rest, disposed);
    case Then(DisposeCall, rest) =>
    case Then(Call(nested, caught), rest) =>
  }

  lemma NestedCallFate(nested: Operation, c: bool, rest: Operation, caught: bool, below: Calls, disposed: bool)
    ensures Fine(On(Running(Then(Call(nested, c), rest), caught), below), disposed, false) <==>
            Fine(On(Entering(nested, c), On(Running(rest, caught), below)), disposed, false) && Fine(below, disposed, !caught)
  {
    var op := Then(Call(nested, c), rest);
    var self := On(Running(rest, caught), below);
    if Fine(On(Running(op, caught), below), disposed, false) {
      NestedCallUnfolds(nested, c, rest, caught, below, disposed);
    }
    if Fine(On(Entering(nested, c), self), disposed, false) && Fine(below, disposed, !caught) {
      NestedCallFolds(nested, c, rest, caught, below, disposed);
    }
  }

  lemma NestedCallUnfolds(nested: Operation, c: bool, rest: Operation, caught: bool, below: Calls, disposed: bool)
    requires Fine(On(Running(Then(Call(nested, c), rest), caught), below), disposed, false)
    ensures Fine(On(Entering(nested, c), On(Running(rest, caught), below)), disposed, false) && Fine(below, disposed, !caught)
  {
    var op := Then(Call(nested, c), rest);
    CanThrow(op, disposed);
    forall d, th | Returns(nested, disposed, d, th)
      ensures Fine(On(Running(rest, caught), below), d, th && !c)
    {
      if th && !c {
        assert Ends(op, disposed, d, true);
      } else {
        forall d', th' | Ends(rest, d, d', th')
          ensures Fine(below, d', th' && !caught)
        {
          assert Ends(op, disposed, d', th');
        }
      }
    }
  }

  lemma NestedCallFolds(nested: Operation, c: bool, rest: Operation, caught: bool, below: Calls, disposed: bool)
    requires Fine(On(Entering(nested, c), On(Running(rest, caught), below)), disposed, false) && Fine(below, disposed, !caught)
    ensures Fine(On(Running(Then(Call(nested, c), rest), caught), below), disposed, false)
  {
    var op := Then(Call(nested, c), rest);
    var self := On(Running(rest, caught), below);
    forall d, th | Ends(op, disposed, d, th)
      ensures Fine(below, d, th && !caught)
    {
      if !(d == disposed && th) {
        var d', th' :| Returns(nested, disposed, d', th') && if th' && !c then d == d' && th else Ends(rest, d', d, th);
        assert Fine(self, d', th' && !c);
      }
    }
  }

  lemma DisposeCallFate(rest: Operation, caught: bool, below: Calls, disposed: bool)
    ensures Fine(On(Running(Then(DisposeCall, rest), caught), below), disposed, false) <==>
            Fine(On(Running(rest, caught), below), true, false) && Fine(below, disposed, !caught)
  {
    var op := Then(DisposeCall, rest);
    CanThrow(op, disposed);
    if Fine(On(Running(op, caught), below), disposed, false) {
      forall d, th | Ends(rest, true, d, th)
        ensures Fine(below, d, th && !caught)
      {
        assert Ends(op, disposed, d, th);
      }
    }
    if Fine(On(Running(rest, caught), below), true, false) && Fine(below, disposed, !caught) {
      forall d, th | Ends(op, disposed, d, th)
        ensures Fine(below, d, th && !caught)
      {
        assert (d == disposed && th) || Ends(rest, true, d, th);
      }
    }
  }

  lemma NativeFate(rest: Operation, caught: bool, below: Calls, disposed: bool)
    ensures Fine(On(Running(Then(Native, rest), caught), below), disposed, false) <==>
            !disposed && Fine(On(Running(rest, caught), below), disposed, false)
    ensures Fine(On(Running(rest, caught), below), disposed, false) ==> Fine(below, disposed, !caught)
  {
    var op := Then(Native, rest);
    CanThrow(rest, disposed);
    forall d, th
      ensures Ends(op, disposed, d, th) <==> Ends(rest, disposed, d, th)
    {
    }
    if Fine(On(Running(op, caught), below), disposed, false) {
      forall d, th | Ends(rest, disposed, d, th)
        ensures Fine(below, d, th && !caught)
      {
        assert Ends(op, disposed, d, th);
      }
    }
    if !disposed && Fine(On(Running(rest, caught), below), disposed, false) {
      forall d, th | Ends(op, disposed, d, th)
        ensures Fine(below, d, th && !caught)
      {
        assert Ends(rest, disposed, d, th);
      }
    }
  }

  lemma CheckFate(op: Operation, caught: bool, below: Calls, disposed: bool)
    ensures Fine(On(Checking(op, caught), below), disposed, false) <==>
            if disposed then Fine(below, true, !caught) else Fine(On(Running(op, caught), below), false, false)
  {
    if Fine(On(Checking(op, caught), below), disposed, false) {
      if disposed {
        assert Returns(op, true, true, true);
      } else {
        forall d, th | Ends(op, false, d, th)
          ensures Fine(below, d, th && !caught)
        {
          assert Returns(op, false, d, th);
        }
      }
    }
    if disposed && Fine(below, true, !caught) {
      forall d, th | Returns(op, true, d, th)
        ensures Fine(below, d, th && !caught)
      {
        assert d && th;
      }
    }
    if !disposed && Fine(On(Running(op, caught), below), false, false) {
      forall d, th | Returns(op, false, d, th)
        ensures Fine(below, d, th && !caught)
      {
        assert Ends(op, false, d, th);
      }
    }
  }

  lemma RunningKeepsFate(g: Gate, t: Thread, top: Frame, below: Calls)
    requires top.Running?
    ensures Advance(g, t, top, below).Some? && SameFate(g, t, top, below)
  {
    var next := Advance(g, t, top, below).value;
    CanThrow(top.op, g.disposed);
    if top.op.Done? {
      assert CallsOf(next, t) == On(Leaving(false, top.caught), below);
      assert Ends(Done, g.disposed, g.disposed, false);
    } else {
      var self := On(Running(top.op.rest, top.caught), below);
      match top.op.first {
        case Native =>
          assert CallsOf(next, t) == self;
          NativeFate(top.op.rest, top.caught, below, g.disposed);
        case Call(op, c) =>
          assert CallsOf(next, t) == On(Entering(op, c), self);
          NestedCallFate(op, c, top.op.rest, top.caught, below, g.disposed);
        case DisposeCall =>
          assert CallsOf(next, t) == On(DisposeEntering, self);
          DisposeCallFate(top.op.rest, top.caught, below, g.disposed);
      }
    }
  }

  lemma LeavingKeepsFate(g: Gate, t: Thread, top: Frame, below: Calls)
    requires top.Leaving? && g.depth > 0 && AllRunning(below)
    ensures Advance(g, t, top, below).Some? && SameFate(g, t, top, below)
  {
    var next := Advance(g, t, top, below).value;
    assert CallsOf(next, t) == Resumed(below, top.threw && !top.caught);
  }

  lemma GateStepsKeepFate(g: Gate, t: Thread, top: Frame, below: Calls)
    requires !top.Running? && !top.Leaving? && Advance(g, t, top, below).Some?
    ensures SameFate(g, t, top, below)
  {
    if top.Checking? {
      CheckFate(top.op, top.caught, below, g.disposed);
    }
  }

  /** A step of the owner changes its fate exactly by offending. */
  lemma AdvanceKeepsFate(g: Gate, t: Thread, top: Frame, below: Calls)
    requires Inv(g) && g.owner == Some(t) && CallsOf(g, t) == On(top, below)
    ensures Advance(g, t, top, below).Some? && SameFate(g, t, top, below)
  {
    if top.Running? {
      RunningKeepsFate(g, t, top, below);
    } else if top.Leaving? {
      LeavingKeepsFate(g, t, top, below);
    } else {
      GateStepsKeepFate(g, t, top, below);
    }
  }

  /** ... and dirties the log exactly by offending. */
  lemma AdvanceKeepsClean(g: Gate, t: Thread, top: Frame, below: Calls)
    requires FlagInv(g) && Advance(g, t, top, below).Some?
    ensures Clean(Advance(g, t, top, below).value.log) <==> Clean(g.log) && !Offends(g, top)
  {
    LogGrows(g.log, Threw(t));
    LogGrows(g.log, Admitted(t));
    LogGrows(g.log, NativeCall(t));
    LogGrows(g.log, Released(t));
  }

  lemma BeginKeepsFate(g: Gate, t: Thread, frame: Frame)
    requires Inv(g) && FateInv(g) && CallsOf(g, t).Idle? && frame.Outside() && (frame.Entering? ==> Quiet(frame.op))
    ensures FateInv(With(g, t, On(frame, Idle)))
  {
    var next := With(g, t, On(frame, Idle));
    forall u: Thread | u != t
      ensures CallsOf(next, u) == CallsOf(g, u)
    {
    }
    assert g.owner != Some(t);
  }

  /** A thread that takes the free lock finds the flag as others left it. */
  lemma EnterKeepsFate(g: Gate, t: Thread, top: Frame)
    requires Fine(On(top, Idle), false, false) && top.Outside() && Advance(g, t, top, Idle).Some?
    ensures Fine(CallsOf(Advance(g, t, top, Idle).value, t), g.disposed, false)
  {
  }

  /** The acting thread's own calls still end well, whether it keeps, takes or frees the lock. */
  lemma ActorKeepsFate(g: Gate, t: Thread, top: Frame, below: Calls)
    requires Inv(g) && FateInv(g) && CallsOf(g, t) == On(top, below) && Advance(g, t, top, below).Some?
    ensures var next := Advance(g, t, top, below).value;
            && Fine(CallsOf(next, t), if next.owner.Some? then next.disposed else false, false)
            && !(g.owner == Some(t) && Offends(g, top))
  {
    var next := Advance(g, t, top, below).value;
    AdvanceKeepsLock(g, t, top, below);
    if g.owner == Some(t) {
      AdvanceKeepsFate(g, t, top, below);
    } else {
      assert Waiting(CallsOf(g, t));
      EnterKeepsFate(g, t, top);
    }
    if next.owner.None? {
      assert Waiting(CallsOf(next, t));
      assert CallsOf(next, t) == Resumed(below, top.threw && !top.caught);
    }
  }

  lemma OwnerAfter(g: Gate, t: Thread, top: Frame, below: Calls)
    requires LockInv(g) && CallsOf(g, t) == On(top, below) && Advance(g, t, top, below).Some?
    ensures var next := Advance(g, t, top, below).value;
            (next.owner.None? || next.owner == Some(t)) && (g.owner.None? || g.owner == Some(t))
    ensures g.owner != Some(t) ==> top.Outside()
  {
    if !top.Outside() {
      InsideIsOwner(g, t);
    }
  }

  lemma ProceedKeepsFate(g: Gate, t: Thread, top: Frame, below: Calls)
    requires Inv(g) && FateInv(g) && CallsOf(g, t) == On(top, below) && Advance(g, t, top, below).Some?
    ensures FateInv(Advance(g, t, top, below).value)
  {
    OnlyActorChanges(g, t, top, below);
    OwnerAfter(g, t, top, below);
    AdvanceKeepsClean(g, t, top, below);
    ActorKeepsFate(g, t, top, below);
  }

  lemma FailKeepsFate(g: Gate, t: Thread)
    requires Inv(g) && FateInv(g) && Step(g, t, Fail).Some?
    ensures FateInv(Step(g, t, Fail).value)
  {
    var next := Step(g, t, Fail).value;
    FailKeepsInv(g, t);
    AdvanceKeepsFate(g, t, CallsOf(g, t).top, CallsOf(g, t).below);
    assert CallsOf(next, t) == Failed(CallsOf(g, t));
    forall u: Thread | u != t
      ensures CallsOf(next, u) == CallsOf(g, u)
    {
    }
  }

  lemma {:induction false} QuietRunsStayClean(turns: seq<Turn>, ops: iset<Operation>)
    requires AllQuiet(ops) && Uses(turns, ops) && Execute(Initial, turns).Some?
    ensures FateInv(Execute(Initial, turns).value)
  {
    if turns != [] {
      var last := |turns| - 1;
      var shorter, turn := turns[..last], turns[last];
      QuietRunsStayClean(shorter, ops);
      RunKeepsInv(shorter);
      var g := Execute(Initial, shorter).value;
      match turn.move {
        case Begin(op) => BeginKeepsFate(g, turn.thread, Entering(op, false));
        case BeginDispose => BeginKeepsFate(g, turn.thread, DisposeEntering);
        case Proceed => ProceedKeepsFate(g, turn.thread, CallsOf(g, turn.thread).top, CallsOf(g, turn.thread).below);
        case Fail => FailKeepsFate(g, turn.thread);
      }
    }
  }

  // ----- the converse: an operation that is not quiet has a run that shows it

  function Work(op: Operation): nat {
    match op
    case Done => 0
    case Then(Native, rest) => 1 + Work(rest)
    case Then(DisposeCall, rest) => 4 + Work(rest)
    case Then(Call(nested, _), rest) => 5 + Work(nested) + Work(rest)
  }

  function Remaining(calls: Calls): nat {
    match calls
    case Idle => 0
    case On(Leaving(_, _), below) => 1 + Remaining(below)
    case On(DisposeHolding, below) => 2 + Remaining(below)
    case On(DisposeEntering, below) => 3 + Remaining(below)
    case On(Running(op, _), below) => 2 + Work(op) + Remaining(below)
    case On(Checking(op, _), below) => 3 + Work(op) + Remaining(below)
    case On(Entering(op, _), below) => 4 + Work(op) + Remaining(below)
  }

  lemma RunningMakesProgress(g: Gate, t: Thread, top: Frame, below: Calls)
    requires top.Running?
    ensures Remaining(CallsOf(Advance(g, t, top, below).value, t)) < Remaining(On(top, below))
  {
    if top.op.Then? {
      var self := On(Running(top.op.rest, top.caught), below);
      match top.op.first {
        case Native =>
        case Call(op, c) => assert Remaining(On(Entering(op, c), self)) == 4 + Work(op) + Remaining(self);
        case DisposeCall => assert Remaining(On(DisposeEntering, self)) == 3 + Remaining(self);
      }
    }
  }

  lemma ProceedMakesProgress(g: Gate, t: Thread, top: Frame, below: Calls)
    requires Advance(g, t, top, below).Some?
    ensures Remaining(CallsOf(Advance(g, t, top, below).value, t)) < Remaining(On(top, below))
  {
    if top.Running? {
      RunningMakesProgress(g, t, top, below);
    }
  }

  lemma {:induction false} ExecutePrepend(g: Gate, turn: Turn, rest: seq<Turn>)
    requires Step(g, turn.thread, turn.move).Some?
    ensures Execute(g, [turn] + rest) == Execute(Step(g, turn.thread, turn.move).value, rest)
  {
    var turns := [turn] + rest;
    if rest == [] {
      assert turns[..|turns| - 1] == [];
    } else {
      ExecutePrepend(g, turn, rest[..|rest| - 1]);
      assert turns[..|turns| - 1] == [turn] + rest[..|rest| - 1];
    }
  }

  ghost predicate NothingBegins(turns: seq<Turn>) {
    forall i :: 0 <= i < |turns| ==> turns[i].move.Proceed? || turns[i].move.Fail?
  }

  lemma DoomedKeepsLock(g: Gate, t: Thread, top: Frame, below: Calls)
    requires Inv(g) && g.owner == Some(t) && CallsOf(g, t) == On(top, below) && !Fine(On(top, below), g.disposed, false)
    ensures Advance(g, t, top, below).Some? && Advance(g, t, top, below).value.owner == Some(t)
  {
    if top.Leaving? {
      LeaveKeepsShape(g, t, top, below);
    } else if !top.Outside() {
      InsideKeepsShape(g, t, top, below);
    }
  }

  lemma {:induction false} DoomedOwnerOffends(g: Gate, t: Thread) returns (turns: seq<Turn>)
    requires Inv(g) && g.owner == Some(t) && !Fine(CallsOf(g, t), g.disposed, false)
    ensures NothingBegins(turns) && Execute(g, turns).Some? && !Clean(Execute(g, turns).value.log)
    decreases Remaining(CallsOf(g, t))
  {
    var top, below := CallsOf(g, t).top, CallsOf(g, t).below;
    AdvanceKeepsFate(g, t, top, below);
    AdvanceKeepsClean(g, t, top, below);
    ProceedMakesProgress(g, t, top, below);
    var onward := Step(g, t, Proceed).value;
    var rest: seq<Turn> := [];
    var turn := Turn(t, Proceed);
    if !Offends(g, top) {
      if Fine(CallsOf(onward, t), onward.disposed, false) {
        turn := Turn(t, Fail);
      }
      var next := Step(g, t, turn.move).value;
      StepKeepsInv(g, t, turn.move);
      assert !Fine(CallsOf(next, t), next.disposed, false);
      DoomedKeepsLock(g, t, top, below);
      rest := DoomedOwnerOffends(next, t);
    }
    turns := [turn] + rest;
    ExecutePrepend(g, turn, rest);
  }

  lemma LoudOperationOffends(op: Operation) returns (turns: seq<Turn>)
    requires !Quiet(op)
    ensures Uses(turns, iset{op}) && Execute(Initial, turns).Some? && !Clean(Execute(Initial, turns).value.log)
  {
    var begun := Step(Initial, 0, Begin(op)).value;
    var entered := Step(begun, 0, Proceed).value;
    StepKeepsInv(Initial, 0, Begin(op));
    StepKeepsInv(begun, 0, Proceed);
    assert CallsOf(entered, 0) == On(Checking(op, false), Idle);
    var rest := DoomedOwnerOffends(entered, 0);
    var later := [Turn(0, Proceed)] + rest;
    ExecutePrepend(begun, Turn(0, Proceed), rest);
    ExecutePrepend(Initial, Turn(0, Begin(op)), later);
    turns := [Turn(0, Begin(op))] + later;
  }

  ghost predicate AlwaysClean(ops: iset<Operation>) {
    forall turns :: Uses(turns, ops) && Execute(Initial, turns).Some? ==> Clean(Execute(Initial, turns).value.log)
  }

  /**
   Over every interleaving of any number of threads, no native call follows the release, no call is
   admitted after it and the release happens once, exactly when no operation on its own calls the
   core after its own `Dispose`.
   */
  lemma GateIsSafeIffOperationsAreQuiet(ops: iset<Operation>)
    ensures AlwaysClean(ops) <==> AllQuiet(ops)
  {
    if AllQuiet(ops) {
      forall turns | Uses(turns, ops) && Execute(Initial, turns).Some?
        ensures Clean(Execute(Initial, turns).value.log)
      {
        QuietRunsStayClean(turns, ops);
      }
    } else {
      var op :| op in ops && !Quiet(op);
      var turns := LoudOperationOffends(op);
      assert Uses(turns, ops);
    }
  }

  /** An operation that disposes the client and then uses the core breaks the promise. */
  lemma DisposeThenNativeIsUnsafe()
    ensures !AlwaysClean(iset{Then(DisposeCall, Then(Native, Done))})
  {
    var op := Then(DisposeCall, Then(Native, Done));
    assert Bad(op, false);
    GateIsSafeIffOperationsAreQuiet(iset{op});
  }

  // ----- what a finished Dispose has done, over every interleaving

  lemma StepTouchesOneThread(g: Gate, t: Thread, move: Move, u: Thread)
    requires Step(g, t, move).Some? && u != t
    ensures CallsOf(Step(g, t, move).value, u) == CallsOf(g, u)
  {
    if move.Proceed? {
      OnlyActorChanges(g, t, CallsOf(g, t).top, CallsOf(g, t).below);
    }
  }

  /** The flag never falls, and the log only grows. */
  lemma StepIsMonotone(g: Gate, t: Thread, move: Move)
    requires Step(g, t, move).Some?
    ensures g.disposed ==> Step(g, t, move).value.disposed
    ensures g.log <= Step(g, t, move).value.log
  {
  }

  lemma {:induction false} RunIsMonotone(g: Gate, turns: seq<Turn>, k: nat)
    requires Execute(g, turns).Some? && k <= |turns|
    ensures Execute(g, turns[..k]).Some?
    ensures Execute(g, turns[..k]).value.disposed ==> Execute(g, turns).value.disposed
    ensures Execute(g, turns[..k]).value.log <= Execute(g, turns).value.log
    decreases |turns|
  {
    if k == |turns| {
      assert turns[..k] == turns;
    } else {
      var shorter, turn := turns[..|turns| - 1], turns[|turns| - 1];
      assert shorter[..k] == turns[..k];
      RunIsMonotone(g, shorter, k);
      StepIsMonotone(Execute(g, shorter).value, turn.thread, turn.move);
    }
  }

  /** The thread is inside `Dispose`, not yet past the exchange of the flag. */
  predicate Disposing(calls: Calls, below: Calls) {
    calls == On(DisposeEntering, below) || calls == On(DisposeHolding, below)
  }

  lemma DisposingStep(g: Gate, u: Thread, move: Move, t: Thread, below: Calls)
    requires Step(g, u, move).Some? && (g.disposed || Disposing(CallsOf(g, t), below))
    ensures var next := Step(g, u, move).value; next.disposed || Disposing(CallsOf(next, t), below)
  {
    StepIsMonotone(g, u, move);
    if u != t {
      StepTouchesOneThread(g, u, move, t);
    }
  }

  lemma {:induction false} DisposingUntilReleased(turns: seq<Turn>, k: nat, t: Thread, below: Calls)
    requires Execute(Initial, turns).Some? && k <= |turns| && Execute(Initial, turns[..k]).Some?
    requires Disposing(CallsOf(Execute(Initial, turns[..k]).value, t), below)
    ensures var g := Execute(Initial, turns).value; g.disposed || Disposing(CallsOf(g, t), below)
    decreases |turns|
  {
    if k == |turns| {
      assert turns[..k] == turns;
    } else {
      var shorter, turn := turns[..|turns| - 1], turns[|turns| - 1];
      assert shorter[..k] == turns[..k];
      DisposingUntilReleased(shorter, k, t, below);
      DisposingStep(Execute(Initial, shorter).value, turn.thread, turn.move, t, below);
    }
  }

  /**
   Once a `Dispose`, on its own or from within an operation, has left the thread's calls, the core
   has been released, by this `Dispose` or by another.
   */
  lemma FinishedDisposeHasReleased(turns: seq<Turn>, k: nat, t: Thread, below: Calls)
    requires Execute(Initial, turns).Some? && k <= |turns| && Execute(Initial, turns[..k]).Some?
    requires Disposing(CallsOf(Execute(Initial, turns[..k]).value, t), below)
    requires Length(CallsOf(Execute(Initial, turns).value, t)) <= Length(below)
    ensures Execute(Initial, turns).value.releases == 1 && HasRelease(Execute(Initial, turns).value.log)
  {
    DisposingUntilReleased(turns, k, t, below);
    RunKeepsInv(turns);
  }

  lemma BeginTurn(turns: seq<Turn>, i: nat)
    requires i < |turns| && Execute(Initial, turns[..i + 1]).Some?
    ensures Execute(Initial, turns[..i]).Some?
    ensures Execute(Initial, turns[..i + 1]) == Step(Execute(Initial, turns[..i]).value, turns[i].thread, turns[i].move)
  {
    assert turns[..i + 1][..i] == turns[..i];
  }

  /** A thread that called `Dispose` and is idle again has seen the core released. */
  lemma DisposeReleases(turns: seq<Turn>, i: nat, t: Thread)
    requires Execute(Initial, turns).Some? && i < |turns| && turns[i] == Turn(t, BeginDispose)
    requires CallsOf(Execute(Initial, turns).value, t).Idle?
    ensures Execute(Initial, turns).value.releases == 1 && HasRelease(Execute(Initial, turns).value.log)
  {
    RunIsMonotone(Initial, turns, i + 1);
    BeginTurn(turns, i);
    FinishedDisposeHasReleased(turns, i + 1, t, Idle);
  }

  // ----- every later call throws

  /** The thread waits at the lock or at the check for an `Invoke`. */
  predicate Knocking(calls: Calls, below: Calls) {
    calls.On? && (calls.top.Entering? || calls.top.Checking?) && calls.below == below
  }

  ghost predicate ThrewSince(log: seq<Event>, from: nat, t: Thread) {
    exists j :: from <= j < |log| && log[j] == Threw(t)
  }

  lemma KnockingStep(g: Gate, u: Thread, move: Move, t: Thread, below: Calls, from: nat)
    requires Step(g, u, move).Some? && g.disposed && from <= |g.log|
    requires Knocking(CallsOf(g, t), below) || ThrewSince(g.log, from, t)
    ensures var next := Step(g, u, move).value;
            next.disposed && from <= |next.log| && (Knocking(CallsOf(next, t), below) || ThrewSince(next.log, from, t))
  {
    var next := Step(g, u, move).value;
    StepIsMonotone(g, u, move);
    if ThrewSince(g.log, from, t) {
      var j :| from <= j < |g.log| && g.log[j] == Threw(t);
      assert next.log[j] == Threw(t);
    } else if u != t {
      StepTouchesOneThread(g, u, move, t);
    } else if CallsOf(g, t).top.Checking? && move.Proceed? {
      assert next.log[|g.log|] == Threw(t);
    }
  }

  lemma {:induction false} KnockingUntilThrown(turns: seq<Turn>, k: nat, t: Thread, below: Calls)
    requires Execute(Initial, turns).Some? && k <= |turns| && Execute(Initial, turns[..k]).Some?
    requires var g := Execute(Initial, turns[..k]).value; g.disposed && Knocking(CallsOf(g, t), below)
    ensures var from, g := |Execute(Initial, turns[..k]).value.log|, Execute(Initial, turns).value;
            g.disposed && from <= |g.log| && (Knocking(CallsOf(g, t), below) || ThrewSince(g.log, from, t))
    decreases |turns|
  {
    if k == |turns| {
      assert turns[..k] == turns;
    } else {
      var shorter, turn := turns[..|turns| - 1], turns[|turns| - 1];
      assert shorter[..k] == turns[..k];
      KnockingUntilThrown(shorter, k, t, below);
      KnockingStep(Execute(Initial, shorter).value, turn.thread, turn.move, t, below, |Execute(Initial, turns[..k]).value.log|);
    }
  }

  /** A call, nested or not, that is still before its check when the core is released ends by throwing. */
  lemma CallCheckedAfterReleaseThrows(turns: seq<Turn>, k: nat, t: Thread, below: Calls)
    requires Execute(Initial, turns).Some? && k <= |turns| && Execute(Initial, turns[..k]).Some?
    requires var g := Execute(Initial, turns[..k]).value; HasRelease(g.log) && Knocking(CallsOf(g, t), below)
    requires Length(CallsOf(Execute(Initial, turns).value, t)) <= Length(below)
    ensures ThrewSince(Execute(Initial, turns).value.log, |Execute(Initial, turns[..k]).value.log|, t)
  {
    RunKeepsInv(turns[..k]);
    KnockingUntilThrown(turns, k, t, below);
  }

  lemma ReleasePersists(turns: seq<Turn>, m: nat)
    requires Execute(Initial, turns).Some? && m <= |turns| && Execute(Initial, turns[..m]).Some?
    requires HasRelease(Execute(Initial, turns[..m]).value.log)
    ensures HasRelease(Execute(Initial, turns).value.log)
  {
    RunIsMonotone(Initial, turns, m);
    RunKeepsInv(turns);
    RunKeepsInv(turns[..m]);
  }

  lemma CallBegunAfterReleaseThrows(turns: seq<Turn>, j: nat, u: Thread)
    requires Execute(Initial, turns).Some? && j < |turns| && turns[j].thread == u && turns[j].move.Begin?
    requires Execute(Initial, turns[..j]).Some? && HasRelease(Execute(Initial, turns[..j]).value.log)
    requires CallsOf(Execute(Initial, turns).value, u).Idle?
    ensures ThrewSince(Execute(Initial, turns).value.log, |Execute(Initial, turns[..j]).value.log|, u)
  {
    RunIsMonotone(Initial, turns, j + 1);
    BeginTurn(turns, j);
    assert Knocking(CallsOf(Execute(Initial, turns[..j + 1]).value, u), Idle);
    CallCheckedAfterReleaseThrows(turns, j + 1, u, Idle);
  }

  /**
   After any `Dispose` has returned, whichever thread made it, every call that any thread begins
   and finishes has thrown.
   */
  lemma CallsAfterDisposeThrow(turns: seq<Turn>, i: nat, m: nat, j: nat, t: Thread, u: Thread)
    requires Execute(Initial, turns).Some? && i < m <= j < |turns|
    requires turns[i] == Turn(t, BeginDispose)
    requires Execute(Initial, turns[..m]).Some? && CallsOf(Execute(Initial, turns[..m]).value, t).Idle?
    requires turns[j].thread == u && turns[j].move.Begin? && CallsOf(Execute(Initial, turns).value, u).Idle?
    ensures Execute(Initial, turns[..j]).Some?
    ensures ThrewSince(Execute(Initial, turns).value.log, |Execute(Initial, turns[..j]).value.log|, u)
  {
    DisposeReleases(turns[..m], i, t);
    RunIsMonotone(Initial, turns, j);
    assert turns[..j][..m] == turns[..m];
    ReleasePersists(turns[..j], m);
    CallBegunAfterReleaseThrows(turns, j, u);
  }

  /**
   Whatever the operations do: one release, calls admitted only before it, refused only after it.
   Only native calls need quiet operations.
   */
  predicate Ordered(log: seq<Event>) {
    log == [] ||
    (var before, e := log[..|log| - 1], log[|log| - 1];
     && Ordered(before)
     && (e.Admitted? || e.Released? ==> !HasRelease(before))
     && (e.Threw? ==> HasRelease(before)))
  }

  lemma OrderedGrows(log: seq<Event>, e: Event)
    ensures Ordered(log + [e]) <==>
            Ordered(log) && (e.Admitted? || e.Released? ==> !HasRelease(log)) && (e.Threw? ==> HasRelease(log))
  {
    assert (log + [e])[..|log + [e]| - 1] == log;
  }

  lemma StepKeepsOrder(g: Gate, t: Thread, move: Move)
    requires FlagInv(g) && Ordered(g.log) && Step(g, t, move).Some?
    ensures Ordered(Step(g, t, move).value.log)
  {
    OrderedGrows(g.log, Threw(t));
    OrderedGrows(g.log, Admitted(t));
    OrderedGrows(g.log, NativeCall(t));
    OrderedGrows(g.log, Released(t));
  }

  lemma {:induction false} EveryLogIsOrdered(turns: seq<Turn>)
    requires Execute(Initial, turns).Some?
    ensures Ordered(Execute(Initial, turns).value.log)
  {
    if turns != [] {
      var shorter, turn := turns[..|turns| - 1], turns[|turns| - 1];
      EveryLogIsOrdered(shorter);
      RunKeepsInv(shorter);
      StepKeepsOrder(Execute(Initial, shorter).value, turn.thread, turn.move);
    }
  }

  // ----- a call, step by step, does what its operation says

  /** What an undisturbed call comes to: the events it logs, the flag it leaves, and whether it throws. */
  datatype Outcome = Outcome(log: seq<Event>, disposed: bool, threw: bool)

  /** The operation's actions in order; an uncaught exception of a nested call ends it. */
  function Performed(op: Operation, t: Thread, disposed: bool): Outcome
    decreases op, 0
  {
    match op
    case Done => Outcome([], disposed, false)
    case Then(Native, rest) => After([NativeCall(t)], Performed(rest, t, disposed))
    case Then(DisposeCall, rest) => After(Releasing(t, disposed), Performed(rest, t, true))
    case Then(Call(nested, caught), rest) =>
      var inner := Called(nested, t, disposed);
      if inner.threw && !caught then inner else After(inner.log, Performed(rest, t, inner.disposed))
  }

  /** A call throws on a released core, and otherwise performs its operation. */
  function Called(op: Operation, t: Thread, disposed: bool): Outcome
    decreases op, 1
  {
    if disposed then Outcome([Threw(t)], true, true) else After([Admitted(t)], Performed(op, t, false))
  }

  function Releasing(t: Thread, disposed: bool): seq<Event> {
    if disposed then [] else [Released(t)]
  }

  function After(log: seq<Event>, rest: Outcome): Outcome {
    rest.(log := log + rest.log)
  }

  /** `h` is `g` later on: thread `t` alone has moved, and holds the lock as often as before. */
  ghost predicate MovedOn(g: Gate, h: Gate, t: Thread, calls: Calls, log: seq<Event>, disposed: bool) {
    && h.owner == g.owner && h.depth == g.depth
    && CallsOf(h, t) == calls && (forall u: Thread :: u != t ==> CallsOf(h, u) == CallsOf(g, u))
    && h.log == g.log + log && h.disposed == disposed
  }

  ghost predicate OnlyProceeds(turns: seq<Turn>, t: Thread) {
    forall i :: 0 <= i < |turns| ==> turns[i] == Turn(t, Proceed)
  }

  lemma {:induction false} ExecuteParts(g: Gate, a: seq<Turn>, b: seq<Turn>)
    requires Execute(g, a).Some?
    ensures Execute(g, a + b) == Execute(Execute(g, a).value, b)
  {
    if b == [] {
      assert a + b == a;
    } else {
      ExecuteParts(g, a, b[..|b| - 1]);
      assert (a + b)[..|a + b| - 1] == a + b[..|b| - 1];
    }
  }

  lemma OneTurn(g: Gate, t: Thread, move: Move)
    ensures Execute(g, [Turn(t, move)]) == Step(g, t, move)
  {
    var turns := [Turn(t, move)];
    assert turns[..|turns| - 1] == [];
  }

  /** Runs of one thread compose. */
  ghost predicate Reaches(g: Gate, turns: seq<Turn>, h: Gate, t: Thread) {
    OnlyProceeds(turns, t) && Execute(g, turns) == Some(h)
  }

  lemma ReachesOn(g: Gate, a: seq<Turn>, h: Gate, b: seq<Turn>, k: Gate, t: Thread)
    requires Reaches(g, a, h, t) && Reaches(h, b, k, t)
    ensures Reaches(g, a + b, k, t)
  {
    ExecuteParts(g, a, b);
  }

  lemma StepReaches(g: Gate, t: Thread)
    requires Step(g, t, Proceed).Some?
    ensures Reaches(g, [Turn(t, Proceed)], Step(g, t, Proceed).value, t)
  {
    OneTurn(g, t, Proceed);
  }

  lemma MovesCompose(g: Gate, h: Gate, k: Gate, t: Thread, calls: Calls, log: seq<Event>, disposed: bool,
                     calls': Calls, log': seq<Event>, disposed': bool)
    requires MovedOn(g, h, t, calls, log, disposed) && MovedOn(h, k, t, calls', log', disposed')
    ensures MovedOn(g, k, t, calls', log + log', disposed')
  {
    assert g.log + log + log' == g.log + (log + log');
  }

  /** One inner step: neither the lock nor another thread moves. */
  lemma InnerStep(g: Gate, t: Thread, calls: Calls, log: seq<Event>, disposed: bool)
    requires g.owner == Some(t) && Step(g, t, Proceed).Some?
    requires var next := Step(g, t, Proceed).value;
             next.owner == g.owner && next.depth == g.depth && CallsOf(next, t) == calls
             && next.log == g.log + log && next.disposed == disposed
    ensures Reaches(g, [Turn(t, Proceed)], Step(g, t, Proceed).value, t)
    ensures MovedOn(g, Step(g, t, Proceed).value, t, calls, log, disposed)
  {
    StepReaches(g, t);
    forall u: Thread | u != t
      ensures CallsOf(Step(g, t, Proceed).value, u) == CallsOf(g, u)
    {
      StepTouchesOneThread(g, t, Proceed, u);
    }
  }

  /** The lock is free or already held by `t`. */
  predicate Available(g: Gate, t: Thread) {
    (g.owner == Some(t) && g.depth > 0) || (g.owner.None? && g.depth == 0)
  }

  lemma EnterStep(g: Gate, t: Thread, top: Frame, below: Calls, inside: Frame)
    requires Available(g, t) && CallsOf(g, t) == On(top, below)
    requires (top.Entering? && inside == Checking(top.op, top.caught)) || (top.DisposeEntering? && inside.DisposeHolding?)
    ensures Step(g, t, Proceed).Some?
    ensures var next := Step(g, t, Proceed).value;
            && next.owner == Some(t) && next.depth == g.depth + 1 && CallsOf(next, t) == On(inside, below)
            && next.log == g.log && next.disposed == g.disposed
            && forall u: Thread :: u != t ==> CallsOf(next, u) == CallsOf(g, u)
  {
    OnlyActorChanges(g, t, top, below);
  }

  lemma LeaveStep(g: Gate, t: Thread, threw: bool, caught: bool, below: Calls)
    requires g.owner == Some(t) && g.depth > 0 && CallsOf(g, t) == On(Leaving(threw, caught), below)
    ensures Step(g, t, Proceed).Some?
    ensures var next := Step(g, t, Proceed).value;
            && next.owner == (if g.depth == 1 then None else Some(t)) && next.depth == g.depth - 1
            && CallsOf(next, t) == Resumed(below, threw && !caught) && next.log == g.log && next.disposed == g.disposed
            && forall u: Thread :: u != t ==> CallsOf(next, u) == CallsOf(g, u)
  {
    OnlyActorChanges(g, t, Leaving(threw, caught), below);
  }

  /** Entering, whatever happens inside, and leaving: the lock is as it was. */
  lemma Bracketed(g: Gate, t: Thread, top: Frame, below: Calls, inside: Frame, a: seq<Turn>, left: Gate,
                  threw: bool, caught: bool, log: seq<Event>, disposed: bool) returns (turns: seq<Turn>, h: Gate)
    requires Available(g, t) && CallsOf(g, t) == On(top, below)
    requires (top.Entering? && inside == Checking(top.op, top.caught)) || (top.DisposeEntering? && inside.DisposeHolding?)
    requires Step(g, t, Proceed).Some? && Reaches(Step(g, t, Proceed).value, a, left, t)
    requires MovedOn(Step(g, t, Proceed).value, left, t, On(Leaving(threw, caught), below), log, disposed)
    ensures Reaches(g, turns, h, t) && MovedOn(g, h, t, Resumed(below, threw && !caught), log, disposed)
  {
    EnterStep(g, t, top, below, inside);
    var entered := Step(g, t, Proceed).value;
    LeaveStep(left, t, threw, caught, below);
    h := Step(left, t, Proceed).value;
    StepReaches(g, t);
    StepReaches(left, t);
    ReachesOn(g, [Turn(t, Proceed)], entered, a, left, t);
    ReachesOn(g, [Turn(t, Proceed)] + a, left, [Turn(t, Proceed)], h, t);
    turns := [Turn(t, Proceed)] + a + [Turn(t, Proceed)];
  }

  lemma DisposeRuns(g: Gate, t: Thread, below: Calls) returns (turns: seq<Turn>, h: Gate)
    requires Available(g, t) && CallsOf(g, t) == On(DisposeEntering, below)
    ensures Reaches(g, turns, h, t) && MovedOn(g, h, t, below, Releasing(t, g.disposed), true)
  {
    EnterStep(g, t, DisposeEntering, below, DisposeHolding);
    var entered := Step(g, t, Proceed).value;
    InnerStep(entered, t, On(Leaving(false, false), below), Releasing(t, g.disposed), true);
    turns, h := Bracketed(g, t, DisposeEntering, below, DisposeHolding, [Turn(t, Proceed)],
                          Step(entered, t, Proceed).value, false, false, Releasing(t, g.disposed), true);
  }

  lemma {:induction false} CallRuns(g: Gate, t: Thread, op: Operation, caught: bool, below: Calls) returns (turns: seq<Turn>, h: Gate)
    requires Available(g, t) && CallsOf(g, t) == On(Entering(op, caught), below)
    ensures Reaches(g, turns, h, t)
    ensures var o := Called(op, t, g.disposed); MovedOn(g, h, t, Resumed(below, o.threw && !caught), o.log, o.disposed)
    decreases op, 2
  {
    EnterStep(g, t, Entering(op, caught), below, Checking(op, caught));
    var entered := Step(g, t, Proceed).value;
    var o := Called(op, t, g.disposed);
    var inside, left;
    if g.disposed {
      InnerStep(entered, t, On(Leaving(true, caught), below), [Threw(t)], true);
      inside, left := [Turn(t, Proceed)], Step(entered, t, Proceed).value;
    } else {
      InnerStep(entered, t, On(Running(op, caught), below), [Admitted(t)], false);
      var running := Step(entered, t, Proceed).value;
      var more;
      more, left := BodyRuns(running, t, op, caught, below);
      var inner := Performed(op, t, false);
      MovesCompose(entered, running, left, t, On(Running(op, caught), below), [Admitted(t)], false,
                   On(Leaving(inner.threw, caught), below), inner.log, inner.disposed);
      ReachesOn(entered, [Turn(t, Proceed)], running, more, left, t);
      inside := [Turn(t, Proceed)] + more;
    }
    turns, h := Bracketed(g, t, Entering(op, caught), below, Checking(op, caught), inside, left, o.threw, caught, o.log, o.disposed);
  }

  /** One action done, the rest of the operation to go. */
  lemma BodyGoesOn(g: Gate, a: seq<Turn>, mid: Gate, t: Thread, rest: Operation, caught: bool, below: Calls,
                   log: seq<Event>, disposed: bool) returns (turns: seq<Turn>, h: Gate)
    requires g.owner == Some(t) && g.depth > 0 && Reaches(g, a, mid, t)
    requires MovedOn(g, mid, t, On(Running(rest, caught), below), log, disposed)
    ensures Reaches(g, turns, h, t)
    ensures var o := After(log, Performed(rest, t, disposed));
            MovedOn(g, h, t, On(Leaving(o.threw, caught), below), o.log, o.disposed)
    decreases rest, 2
  {
    var more;
    more, h := BodyRuns(mid, t, rest, caught, below);
    var o := Performed(rest, t, disposed);
    MovesCompose(g, mid, h, t, On(Running(rest, caught), below), log, disposed, On(Leaving(o.threw, caught), below), o.log, o.disposed);
    ReachesOn(g, a, mid, more, h, t);
    turns := a + more;
  }

  lemma {:induction false} NestedCallRuns(g: Gate, t: Thread, nested: Operation, c: bool, rest: Operation, caught: bool, below: Calls)
    returns (turns: seq<Turn>, h: Gate)
    requires g.owner == Some(t) && g.depth > 0
    requires CallsOf(g, t) == On(Running(Then(Call(nested, c), rest), caught), below)
    ensures Reaches(g, turns, h, t)
    ensures var o := Performed(Then(Call(nested, c), rest), t, g.disposed);
            MovedOn(g, h, t, On(Leaving(o.threw, caught), below), o.log, o.disposed)
    decreases Then(Call(nested, c), rest), 0
  {
    var self := On(Running(rest, caught), below);
    InnerStep(g, t, On(Entering(nested, c), self), [], g.disposed);
    var calling := Step(g, t, Proceed).value;
    var more, back := CallRuns(calling, t, nested, c, self);
    var inner := Called(nested, t, g.disposed);
    MovesCompose(g, calling, back, t, On(Entering(nested, c), self), [], g.disposed,
                 Resumed(self, inner.threw && !c), inner.log, inner.disposed);
    assert [] + inner.log == inner.log;
    ReachesOn(g, [Turn(t, Proceed)], calling, more, back, t);
    turns, h := [Turn(t, Proceed)] + more, back;
    if !(inner.threw && !c) {
      turns, h := BodyGoesOn(g, turns, back, t, rest, caught, below, inner.log, inner.disposed);
    }
  }

  lemma {:induction false} NestedDisposeRuns(g: Gate, t: Thread, rest: Operation, caught: bool, below: Calls)
    returns (turns: seq<Turn>, h: Gate)
    requires g.owner == Some(t) && g.depth > 0 && CallsOf(g, t) == On(Running(Then(DisposeCall, rest), caught), below)
    ensures Reaches(g, turns, h, t)
    ensures var o := Performed(Then(DisposeCall, rest), t, g.disposed);
            MovedOn(g, h, t, On(Leaving(o.threw, caught), below), o.log, o.disposed)
    decreases Then(DisposeCall, rest), 0
  {
    var self := On(Running(rest, caught), below);
    InnerStep(g, t, On(DisposeEntering, self), [], g.disposed);
    var calling := Step(g, t, Proceed).value;
    var more, back := DisposeRuns(calling, t, self);
    MovesCompose(g, calling, back, t, On(DisposeEntering, self), [], g.disposed, self, Releasing(t, g.disposed), true);
    assert [] + Releasing(t, g.disposed) == Releasing(t, g.disposed);
    ReachesOn(g, [Turn(t, Proceed)], calling, more, back, t);
    turns, h := BodyGoesOn(g, [Turn(t, Proceed)] + more, back, t, rest, caught, below, Releasing(t, g.disposed), true);
  }

  lemma {:induction false} BodyRuns(g: Gate, t: Thread, op: Operation, caught: bool, below: Calls) returns (turns: seq<Turn>, h: Gate)
    requires g.owner == Some(t) && g.depth > 0 && CallsOf(g, t) == On(Running(op, caught), below)
    ensures Reaches(g, turns, h, t)
    ensures var o := Performed(op, t, g.disposed); MovedOn(g, h, t, On(Leaving(o.threw, caught), below), o.log, o.disposed)
    decreases op, 1
  {
    match op
    case Done =>
      InnerStep(g, t, On(Leaving(false, caught), below), [], g.disposed);
      turns, h := [Turn(t, Proceed)], Step(g, t, Proceed).value;
    case Then(Native, rest) =>
      InnerStep(g, t, On(Running(rest, caught), below), [NativeCall(t)], g.disposed);
      turns, h := BodyGoesOn(g, [Turn(t, Proceed)], Step(g, t, Proceed).value, t, rest, caught, below, [NativeCall(t)], g.disposed);
    case Then(DisposeCall, rest) =>
      turns, h := NestedDisposeRuns(g, t, rest, caught, below);
    case Then(Call(nested, c), rest) =>
      turns, h := NestedCallRuns(g, t, nested, c, rest, caught, below);
  }

  /**
   From any state in which the lock is available, a call runs to its end by steps of its own thread
   alone, and has done exactly what its operation says: the same events in the same order, the same
   flag, the lock and every other thread as they were.
   */
  lemma CallCompletes(g: Gate, t: Thread, op: Operation) returns (turns: seq<Turn>, h: Gate)
    requires Available(g, t) && CallsOf(g, t).Idle?
    ensures OnlyProceeds(turns, t) && Execute(g, [Turn(t, Begin(op))] + turns) == Some(h)
    ensures MovedOn(g, h, t, Idle, Called(op, t, g.disposed).log, Called(op, t, g.disposed).disposed)
  {
    var begun := Step(g, t, Begin(op)).value;
    turns, h := CallRuns(begun, t, op, false, Idle);
    ExecutePrepend(g, Turn(t, Begin(op)), turns);
    assert forall u: Thread :: u != t ==> CallsOf(begun, u) == CallsOf(g, u);
  }

  /** So does `Dispose`: afterwards the core is released, and a first `Dispose` logs exactly that. */
  lemma DisposeCompletes(g: Gate, t: Thread) returns (turns: seq<Turn>, h: Gate)
    requires Available(g, t) && CallsOf(g, t).Idle?
    ensures OnlyProceeds(turns, t) && Execute(g, [Turn(t, BeginDispose)] + turns) == Some(h)
    ensures MovedOn(g, h, t, Idle, Releasing(t, g.disposed), true)
  {
    var begun := Step(g, t, BeginDispose).value;
    turns, h := DisposeRuns(begun, t, Idle);
    ExecutePrepend(g, Turn(t, BeginDispose), turns);
    assert forall u: Thread :: u != t ==> CallsOf(begun, u) == CallsOf(g, u);
  }

  // ----- the operations the client defines

  /** Never disposes the client, nor does anything it calls. */
  predicate DisposeFree(op: Operation) {
    match op
    case Done => true
    case Then(Native, rest) => DisposeFree(rest)
    case Then(DisposeCall, _) => false
    case Then(Call(nested, _), rest) => DisposeFree(nested) && DisposeFree(rest)
  }

  /**
   A client operation: native calls and nested client calls that dispose of nothing, in any number
   and order, and then possibly a caller's callback.
   */
  predicate ClientOperation(op: Operation) {
    match op
    case Done => true
    case Then(Native, rest) => ClientOperation(rest)
    case Then(DisposeCall, rest) => CallbackOnly(rest)
    case Then(Call(nested, _), rest) =>
      ClientOperation(nested) && ((DisposeFree(nested) && ClientOperation(rest)) || CallbackOnly(rest))
  }

  /** A callback calls the client, and may dispose it, but never reaches the core itself. */
  predicate CallbackOnly(op: Operation) {
    match op
    case Done => true
    case Then(Native, _) => false
    case Then(DisposeCall, rest) => CallbackOnly(rest)
    case Then(Call(nested, _), rest) => ClientOperation(nested) && CallbackOnly(rest)
  }

  // The shapes that occur: a plain call, one or two binding checks before it, a callback after it.

  const OneNativeCall := Then(Native, Done)

  /** Running a setup-assistant turn: list the routes, then the native call. */
  const AssistantTurn := Then(Call(OneNativeCall, false), OneNativeCall)

  /** Sending with a target: list the routes, list the presets, then the native call. */
  const SendWithTarget := Then(Call(OneNativeCall, false), AssistantTurn)

  /** Inspecting a cURL command: the native call, then the caller's consumer of the credential. */
  function InspectCurl(consumer: Operation): Operation {
    Then(Native, consumer)
  }

  lemma ShapesAreClientOperations(consumer: Operation)
    requires CallbackOnly(consumer)
    ensures ClientOperation(OneNativeCall) && ClientOperation(AssistantTurn) && ClientOperation(SendWithTarget)
    ensures ClientOperation(InspectCurl(consumer))
  {
    assert ClientOperation(consumer);
  }

  lemma {:induction false} DisposeFreeKeepsCore(op: Operation, after: bool, threw: bool)
    requires DisposeFree(op) && Ends(op, false, after, threw)
    ensures !after
  {
    match op
    case Done =>
    case Then(Native, rest) => DisposeFreeKeepsCore(rest, after, threw);
    case Then(Call(nested, caught), rest) =>
      if !(after == false && threw) {
        var d, th :| Returns(nested, false, d, th) && if th && !caught then after == d && threw else Ends(rest, d, after, threw);
        DisposeFreeKeepsCore(nested, d, th);
        if !(th && !caught) {
          DisposeFreeKeepsCore(rest, after, threw);
        }
      }
  }

  lemma {:induction false} CallbacksAreQuiet(op: Operation, disposed: bool)
    requires CallbackOnly(op)
    ensures !Bad(op, disposed)
  {
    match op
    case Done =>
    case Then(DisposeCall, rest) => CallbacksAreQuiet(rest, true);
    case Then(Call(nested, caught), rest) =>
      ClientOperationsAreQuiet(nested);
      CallbacksAreQuiet(rest, true);
      CallbacksAreQuiet(rest, false);
  }

  /** Whatever its nested calls and callbacks do, every client operation is quiet. */
  lemma {:induction false} ClientOperationsAreQuiet(op: Operation)
    requires ClientOperation(op)
    ensures Quiet(op)
  {
    match op
    case Done =>
    case Then(Native, rest) => ClientOperationsAreQuiet(rest);
    case Then(DisposeCall, rest) => CallbacksAreQuiet(rest, true);
    case Then(Call(nested, caught), rest) =>
      ClientOperationsAreQuiet(nested);
      if CallbackOnly(rest) {
        CallbacksAreQuiet(op, false);
      } else {
        ClientOperationsAreQuiet(rest);
        forall d, th | Returns(nested, false, d, th)
          ensures !d
        {
          DisposeFreeKeepsCore(nested, d, th);
        }
      }
  }

  lemma ClientIsSafe()
    ensures AlwaysClean(iset op | ClientOperation(op))
  {
    forall op | ClientOperation(op)
      ensures Quiet(op)
    {
      ClientOperationsAreQuiet(op);
    }
    GateIsSafeIffOperationsAreQuiet(iset op | ClientOperation(op));
  }
}
