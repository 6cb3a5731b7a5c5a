/**
 * The fork variant of `multithreading`: one manager, one forked process per child
 * instruction, a shared mutex, two barriers and one pipe per child.
 *
 * Every system call that another process can observe is one step; a run is any
 * interleaving of the steps of the N + 1 processes.  Process i < N is the i-th child,
 * process N is the manager.
 */
module Multiprocessing {
  import opened Common

  /** `payloads[i]` is what child i serialises; `capacity` bounds every pipe. */
  datatype Config = Config(payloads: seq<seq<Byte>>, capacity: nat) {
    function N(): nat { |payloads| }
    predicate Valid() { 1 <= N() && 1 <= capacity }
  }

  const READ_BUFFER: nat := 100

  datatype ManagerPc = Forking(next: nat) | ManagerClosing(p: nat) | Reading(i: nat) | Finished

  datatype ChildPc =
    | Unborn
    | Closing(p: nat)         // the loop that drops the write ends of the other children
    | WantMutex
    | SettingUp               // owns the initialisation mutex
    | SetUpDone
    | AtStart                 // has arrived at the first barrier
    | Running
    | AtEnd                   // has finished Run and arrived at the second barrier
    | Sending(sent: nat)
    | Closed                  // has closed its own write end
    | Exited

  datatype State = State(
    manager: ManagerPc,
    children: seq<ChildPc>,
    mutex: Option<nat>,
    atStart: set<nat>,
    atEnd: set<nat>,
    writers: seq<set<nat>>,   // writers[p]: the processes that hold the write end of pipe p
    pipes: seq<seq<Byte>>,
    serialized: seq<Byte>,    // what the manager has read from the pipe it is draining
    results: seq<seq<Byte>>)  // the payloads the manager has completed, in order

  datatype Step =
    | Fork | ManagerClose | Read(k: nat) | Eof | Destroy
    | ChildClose(i: nat) | LockMutex(i: nat) | UnlockMutex(i: nat)
    | ArriveStart(i: nat) | LeaveStart(i: nat) | ArriveEnd(i: nat) | LeaveEnd(i: nat)
    | Write(i: nat, k: nat) | CloseWrite(i: nat) | Exit(i: nat)

  function Init(c: Config): State
    requires c.Valid()
  {
    State(Forking(0), seq(c.N(), _ => Unborn), None, {}, {},
          seq(c.N(), _ => {c.N()}), seq(c.N(), _ => []), [], [])
  }

  predicate Shape(c: Config, s: State) {
    && |s.children| == |s.writers| == |s.pipes| == c.N()
    && (s.manager.Forking? ==> s.manager.next < c.N())
    && (s.manager.ManagerClosing? ==> s.manager.p < c.N())
    && (s.manager.Reading? ==> s.manager.i <= c.N())
    && forall i :: 0 <= i < c.N() ==> ChildShape(c, s.children[i], i)
  }

  predicate ChildShape(c: Config, pc: ChildPc, i: nat)
    requires i < c.N()
  {
    && (pc.Closing? ==> pc.p < c.N())
    && (pc.Sending? ==> pc.sent <= |c.payloads[i]|)
  }

  predicate Enabled(c: Config, s: State, step: Step)
    requires Shape(c, s)
  {
    match step
    case Fork => s.manager.Forking?
    case ManagerClose => s.manager.ManagerClosing?
    // read() returns between 1 and READ_BUFFER of the bytes present
    case Read(k) =>
      s.manager.Reading? && s.manager.i < c.N() && 1 <= k <= READ_BUFFER && k <= |s.pipes[s.manager.i]|
    // read() returns 0 only on an empty pipe that nobody can write to any more
    case Eof =>
      s.manager.Reading? && s.manager.i < c.N() && s.pipes[s.manager.i] == [] && s.writers[s.manager.i] == {}
    case Destroy => s.manager == Reading(c.N())
    case ChildClose(i) => i < c.N() && s.children[i].Closing?
    case LockMutex(i) => i < c.N() && s.children[i].WantMutex? && s.mutex == None
    case UnlockMutex(i) => i < c.N() && s.children[i].SettingUp?
    case ArriveStart(i) => i < c.N() && s.children[i].SetUpDone?
    case LeaveStart(i) => i < c.N() && s.children[i].AtStart? && |s.atStart| == c.N()
    case ArriveEnd(i) => i < c.N() && s.children[i].Running?
    case LeaveEnd(i) => i < c.N() && s.children[i].AtEnd? && |s.atEnd| == c.N()
    // write() accepts between 1 byte and everything left, as far as the pipe has room
    case Write(i, k) =>
      && i < c.N() && s.children[i].Sending?
      && 1 <= k <= |c.payloads[i]| - s.children[i].sent && |s.pipes[i]| + k <= c.capacity
    case CloseWrite(i) =>
      i < c.N() && s.children[i].Sending? && s.children[i].sent == |c.payloads[i]|
    case Exit(i) => i < c.N() && s.children[i].Closed?
  }

  /** A new process holds every write end that its parent holds at this moment. */
  function Inherited(writers: seq<set<nat>>, parent: nat, child: nat): (r: seq<set<nat>>)
    ensures |r| == |writers|
  {
    seq(|writers|, p requires 0 <= p < |writers| => if parent in writers[p] then writers[p] + {child} else writers[p])
  }

  /** An exiting process closes whatever it still holds. */
  function Dropped(writers: seq<set<nat>>, i: nat): (r: seq<set<nat>>)
    ensures |r| == |writers|
  {
    seq(|writers|, p requires 0 <= p < |writers| => writers[p] - {i})
  }

  /** Child i goes on to its next point. */
  function Move(c: Config, s: State, i: nat, pc: ChildPc): (t: State)
    requires Shape(c, s) && i < c.N() && ChildShape(c, pc, i)
    ensures Shape(c, t)
  {
    s.(children := s.children[i := pc])
  }

  function Apply(c: Config, s: State, step: Step): (t: State)
    requires Shape(c, s) && Enabled(c, s, step)
    ensures Shape(c, t)
  {
    match step
    case Fork =>
      var i := s.manager.next;
      Move(c, s, i, Closing(0)).(
         manager := if i + 1 < c.N() then Forking(i + 1) else ManagerClosing(0),
         writers := Inherited(s.writers, c.N(), i))
    case ManagerClose =>
      var p := s.manager.p;
      s.(manager := if p + 1 < c.N() then ManagerClosing(p + 1) else Reading(0),
         writers := s.writers[p := s.writers[p] - {c.N()}])
    case Read(k) =>
      var i := s.manager.i;
      s.(pipes := s.pipes[i := s.pipes[i][k..]], serialized := s.serialized + s.pipes[i][..k])
    case Eof =>
      s.(manager := Reading(s.manager.i + 1), serialized := [], results := s.results + [s.serialized])
    case Destroy => s.(manager := Finished)
    case ChildClose(i) =>
      var p := s.children[i].p;
      Move(c, s, i, if p + 1 < c.N() then Closing(p + 1) else WantMutex).(
         writers := if p == i then s.writers else s.writers[p := s.writers[p] - {i}])
    case LockMutex(i) => Move(c, s, i, SettingUp).(mutex := Some(i))
    case UnlockMutex(i) => Move(c, s, i, SetUpDone).(mutex := None)
    case ArriveStart(i) => Move(c, s, i, AtStart).(atStart := s.atStart + {i})
    case LeaveStart(i) => Move(c, s, i, Running)
    case ArriveEnd(i) => Move(c, s, i, AtEnd).(atEnd := s.atEnd + {i})
    case LeaveEnd(i) => Move(c, s, i, Sending(0))
    case Write(i, k) =>
      var sent := s.children[i].sent;
      Move(c, s, i, Sending(sent + k)).(
         pipes := s.pipes[i := s.pipes[i] + c.payloads[i][sent..sent + k]])
    case CloseWrite(i) =>
      Move(c, s, i, Closed).(writers := s.writers[i := s.writers[i] - {i}])
    case Exit(i) =>
      Move(c, s, i, Exited).(writers := Dropped(s.writers, i))
  }

  /** The state after a schedule, or None when the schedule is not executable. */
  function After(c: Config, steps: seq<Step>): (r: Option<State>)
    requires c.Valid()
    ensures r.Some? ==> Shape(c, r.value)
  {
    if steps == [] then Some(Init(c))
    else
      var step := steps[|steps| - 1];
      match After(c, steps[..|steps| - 1])
      case None => None
      case Some(s) => if Enabled(c, s, step) then Some(Apply(c, s, step)) else None
  }

  predicate Final(c: Config, s: State) {
    s.manager.Finished? && forall i :: 0 <= i < |s.children| ==> s.children[i].Exited?
  }

  /** The child whose state a step changes; the manager's own steps may name any child. */
  function Actor(s: State, step: Step): nat {
    match step
    case Fork => if s.manager.Forking? then s.manager.next else 0
    case Read(_) => if s.manager.Reading? then s.manager.i else 0
    case ManagerClose => 0 case Eof => 0 case Destroy => 0
    case ChildClose(i) => i case LockMutex(i) => i case UnlockMutex(i) => i
    case ArriveStart(i) => i case LeaveStart(i) => i case ArriveEnd(i) => i case LeaveEnd(i) => i
    case Write(i, _) => i case CloseWrite(i) => i case Exit(i) => i
  }

  // ---------------------------------------------------------------- phases of one child

  predicate PastSetUp(pc: ChildPc) {
    pc.SetUpDone? || PastStart(pc)
  }

  predicate PastStart(pc: ChildPc) {
    pc.AtStart? || RunStarted(pc)
  }

  predicate RunStarted(pc: ChildPc) {
    pc.Running? || PastRun(pc)
  }

  predicate PastRun(pc: ChildPc) {
    pc.AtEnd? || Collecting(pc)
  }

  predicate Collecting(pc: ChildPc) {
    pc.Sending? || Gone(pc)
  }

  predicate Gone(pc: ChildPc) {
    pc.Closed? || pc.Exited?
  }

  // ---------------------------------------------------------------- the invariant

  /** The write ends child i holds: everything it has not reached in its close loop, and its own. */
  predicate ChildHolds(pc: ChildPc, i: nat, p: nat) {
    !pc.Unborn? && !Gone(pc) && (p == i || (pc.Closing? && pc.p <= p))
  }

  predicate ManagerHolds(m: ManagerPc, p: nat) {
    m.Forking? || (m.ManagerClosing? && m.p <= p)
  }

  ghost predicate WritersAt(c: Config, s: State, p: nat, x: nat)
    requires Shape(c, s) && p < c.N()
  {
    x in s.writers[p] <==>
      (x < c.N() && ChildHolds(s.children[x], x, p)) || (x == c.N() && ManagerHolds(s.manager, p))
  }

  ghost predicate BornAt(c: Config, s: State, i: nat)
    requires Shape(c, s) && i < c.N()
  {
    s.children[i].Unborn? <==> s.manager.Forking? && s.manager.next <= i
  }

  ghost predicate MutexAt(c: Config, s: State, i: nat)
    requires Shape(c, s)
  {
    s.mutex == Some(i) <==> i < c.N() && s.children[i].SettingUp?
  }

  ghost predicate StartAt(c: Config, s: State, i: nat)
    requires Shape(c, s)
  {
    && (i in s.atStart <==> i < c.N() && PastStart(s.children[i]))
    && (i < c.N() && RunStarted(s.children[i]) ==> |s.atStart| == c.N())
    && |s.atStart| <= c.N()
  }

  ghost predicate EndAt(c: Config, s: State, i: nat)
    requires Shape(c, s)
  {
    && (i in s.atEnd <==> i < c.N() && PastRun(s.children[i]))
    && (i < c.N() && Collecting(s.children[i]) ==> |s.atEnd| == c.N())
    && |s.atEnd| <= c.N()
  }

  ghost predicate LocksAt(c: Config, s: State, i: nat)
    requires Shape(c, s)
  {
    MutexAt(c, s, i) && StartAt(c, s, i) && EndAt(c, s, i)
  }

  /** The bytes of child i that its write loop has not handed to the pipe yet. */
  function Unsent(c: Config, pc: ChildPc, i: nat): seq<Byte>
    requires i < c.N() && ChildShape(c, pc, i)
  {
    if pc.Sending? then c.payloads[i][pc.sent..] else if Gone(pc) then [] else c.payloads[i]
  }

  /** The bytes of child i that the manager has received. */
  function Received(s: State, i: nat): seq<Byte> {
    if i < |s.results| then s.results[i]
    else if s.manager == Reading(i) then s.serialized
    else []
  }

  ghost predicate PipeAt(c: Config, s: State, i: nat)
    requires Shape(c, s) && i < c.N()
  {
    && Received(s, i) + s.pipes[i] + Unsent(c, s.children[i], i) == c.payloads[i]
    && |s.pipes[i]| <= c.capacity
    && (i < |s.results| ==> Gone(s.children[i]) && s.pipes[i] == [])
  }

  predicate ManagerInv(c: Config, s: State) {
    && |s.results| == (if s.manager.Reading? then s.manager.i else if s.manager.Finished? then c.N() else 0)
    && ((s.manager.Reading? && s.manager.i < c.N()) || s.serialized == [])
  }

  ghost predicate Inv(c: Config, s: State) {
    && Shape(c, s) && ManagerInv(c, s)
    && (forall p: nat, x: nat :: p < c.N() ==> WritersAt(c, s, p, x))
    && (forall i: nat :: i < c.N() ==> BornAt(c, s, i))
    && (forall i: nat :: LocksAt(c, s, i))
    && (forall i: nat :: i < c.N() ==> PipeAt(c, s, i))
  }
}
