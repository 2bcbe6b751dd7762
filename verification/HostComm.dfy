/**
 The host's handshake with the base station as a state machine: one sender thread, any number of
 concurrent calls of SetRobotCommands and ProcessBaseStationMessage, one mutex, one condition variable.
 A step is what one thread does between two points where another may run.
 */
module HostComm {
  /** Which flag a call sets. */
  datatype Kind = Ready | Command

  /** A call in flight: before the lock, in it, in it with its flag set, and out of it but not yet notified. */
  datatype Phase = Want | Holding | HasSet | MustNotify
  datatype Op = Op(kind: Kind, phase: Phase)

  datatype Lock = Free | Sender | Producer(id: nat)

  /** Where the sender is in its loop. */
  datatype Pc = Start | Checking | Asleep | Woken | ClearReady | ClearCommands | Cleared | Sending

  /** The shared state, and counts of what has happened. */
  datatype State = State(
    lock: Lock, ready: bool, commands: bool, ops: map<nat, Op>, pc: Pc,
    sends: nat, readies: nat, calls: nat, readySets: nat, commandSets: nat)

  datatype Step =
    | Receive(id: nat, msg: string)
    | Call(id: nat)
    | Acquire(id: nat)
    | SetFlag(id: nat)
    | Release(id: nat)
    | Notify(id: nat)
    | SenderLock
    | SenderCheck
    | SpuriousWake
    | SenderClearReady
    | SenderClearCommands
    | SenderUnlock
    | SenderSend

  const INITIAL := State(Free, false, false, map[], Start, 0, 0, 0, 0, 0)

  ghost predicate At(s: State, id: nat, phase: Phase) {
    id in s.ops && s.ops[id].phase == phase
  }

  /** Messages other than "ready" are dropped. */
  ghost predicate Enabled(s: State, step: Step) {
    match step
    case Receive(id, msg) => msg == "ready" ==> id !in s.ops
    case Call(id) => id !in s.ops
    case Acquire(id) => At(s, id, Want) && s.lock == Free
    case SetFlag(id) => At(s, id, Holding) && s.lock == Producer(id)
    case Release(id) => At(s, id, HasSet) && s.lock == Producer(id)
    case Notify(id) => At(s, id, MustNotify)
    case SenderLock => (s.pc == Start || s.pc == Woken) && s.lock == Free
    case SenderCheck => s.pc == Checking
    case SpuriousWake => s.pc == Asleep
    case SenderClearReady => s.pc == ClearReady
    case SenderClearCommands => s.pc == ClearCommands
    case SenderUnlock => s.pc == Cleared
    case SenderSend => s.pc == Sending
  }

  function MoveTo(s: State, id: nat, phase: Phase): map<nat, Op>
    requires id in s.ops
  {
    s.ops[id := s.ops[id].(phase := phase)]
  }

  ghost function Do(s: State, step: Step): State
    requires Enabled(s, step)
  {
    match step
    case Receive(id, msg) =>
      if msg == "ready" then s.(ops := s.ops[id := Op(Ready, Want)], readies := s.readies + 1) else s
    case Call(id) => s.(ops := s.ops[id := Op(Command, Want)], calls := s.calls + 1)
    case Acquire(id) => s.(ops := MoveTo(s, id, Holding), lock := Producer(id))
    case SetFlag(id) =>
      var t := s.(ops := MoveTo(s, id, HasSet));
      if s.ops[id].kind == Ready then t.(ready := true, readySets := s.readySets + 1)
      else t.(commands := true, commandSets := s.commandSets + 1)
    case Release(id) => s.(ops := MoveTo(s, id, MustNotify), lock := Free)
    // notify_one: the sender is the only one that ever waits
    case Notify(id) => s.(ops := s.ops - {id}, pc := if s.pc == Asleep then Woken else s.pc)
    case SenderLock => s.(lock := Sender, pc := Checking)
    // the wait: go on when both flags are set, else release the lock and sleep in one step
    case SenderCheck => if s.ready && s.commands then s.(pc := ClearReady) else s.(pc := Asleep, lock := Free)
    case SpuriousWake => s.(pc := Woken)
    case SenderClearReady => s.(ready := false, pc := ClearCommands)
    case SenderClearCommands => s.(commands := false, pc := Cleared)
    case SenderUnlock => s.(lock := Free, pc := Sending)
    case SenderSend => s.(sends := s.sends + 1, pc := Start)
  }

  // ----- what every step keeps -----

  /** The calls of one kind whose flag is still to be set. */
  function Unset(ops: map<nat, Op>, kind: Kind): set<nat> {
    set id | id in ops && ops[id].kind == kind && (ops[id].phase == Want || ops[id].phase == Holding)
  }

  predicate Locked(pc: Pc) {
    pc == Checking || pc == ClearReady || pc == ClearCommands || pc == Cleared
  }

  /** The mutex: held by exactly the thread that is inside. */
  ghost predicate Exclusive(s: State) {
    && (s.lock == Sender <==> Locked(s.pc))
    && (forall id :: id in s.ops ==> ((s.ops[id].phase == Holding || s.ops[id].phase == HasSet) <==> s.lock == Producer(id)))
    && (s.lock.Producer? ==> s.lock.id in s.ops)
  }

  /** A flag that has been seen set stays set until the sender clears it itself. */
  ghost predicate Seen(s: State) {
    && (s.pc == ClearReady ==> s.ready && s.commands)
    && (s.pc == ClearCommands ==> s.commands)
  }

  /** Messages the sender has taken but not sent: it holds a ready message from clearing its flag on. */
  function ReadyTokens(s: State): nat {
    (if s.ready then 1 else 0) + if s.pc == ClearCommands || s.pc == Cleared || s.pc == Sending then 1 else 0
  }

  function CommandTokens(s: State): nat {
    (if s.commands then 1 else 0) + if s.pc == Cleared || s.pc == Sending then 1 else 0
  }

  /** Every send has used up one ready message and one call. */
  ghost predicate Counted(s: State) {
    && s.sends + ReadyTokens(s) <= s.readySets && s.sends + CommandTokens(s) <= s.commandSets
    && s.readies == s.readySets + |Unset(s.ops, Ready)| && s.calls == s.commandSets + |Unset(s.ops, Command)|
  }

  /** A call that has set its flag will still notify. */
  ghost predicate NotificationComing(s: State) {
    exists id :: At(s, id, HasSet) || At(s, id, MustNotify)
  }

  /** No wake-up is lost. */
  ghost predicate NoLostWakeup(s: State) {
    s.pc == Asleep && s.ready && s.commands ==> NotificationComing(s)
  }

  ghost predicate Inv(s: State) {
    Exclusive(s) && Seen(s) && Counted(s) && NoLostWakeup(s)
  }

  lemma UnsetMove(ops: map<nat, Op>, id: nat, phase: Phase, kind: Kind)
    requires id in ops
    ensures var moved := ops[id := ops[id].(phase := phase)];
            var was := ops[id].phase == Want || ops[id].phase == Holding;
            var will := phase == Want || phase == Holding;
            && (ops[id].kind != kind || was == will ==> Unset(moved, kind) == Unset(ops, kind))
            && (ops[id].kind == kind && was && !will ==> Unset(ops, kind) == Unset(moved, kind) + {id} && id !in Unset(moved, kind))
  {
  }

  lemma UnsetNew(ops: map<nat, Op>, id: nat, k: Kind, kind: Kind)
    requires id !in ops
    ensures Unset(ops[id := Op(k, Want)], kind) == Unset(ops, kind) + if k == kind then {id} else {}
    ensures id !in Unset(ops, kind)
  {
  }

  lemma UnsetDone(ops: map<nat, Op>, id: nat, kind: Kind)
    requires id in ops && ops[id].phase == MustNotify
    ensures Unset(ops - {id}, kind) == Unset(ops, kind)
  {
  }

  /** How the sets of calls still to act change with a step. */
  lemma UnsetStep(s: State, step: Step, kind: Kind)
    requires Enabled(s, step)
    ensures var before, after := |Unset(s.ops, kind)|, |Unset(Do(s, step).ops, kind)|;
            match step
            case Receive(_, msg) => after == before + if msg == "ready" && kind == Ready then 1 else 0
            case Call(_) => after == before + if kind == Command then 1 else 0
            case SetFlag(id) => before == after + if s.ops[id].kind == kind then 1 else 0
            case _ => after == before
  {
    match step
    case Receive(id, msg) =>
      if msg == "ready" {
        UnsetNew(s.ops, id, Ready, kind);
      }
    case Call(id) => UnsetNew(s.ops, id, Command, kind);
    case Acquire(id) => UnsetMove(s.ops, id, Holding, kind);
    case SetFlag(id) => UnsetMove(s.ops, id, HasSet, kind);
    case Release(id) => UnsetMove(s.ops, id, MustNotify, kind);
    case Notify(id) => UnsetDone(s.ops, id, kind);
    case _ =>
  }

  lemma KeepsCounted(s: State, step: Step)
    requires Inv(s) && Enabled(s, step)
    ensures Counted(Do(s, step))
  {
    UnsetStep(s, step, Ready);
    UnsetStep(s, step, Command);
  }

  lemma KeepsExclusive(s: State, step: Step)
    requires Inv(s) && Enabled(s, step)
    ensures Exclusive(Do(s, step)) && Seen(Do(s, step))
  {
  }

  lemma KeepsWakeups(s: State, step: Step)
    requires Inv(s) && Enabled(s, step)
    ensures NoLostWakeup(Do(s, step))
  {
    var t := Do(s, step);
    if t.pc == Asleep && t.ready && t.commands {
      if step.SetFlag? {
        assert At(t, step.id, HasSet);
      } else if step.Release? {
        assert At(t, step.id, MustNotify);
      } else if !step.SenderCheck? {
        var id :| At(s, id, HasSet) || At(s, id, MustNotify);
        assert At(t, id, HasSet) || At(t, id, MustNotify);
      }
    }
  }

  lemma StepKeepsInv(s: State, step: Step)
    requires Inv(s) && Enabled(s, step)
    ensures Inv(Do(s, step))
  {
    KeepsExclusive(s, step);
    KeepsCounted(s, step);
    KeepsWakeups(s, step);
  }

  // ----- runs -----

  /** The steps can be taken one after the other. */
  ghost predicate Runs(s: State, steps: seq<Step>)
    decreases |steps|
  {
    steps == [] || (Enabled(s, steps[0]) && Runs(Do(s, steps[0]), steps[1..]))
  }

  ghost function After(s: State, steps: seq<Step>): State
    requires Runs(s, steps)
    decreases |steps|
  {
    if steps == [] then s else After(Do(s, steps[0]), steps[1..])
  }

  lemma {:induction false} RunKeepsInv(s: State, steps: seq<Step>)
    requires Inv(s) && Runs(s, steps)
    ensures Inv(After(s, steps))
    decreases |steps|
  {
    if steps != [] {
      StepKeepsInv(s, steps[0]);
      RunKeepsInv(Do(s, steps[0]), steps[1..]);
    }
  }

  /** In every interleaving: no more sends than ready messages, nor than calls; and no lost wake-up. */
  lemma EveryRun(steps: seq<Step>)
    requires Runs(INITIAL, steps)
    ensures var s := After(INITIAL, steps);
            && s.sends <= s.readies && s.sends <= s.calls
            && (s.pc == Asleep && s.ready && s.commands ==> NotificationComing(s))
  {
    assert Unset(INITIAL.ops, Ready) == {} && Unset(INITIAL.ops, Command) == {};
    RunKeepsInv(INITIAL, steps);
  }

  /** A send uses up what setting the flags has put in; no other step loses any of it. */
  lemma StepPays(s: State, step: Step)
    requires Inv(s) && Enabled(s, step)
    ensures var t := Do(s, step);
            && t.sends + ReadyTokens(t) + s.readySets <= s.sends + ReadyTokens(s) + t.readySets
            && t.sends + CommandTokens(t) + s.commandSets <= s.sends + CommandTokens(s) + t.commandSets
  {
  }

  /** In any stretch of a run, sends are paid for by flags set in it, but for what was pending at its beginning. */
  lemma {:induction false} AnyStretch(s: State, steps: seq<Step>)
    requires Inv(s) && Runs(s, steps)
    ensures var t := After(s, steps);
            && t.sends + ReadyTokens(t) + s.readySets <= s.sends + ReadyTokens(s) + t.readySets
            && t.sends + CommandTokens(t) + s.commandSets <= s.sends + CommandTokens(s) + t.commandSets
    decreases |steps|
  {
    if steps != [] {
      StepKeepsInv(s, steps[0]);
      StepPays(s, steps[0]);
      AnyStretch(Do(s, steps[0]), steps[1..]);
    }
  }

  // ----- progress -----

  /** The sender's only own step. */
  function OwnStep(pc: Pc): Step
    requires pc != Asleep
  {
    match pc
    case Start => SenderLock
    case Woken => SenderLock
    case Checking => SenderCheck
    case ClearReady => SenderClearReady
    case ClearCommands => SenderClearCommands
    case Cleared => SenderUnlock
    case Sending => SenderSend
  }

  /** How far the sender is from having sent what is pending now. */
  function ToGo(s: State): nat {
    match s.pc
    case Asleep => 7
    case Start => 6
    case Woken => 6
    case Checking => 5
    case ClearReady => 4
    case ClearCommands => 3
    case Cleared => 2
    case Sending => 1
  }

  lemma Prepend(s: State, step: Step, more: seq<Step>)
    requires Enabled(s, step) && Runs(Do(s, step), more)
    ensures Runs(s, [step] + more) && After(s, [step] + more) == After(Do(s, step), more)
  {
    assert ([step] + more)[1..] == more;
  }

  /** Past clearing a flag the sender leaves it as it is. */
  predicate ReadyTaken(pc: Pc) {
    pc == ClearCommands || pc == Cleared || pc == Sending
  }

  predicate CommandsTaken(pc: Pc) {
    pc == Cleared || pc == Sending
  }

  /**
   With both flags set and no call in flight the sender, left alone, sends: it is neither asleep nor
   blocked. Afterwards the flags it had not yet cleared are cleared, and no others.
   */
  lemma {:induction false} Delivers(s: State) returns (steps: seq<Step>)
    requires Inv(s) && s.ops == map[] && (ReadyTaken(s.pc) || (s.ready && s.commands))
    ensures Runs(s, steps) && |steps| <= ToGo(s)
    ensures After(s, steps).sends == s.sends + 1 && After(s, steps).ops == map[]
    ensures After(s, steps).ready == (s.ready && ReadyTaken(s.pc)) && After(s, steps).commands == (s.commands && CommandsTaken(s.pc))
    decreases ToGo(s)
  {
    assert s.pc != Asleep;
    var step := OwnStep(s.pc);
    assert Enabled(s, step);
    var t := Do(s, step);
    var more := [];
    if s.pc != Sending {
      StepKeepsInv(s, step);
      more := Delivers(t);
    }
    Prepend(s, step, more);
    steps := [step] + more;
  }
}
