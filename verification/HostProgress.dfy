/**
 What the handshake delivers: every ready message and every call that has arrived is still pending
 or taken, and from wherever a run stands what is pending can be sent.
 */
module HostProgress {
  import opened HostComm

  // ----- what the counts count -----

  /** How many steps of a run are of a kind. */
  function Count(steps: seq<Step>, kind: Step -> bool): nat {
    if steps == [] then 0 else (if kind(steps[0]) then 1 else 0) + Count(steps[1..], kind)
  }

  const IS_READY: Step -> bool := (step: Step) => step.Receive? && step.msg == "ready"
  const IS_CALL: Step -> bool := (step: Step) => step.Call?
  const IS_SEND: Step -> bool := (step: Step) => step.SenderSend?
  const TAKES_READY: Step -> bool := (step: Step) => step.SenderClearReady?
  const TAKES_COMMANDS: Step -> bool := (step: Step) => step.SenderClearCommands?

  /** Messages the sender has taken and not sent yet. */
  function Held(taken: bool): nat {
    if taken then 1 else 0
  }

  /** One step: an arrival and a send are counted, and a flag that is cleared is held until it is sent for. */
  lemma StepCounts(s: State, step: Step)
    requires Enabled(s, step)
    ensures var t := Do(s, step);
            && t.readies == s.readies + Held(IS_READY(step)) && t.calls == s.calls + Held(IS_CALL(step))
            && t.sends == s.sends + Held(IS_SEND(step))
            && t.sends + Held(ReadyTaken(t.pc)) == s.sends + Held(ReadyTaken(s.pc)) + Held(TAKES_READY(step))
            && t.sends + Held(CommandsTaken(t.pc)) == s.sends + Held(CommandsTaken(s.pc)) + Held(TAKES_COMMANDS(step))
  {
  }

  lemma CountFirst(steps: seq<Step>, kind: Step -> bool)
    requires steps != []
    ensures Count(steps, kind) == Held(kind(steps[0])) + Count(steps[1..], kind)
  {
  }

  /** In any stretch of a run: arrivals and sends are counted, and every flag that is cleared is sent for exactly once. */
  lemma {:induction false} Conserved(s: State, steps: seq<Step>)
    requires Runs(s, steps)
    ensures var t := After(s, steps);
            && t.readies == s.readies + Count(steps, IS_READY) && t.calls == s.calls + Count(steps, IS_CALL)
            && t.sends == s.sends + Count(steps, IS_SEND)
            && t.sends + Held(ReadyTaken(t.pc)) == s.sends + Held(ReadyTaken(s.pc)) + Count(steps, TAKES_READY)
            && t.sends + Held(CommandsTaken(t.pc)) == s.sends + Held(CommandsTaken(s.pc)) + Count(steps, TAKES_COMMANDS)
    decreases |steps|
  {
    if steps != [] {
      StepCounts(s, steps[0]);
      CountFirst(steps, IS_READY);
      CountFirst(steps, IS_CALL);
      CountFirst(steps, IS_SEND);
      CountFirst(steps, TAKES_READY);
      CountFirst(steps, TAKES_COMMANDS);
      Conserved(Do(s, steps[0]), steps[1..]);
    }
  }

  /** A flag is up after a call has set it, and stays up until the sender takes it. */
  lemma FlagStep(s: State, step: Step)
    requires Enabled(s, step)
    ensures var t := Do(s, step);
            && (t.ready <==> t.readySets > s.readySets || (s.ready && !step.SenderClearReady?))
            && (t.commands <==> t.commandSets > s.commandSets || (s.commands && !step.SenderClearCommands?))
            && t.readySets + t.commandSets == s.readySets + s.commandSets + if step.SetFlag? then 1 else 0
  {
  }

  // ----- what is pending -----

  /** A ready message is waiting: its flag is up, or the call that brings it has not set the flag yet. */
  predicate Pending(s: State, kind: Kind) {
    (if kind == Ready then s.ready else s.commands) || Unset(s.ops, kind) != {}
  }

  /** What will be sent whatever else arrives: what the sender has taken, and one more when both kinds are waiting. */
  function Promise(s: State): nat {
    if s.pc == ClearReady || s.pc == ClearCommands then 1
    else Held(CommandsTaken(s.pc)) + Held(Pending(s, Ready) && Pending(s, Command))
  }

  lemma PendingStep(s: State, step: Step, kind: Kind)
    requires Enabled(s, step) && Pending(s, kind) && !(if kind == Ready then step.SenderClearReady? else step.SenderClearCommands?)
    ensures Pending(Do(s, step), kind)
  {
    UnsetStep(s, step, kind);
    FlagStep(s, step);
    UnsetEmpty(Do(s, step).ops, kind);
    UnsetEmpty(s.ops, kind);
  }

  lemma UnsetEmpty(ops: map<nat, Op>, kind: Kind)
    ensures |Unset(ops, kind)| == 0 <==> Unset(ops, kind) == {}
  {
  }

  /** An arrival is pending. */
  lemma Arrives(s: State, step: Step)
    requires Enabled(s, step)
    ensures IS_READY(step) ==> Pending(Do(s, step), Ready)
    ensures IS_CALL(step) ==> Pending(Do(s, step), Command)
  {
    UnsetStep(s, step, Ready);
    UnsetStep(s, step, Command);
  }

  /** No step of any thread breaks a promise. */
  lemma PromiseKept(s: State, step: Step)
    requires Inv(s) && Enabled(s, step)
    ensures Do(s, step).sends + Promise(Do(s, step)) >= s.sends + Promise(s)
  {
    if Pending(s, Ready) && !step.SenderClearReady? {
      PendingStep(s, step, Ready);
    }
    if Pending(s, Command) && !step.SenderClearCommands? {
      PendingStep(s, step, Command);
    }
  }

  lemma {:induction false} RunKeepsPromise(s: State, steps: seq<Step>)
    requires Inv(s) && Runs(s, steps)
    ensures After(s, steps).sends + Promise(After(s, steps)) >= s.sends + Promise(s)
    decreases |steps|
  {
    if steps != [] {
      PromiseKept(s, steps[0]);
      StepKeepsInv(s, steps[0]);
      RunKeepsPromise(Do(s, steps[0]), steps[1..]);
    }
  }

  // ----- finishing the calls in flight -----

  lemma {:induction false} RunsThen(s: State, a: seq<Step>, b: seq<Step>)
    requires Runs(s, a) && Runs(After(s, a), b)
    ensures Runs(s, a + b) && After(s, a + b) == After(After(s, a), b)
    decreases |a|
  {
    if a == [] {
      assert a + b == b;
    } else {
      RunsThen(Do(s, a[0]), a[1..], b);
      assert (a + b)[1..] == a[1..] + b;
    }
  }

  lemma {:induction false} RunsAfter(s: State, a: seq<Step>, b: seq<Step>)
    requires Runs(s, a + b)
    ensures Runs(s, a) && Runs(After(s, a), b) && After(s, a + b) == After(After(s, a), b)
    decreases |a|
  {
    if a == [] {
      assert a + b == b;
    } else {
      assert (a + b)[1..] == a[1..] + b;
      RunsAfter(Do(s, a[0]), a[1..], b);
    }
  }

  /** A sender inside the lock leaves it by itself. */
  lemma {:induction false} FreesLock(s: State) returns (steps: seq<Step>)
    requires Inv(s)
    ensures Runs(s, steps) && Inv(After(s, steps)) && After(s, steps).lock != Sender && After(s, steps).ops == s.ops
    decreases ToGo(s)
  {
    steps := [];
    if s.lock == Sender {
      var step := OwnStep(s.pc);
      StepKeepsInv(s, step);
      if s.pc == Checking && !(s.ready && s.commands) {
        steps := [step];
        assert After(s, steps) == Do(s, step);
      } else {
        var more := FreesLock(Do(s, step));
        Prepend(s, step, more);
        steps := [step] + more;
      }
    }
  }

  /** What a call does next. */
  function NextOf(id: nat, phase: Phase): Step {
    match phase
    case Want => Acquire(id)
    case Holding => SetFlag(id)
    case HasSet => Release(id)
    case MustNotify => Notify(id)
  }

  function PhasesLeft(phase: Phase): nat {
    match phase case Want => 4 case Holding => 3 case HasSet => 2 case MustNotify => 1
  }

  /** A call that has the lock, or finds it free, finishes by itself. */
  lemma {:induction false} Finishes(s: State, id: nat) returns (steps: seq<Step>)
    requires Inv(s) && id in s.ops && (s.lock == Free || s.lock == Producer(id))
    ensures Runs(s, steps) && Inv(After(s, steps)) && After(s, steps).ops == s.ops - {id}
    decreases PhasesLeft(s.ops[id].phase)
  {
    var step := NextOf(id, s.ops[id].phase);
    assert Enabled(s, step);
    StepKeepsInv(s, step);
    var t := Do(s, step);
    var more := [];
    if s.ops[id].phase != MustNotify {
      assert t.ops - {id} == s.ops - {id};
      more := Finishes(t, id);
    }
    Prepend(s, step, more);
    steps := [step] + more;
  }

  /** All of them can. */
  lemma {:induction false} Drains(s: State) returns (steps: seq<Step>)
    requires Inv(s)
    ensures Runs(s, steps) && Inv(After(s, steps)) && After(s, steps).ops == map[]
    decreases |s.ops|
  {
    steps := [];
    if s.ops != map[] {
      var free := FreesLock(s);
      var t := After(s, free);
      var id :| id in t.ops && (t.lock == Free || t.lock == Producer(id)) by { AnyOp(t); }
      var finish := Finishes(t, id);
      var u := After(t, finish);
      assert |u.ops| < |s.ops| by { OneLess(t.ops, id); }
      var rest := Drains(u);
      RunsThen(t, finish, rest);
      RunsThen(s, free, finish + rest);
      steps := free + (finish + rest);
    }
  }

  lemma AnyOp(t: State)
    requires Inv(t) && t.ops != map[] && t.lock != Sender
    ensures exists id :: id in t.ops && (t.lock == Free || t.lock == Producer(id))
  {
    if t.lock.Producer? {
      assert t.lock.id in t.ops;
    } else {
      var id :| id in t.ops;
      assert t.lock == Free;
    }
  }

  lemma OneLess(ops: map<nat, Op>, id: nat)
    requires id in ops
    ensures |ops - {id}| < |ops|
  {
    assert ops == (ops - {id})[id := ops[id]];
  }

  // ----- keeping the promises -----

  /** With no call in flight the sender, left alone, sends all that was promised. */
  lemma {:induction false} Settles(s: State, target: nat) returns (steps: seq<Step>)
    requires Inv(s) && s.ops == map[] && target <= s.sends + Promise(s)
    ensures Runs(s, steps) && After(s, steps).sends >= target
    decreases target - s.sends
  {
    steps := [];
    if s.sends < target {
      assert Unset(s.ops, Ready) == {} && Unset(s.ops, Command) == {};
      var some := Delivers(s);
      RunKeepsInv(s, some);
      RunKeepsPromise(s, some);
      var rest := Settles(After(s, some), target);
      RunsThen(s, some, rest);
      steps := some + rest;
    }
  }

  /** From any state of any run all that was promised can be sent. */
  lemma Fulfils(s: State) returns (steps: seq<Step>)
    requires Inv(s)
    ensures Runs(s, steps) && After(s, steps).sends >= s.sends + Promise(s)
  {
    var drain := Drains(s);
    RunKeepsPromise(s, drain);
    var settle := Settles(After(s, drain), s.sends + Promise(s));
    RunsThen(s, drain, settle);
    steps := drain + settle;
  }

  // ----- from arrivals to sends -----

  /** Nothing the sender does in these steps takes a flag of the kind. */
  ghost predicate Untaken(steps: seq<Step>, kind: Kind) {
    forall j :: 0 <= j < |steps| ==> !(if kind == Ready then steps[j].SenderClearReady? else steps[j].SenderClearCommands?)
  }

  lemma {:induction false} StaysPending(s: State, steps: seq<Step>, kind: Kind)
    requires Runs(s, steps) && Pending(s, kind) && Untaken(steps, kind)
    ensures Pending(After(s, steps), kind)
    decreases |steps|
  {
    if steps != [] {
      PendingStep(s, steps[0], kind);
      forall j | 0 <= j < |steps[1..]|
        ensures !(if kind == Ready then steps[1..][j].SenderClearReady? else steps[1..][j].SenderClearCommands?)
      {
        assert steps[1..][j] == steps[j + 1];
      }
      StaysPending(Do(s, steps[0]), steps[1..], kind);
    }
  }

  /** An arrival is pending as long as the sender has not taken its kind since. */
  lemma ArrivedIsPending(steps: seq<Step>, i: nat, kind: Kind)
    requires Runs(INITIAL, steps) && i < |steps| && (if kind == Ready then IS_READY(steps[i]) else IS_CALL(steps[i]))
    requires Untaken(steps[i + 1..], kind)
    ensures Pending(After(INITIAL, steps), kind)
  {
    var before, rest := steps[..i], steps[i..];
    assert steps == before + rest;
    RunsAfter(INITIAL, before, rest);
    var s := After(INITIAL, before);
    assert rest[0] == steps[i] && rest[1..] == steps[i + 1..];
    Arrives(s, rest[0]);
    StaysPending(Do(s, rest[0]), rest[1..], kind);
  }

  /**
   Progress: in every run, once a ready message and a call have arrived that the sender has not taken
   yet, it can go on to a state with one more send; two more, when it still holds an earlier pair.
   */
  lemma Progress(steps: seq<Step>, i: nat, k: nat) returns (more: seq<Step>)
    requires Runs(INITIAL, steps) && i < |steps| && k < |steps| && IS_READY(steps[i]) && IS_CALL(steps[k])
    requires Untaken(steps[i + 1..], Ready) && Untaken(steps[k + 1..], Command)
    ensures Runs(INITIAL, steps + more)
    ensures var s := After(INITIAL, steps); After(INITIAL, steps + more).sends >= s.sends + 1 + Held(CommandsTaken(s.pc))
  {
    var s := After(INITIAL, steps);
    ArrivedIsPending(steps, i, Ready);
    ArrivedIsPending(steps, k, Command);
    assert Unset(INITIAL.ops, Ready) == {} && Unset(INITIAL.ops, Command) == {};
    RunKeepsInv(INITIAL, steps);
    more := Fulfils(s);
    RunsThen(INITIAL, steps, more);
  }
}
