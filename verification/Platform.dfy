/** Applying requested control values with rollback in reverse order. */
module Platform {
  import opened Prelude

  datatype Control = Control(controlId: string, target: string, value: string, mutating: bool)

  /** Independently recorded state of a control; the value may be missing. */
  datatype Observation = Observation(controlId: string, observed: Option<string>)

  type Hardware = map<string, string>

  datatype Operation = Applied(control: Control) | Restored(control: Control, value: string)

  datatype StepStatus = StepPlanned | StepApplied | ApplyFailed | StepRestored | RestorationFailed

  datatype Step = Step(controlId: string, status: StepStatus)

  datatype Restoration = Restoration(attempted: bool, complete: bool, steps: seq<Step>)

  datatype Mode = DryRun | Authorized

  datatype ApplyReport = ApplyReport(complete: bool, steps: seq<Step>, restoration: Restoration)

  /** The first observation recorded for a control. */
  function ObservationFor(prior: seq<Observation>, controlId: string): Option<Observation> {
    if prior == [] then None
    else if prior[0].controlId == controlId then Some(prior[0])
    else ObservationFor(prior[1..], controlId)
  }

  /** Position k holds the first observation of this control. */
  ghost predicate FirstOf(prior: seq<Observation>, controlId: string, k: nat) {
    && k < |prior| && prior[k].controlId == controlId
    && forall j :: 0 <= j < k ==> prior[j].controlId != controlId
  }

  /** The lookup is by control, and the first observation listed counts. */
  lemma {:induction false} ObservationIs(prior: seq<Observation>, controlId: string)
    ensures ObservationFor(prior, controlId).None? <==>
      forall k :: 0 <= k < |prior| ==> prior[k].controlId != controlId
    ensures ObservationFor(prior, controlId).Some? ==>
      exists k: nat :: FirstOf(prior, controlId, k) && ObservationFor(prior, controlId) == Some(prior[k])
  {
    if prior != [] {
      if prior[0].controlId == controlId {
        assert FirstOf(prior, controlId, 0);
      } else {
        ObservationIs(prior[1..], controlId);
        if ObservationFor(prior, controlId).Some? {
          var k: nat :| FirstOf(prior[1..], controlId, k)
            && ObservationFor(prior[1..], controlId) == Some(prior[1..][k]);
          assert FirstOf(prior, controlId, k + 1);
        }
      }
    }
  }

  /**
   The actuator: every attempt succeeds or fails as its script says. A failed apply leaves the
   hardware unchanged; a failed restore may leave any value in its target.
   */
  class Actuator {
    const script: nat -> bool
    const debris: nat -> string
    var attempts: nat
    var hardware: Hardware
    ghost var succeeded: seq<Operation>

    constructor (script: nat -> bool, debris: nat -> string, hardware: Hardware)
      ensures this.script == script && this.debris == debris && attempts == 0
      ensures this.hardware == hardware && succeeded == []
    {
      this.script := script;
      this.debris := debris;
      this.hardware := hardware;
      attempts := 0;
      succeeded := [];
    }

    method Apply(control: Control) returns (ok: bool)
      modifies this
      ensures ok == script(old(attempts)) && attempts == old(attempts) + 1
      ensures ok ==> hardware == old(hardware)[control.target := control.value]
      ensures ok ==> succeeded == old(succeeded) + [Applied(control)]
      ensures !ok ==> hardware == old(hardware) && succeeded == old(succeeded)
    {
      ok := script(attempts);
      attempts := attempts + 1;
      if ok {
        hardware := hardware[control.target := control.value];
        succeeded := succeeded + [Applied(control)];
      }
    }

    method Restore(control: Control, value: string) returns (ok: bool)
      modifies this
      ensures ok == script(old(attempts)) && attempts == old(attempts) + 1
      ensures !ok ==> hardware == old(hardware)[control.target := debris(old(attempts))]
      ensures ok ==> hardware == old(hardware)[control.target := value]
      ensures ok ==> succeeded == old(succeeded) + [Restored(control, value)]
      ensures !ok ==> succeeded == old(succeeded)
    {
      ok := script(attempts);
      if ok {
        hardware := hardware[control.target := value];
        succeeded := succeeded + [Restored(control, value)];
      } else {
        hardware := hardware[control.target := debris(attempts)];
      }
      attempts := attempts + 1;
    }
  }

  // ---------------------------------------------------------------- specification

  /** The hardware after applying controls in order. */
  ghost function AfterApply(h: Hardware, controls: seq<Control>): Hardware {
    if controls == [] then h
    else AfterApply(h, controls[..|controls| - 1])[controls[|controls| - 1].target := controls[|controls| - 1].value]
  }

  ghost predicate Recorded(prior: seq<Observation>, c: Control) {
    ObservationFor(prior, c.controlId).Some? && ObservationFor(prior, c.controlId).value.observed.Some?
  }

  ghost function RecordedValue(prior: seq<Observation>, c: Control): string
    requires Recorded(prior, c)
  {
    ObservationFor(prior, c.controlId).value.observed.value
  }

  ghost predicate HasObservation(prior: seq<Observation>, c: Control) {
    ObservationFor(prior, c.controlId).Some?
  }

  ghost predicate AllRecorded(prior: seq<Observation>, controls: seq<Control>) {
    forall k :: 0 <= k < |controls| ==> Recorded(prior, controls[k])
  }

  /** The hardware after restoring controls in reverse order. */
  ghost function AfterRestore(h: Hardware, controls: seq<Control>, prior: seq<Observation>): Hardware
    requires AllRecorded(prior, controls)
    decreases |controls|
  {
    if controls == [] then h
    else
      var last := controls[|controls| - 1];
      AfterRestore(h[last.target := RecordedValue(prior, last)], controls[..|controls| - 1], prior)
  }

  /** The restore operations of a complete rollback. */
  ghost function Rollback(controls: seq<Control>, prior: seq<Observation>): seq<Operation>
    requires AllRecorded(prior, controls)
  {
    if controls == [] then []
    else
      var last := controls[|controls| - 1];
      [Restored(last, RecordedValue(prior, last))] + Rollback(controls[..|controls| - 1], prior)
  }

  /** Everything a restoration step could leave alone is left alone. */
  lemma {:induction false} RestoreFrame(h: Hardware, controls: seq<Control>, prior: seq<Observation>, t: string)
    requires AllRecorded(prior, controls) && forall k :: 0 <= k < |controls| ==> controls[k].target != t
    ensures t in AfterRestore(h, controls, prior) <==> t in h
    ensures t in h ==> AfterRestore(h, controls, prior)[t] == h[t]
    decreases |controls|
  {
    if controls != [] {
      var last := controls[|controls| - 1];
      RestoreFrame(h[last.target := RecordedValue(prior, last)], controls[..|controls| - 1], prior, t);
    }
  }

  lemma {:induction false} ApplyFrame(h: Hardware, controls: seq<Control>, t: string)
    requires forall k :: 0 <= k < |controls| ==> controls[k].target != t
    ensures t in AfterApply(h, controls) <==> t in h
    ensures t in h ==> AfterApply(h, controls)[t] == h[t]
  {
    if controls != [] {
      ApplyFrame(h, controls[..|controls| - 1], t);
    }
  }

  /**
   After a rollback a target holds the value recorded for the first of the controls that drive
   it: this is what reverse order is for when controls share a target.
   */
  lemma {:induction false} RestoreFirstWins(h: Hardware, controls: seq<Control>, prior: seq<Observation>, k: nat)
    requires AllRecorded(prior, controls) && k < |controls|
    requires forall j :: 0 <= j < k ==> controls[j].target != controls[k].target
    ensures var r := AfterRestore(h, controls, prior);
            controls[k].target in r && r[controls[k].target] == RecordedValue(prior, controls[k])
    decreases |controls|
  {
    var last := controls[|controls| - 1];
    var h' := h[last.target := RecordedValue(prior, last)];
    if k < |controls| - 1 {
      RestoreFirstWins(h', controls[..|controls| - 1], prior, k);
    } else {
      RestoreFrame(h', controls[..|controls| - 1], prior, last.target);
    }
  }

  /** The recorded values are the hardware's values before the apply. */
  ghost predicate Accurate(h: Hardware, controls: seq<Control>, prior: seq<Observation>)
    requires AllRecorded(prior, controls)
  {
    forall k :: 0 <= k < |controls| ==>
      controls[k].target in h && h[controls[k].target] == RecordedValue(prior, controls[k])
  }

  lemma FirstFor(controls: seq<Control>, k: nat) returns (j: nat)
    requires k < |controls|
    ensures j <= k && controls[j].target == controls[k].target
    ensures forall i :: 0 <= i < j ==> controls[i].target != controls[k].target
  {
    j := 0;
    while controls[j].target != controls[k].target
      invariant j <= k
      invariant forall i :: 0 <= i < j ==> controls[i].target != controls[k].target
      decreases k - j
    {
      j := j + 1;
    }
  }

  /** With accurate records, a complete rollback is exactly the hardware before the apply. */
  lemma RollbackUndoesApply(h: Hardware, controls: seq<Control>, prior: seq<Observation>)
    requires AllRecorded(prior, controls) && Accurate(h, controls, prior)
    ensures AfterRestore(AfterApply(h, controls), controls, prior) == h
  {
    var r := AfterRestore(AfterApply(h, controls), controls, prior);
    forall t ensures (t in r <==> t in h) && (t in h ==> r[t] == h[t]) {
      if k :| 0 <= k < |controls| && controls[k].target == t {
        var j := FirstFor(controls, k);
        RestoreFirstWins(AfterApply(h, controls), controls, prior, j);
      } else {
        ApplyFrame(h, controls, t);
        RestoreFrame(AfterApply(h, controls), controls, prior, t);
      }
    }
    assert r.Keys == h.Keys;
    assert r == h;
  }

  // ---------------------------------------------------------------- operations

  ghost predicate AllRestored(steps: seq<Step>) {
    forall k :: 0 <= k < |steps| ==> steps[k].status == StepRestored
  }

  lemma AllRestoredAppend(steps: seq<Step>, step: Step)
    ensures AllRestored(steps + [step]) <==> AllRestored(steps) && step.status == StepRestored
  {
    var all := steps + [step];
    assert all[|steps|] == step;
    assert forall k :: 0 <= k < |steps| ==> all[k] == steps[k];
  }

  /** The steps name the applied controls from the last one down to the n-th. */
  ghost predicate NamesReversed(steps: seq<Step>, applied: seq<Control>, n: nat)
    requires n <= |applied|
  {
    && |steps| == |applied| - n
    && forall k :: 0 <= k < |steps| ==> steps[k].controlId == applied[|applied| - 1 - k].controlId
  }

  /** Every attempt in this range succeeds. */
  ghost predicate NoFailure(script: nat -> bool, from: nat, to: nat) {
    forall t: nat :: from <= t < to ==> script(t)
  }

  ghost predicate SameAt(h: Hardware, g: Hardware, t: string) {
    (t in h <==> t in g) && (t in h ==> h[t] == g[t])
  }

  /** No control from the n-th on drives t with a recorded value. */
  ghost predicate Unreached(applied: seq<Control>, prior: seq<Observation>, n: nat, t: string) {
    forall k :: n <= k < |applied| && applied[k].target == t ==> !Recorded(prior, applied[k])
  }

  /** What is left of a rollback once only the first n controls remain. */
  ghost predicate Remaining(h0: Hardware, done0: seq<Operation>, applied: seq<Control>, prior: seq<Observation>,
                            n: nat, h: Hardware, done: seq<Operation>)
    requires n <= |applied|
  {
    && (forall k :: n <= k < |applied| ==> Recorded(prior, applied[k]))
    && (AllRecorded(prior, applied) ==>
          && AfterRestore(h0, applied, prior) == AfterRestore(h, applied[..n], prior)
          && done0 + Rollback(applied, prior) == done + Rollback(applied[..n], prior))
  }

  lemma RemainingStart(h: Hardware, done: seq<Operation>, applied: seq<Control>, prior: seq<Observation>)
    ensures Remaining(h, done, applied, prior, |applied|, h, done)
  {
    assert applied[..|applied|] == applied;
  }

  lemma RemainingStep(h0: Hardware, done0: seq<Operation>, applied: seq<Control>, prior: seq<Observation>,
                      n: nat, h: Hardware, done: seq<Operation>)
    requires 0 < n <= |applied| && Remaining(h0, done0, applied, prior, n, h, done)
    requires Recorded(prior, applied[n - 1])
    ensures var c := applied[n - 1];
            var value := RecordedValue(prior, c);
            Remaining(h0, done0, applied, prior, n - 1, h[c.target := value], done + [Restored(c, value)])
  {
    var c := applied[n - 1];
    var op := Restored(c, RecordedValue(prior, c));
    if AllRecorded(prior, applied) {
      assert applied[..n][..n - 1] == applied[..n - 1];
      assert Rollback(applied[..n], prior) == [op] + Rollback(applied[..n - 1], prior);
      assert done + ([op] + Rollback(applied[..n - 1], prior)) == done + [op] + Rollback(applied[..n - 1], prior);
    }
  }

  /**
   Restores the applied controls, last first, as far as their records and the actuator allow: one
   failure does not stop the others from being attempted. When no call fails, the restoration is
   complete exactly when every control's record carries a value; a target that only controls
   without such a record drive is left as it is.
   */
  method RestorePlatformState(applied: seq<Control>, prior: seq<Observation>, actuator: Actuator)
    returns (report: Restoration)
    modifies actuator
    ensures report.attempted <==> applied != []
    ensures NamesReversed(report.steps, applied, 0)
    ensures report.complete <==> AllRestored(report.steps)
    ensures old(actuator.attempts) <= actuator.attempts
    ensures NoFailure(actuator.script, old(actuator.attempts), actuator.attempts) ==>
      (report.complete <==> AllRecorded(prior, applied))
    ensures forall t :: Unreached(applied, prior, 0, t) ==> SameAt(actuator.hardware, old(actuator.hardware), t)
    ensures report.complete ==>
      && AllRecorded(prior, applied)
      && actuator.hardware == AfterRestore(old(actuator.hardware), applied, prior)
      && actuator.succeeded == old(actuator.succeeded) + Rollback(applied, prior)
  {
    hide Remaining, Unreached, SameAt;
    report := Restoration(applied != [], true, []);
    NothingReached(actuator.hardware, applied, prior);
    ghost var h0 := actuator.hardware;
    ghost var done0 := actuator.succeeded;
    RemainingStart(h0, done0, applied, prior);
    var n := |applied|;
    while n > 0
      invariant 0 <= n <= |applied|
      invariant report.attempted <==> applied != []
      invariant NamesReversed(report.steps, applied, n)
      invariant report.complete <==> AllRestored(report.steps)
      invariant old(actuator.attempts) <= actuator.attempts
      invariant NoFailure(actuator.script, old(actuator.attempts), actuator.attempts) ==>
        (report.complete <==> forall k :: n <= k < |applied| ==> Recorded(prior, applied[k]))
      invariant forall t :: Unreached(applied, prior, n, t) ==> SameAt(actuator.hardware, h0, t)
      invariant report.complete ==>
        Remaining(h0, done0, applied, prior, n, actuator.hardware, actuator.succeeded)
    {
      n := n - 1;
      var control := applied[n];
      var observation := ObservationFor(prior, control.controlId);
      ReachedOne(applied, prior, n);
      if observation.None? || observation.value.observed.None? {
        AllRestoredAppend(report.steps, Step(control.controlId, RestorationFailed));
        report := report.(complete := false, steps := report.steps + [Step(control.controlId, RestorationFailed)]);
        continue;
      }
      ghost var h, done := actuator.hardware, actuator.succeeded;
      var ok := actuator.Restore(control, observation.value.observed.value);
      OneChanged(h, actuator.hardware, control.target, actuator.hardware[control.target]);
      assert NoFailure(actuator.script, old(actuator.attempts), actuator.attempts) <==>
        NoFailure(actuator.script, old(actuator.attempts), actuator.attempts - 1) && ok;
      KeepUnreached(applied, prior, n, h0, h, actuator.hardware);
      hide NoFailure;
      var step := Step(control.controlId, if ok then StepRestored else RestorationFailed);
      AllRestoredAppend(report.steps, step);
      if report.complete && ok {
        RemainingStep(h0, done0, applied, prior, n + 1, h, done);
      }
      report := report.(steps := report.steps + [step]);
      if !ok {
        report := report.(complete := false);
      }
    }
    if report.complete {
      RemainingEnd(h0, done0, applied, prior, actuator.hardware, actuator.succeeded);
    }
  }

  lemma NothingReached(h: Hardware, applied: seq<Control>, prior: seq<Observation>)
    ensures forall t :: Unreached(applied, prior, |applied|, t) ==> SameAt(h, h, t)
  {
  }

  lemma ReachedOne(applied: seq<Control>, prior: seq<Observation>, n: nat)
    requires n < |applied|
    ensures forall t :: Unreached(applied, prior, n, t) <==>
      Unreached(applied, prior, n + 1, t) && !(applied[n].target == t && Recorded(prior, applied[n]))
  {
    hide Recorded;
  }

  lemma OneChanged(h: Hardware, g: Hardware, target: string, v: string)
    requires g == h[target := v]
    ensures forall t :: t != target ==> SameAt(g, h, t)
  {
  }

  lemma KeepUnreached(applied: seq<Control>, prior: seq<Observation>, n: nat, h0: Hardware, h: Hardware, g: Hardware)
    requires n < |applied| && Recorded(prior, applied[n])
    requires forall t :: Unreached(applied, prior, n + 1, t) ==> SameAt(h, h0, t)
    requires forall t :: t != applied[n].target ==> SameAt(g, h, t)
    ensures forall t :: Unreached(applied, prior, n, t) ==> SameAt(g, h0, t)
  {
    ReachedOne(applied, prior, n);
    hide Recorded, Unreached;
    forall t | Unreached(applied, prior, n, t) ensures SameAt(g, h0, t) {
      assert SameAt(g, h, t) && SameAt(h, h0, t);
    }
  }

  lemma RemainingEnd(h0: Hardware, done0: seq<Operation>, applied: seq<Control>, prior: seq<Observation>,
                     h: Hardware, done: seq<Operation>)
    requires Remaining(h0, done0, applied, prior, 0, h, done)
    ensures AllRecorded(prior, applied)
    ensures h == AfterRestore(h0, applied, prior) && done == done0 + Rollback(applied, prior)
  {
    assert applied[..0] == [];
    assert done + [] == done;
  }

  /** The mutating controls of a request. */
  ghost function Mutating(controls: seq<Control>): seq<Control> {
    if controls == [] then []
    else
      var last := controls[|controls| - 1];
      Mutating(controls[..|controls| - 1]) + (if last.mutating then [last] else [])
  }

  lemma MutatingAppend(controls: seq<Control>, c: Control)
    ensures Mutating(controls + [c]) == Mutating(controls) + (if c.mutating then [c] else [])
  {
    var all := controls + [c];
    assert all[..|all| - 1] == controls;
  }

  ghost function Applies(controls: seq<Control>): seq<Operation> {
    if controls == [] then [] else Applies(controls[..|controls| - 1]) + [Applied(controls[|controls| - 1])]
  }

  /** The state of hardware and operation log after a request's first controls were applied. */
  ghost predicate Reached(
    h0: Hardware, done0: seq<Operation>, applied: seq<Control>, h: Hardware, done: seq<Operation>)
  {
    h == AfterApply(h0, applied) && done == done0 + Applies(applied)
  }

  lemma ReachedStep(
    h0: Hardware, done0: seq<Operation>, applied: seq<Control>, h: Hardware, done: seq<Operation>, c: Control)
    requires Reached(h0, done0, applied, h, done)
    ensures Reached(h0, done0, applied + [c], h[c.target := c.value], done + [Applied(c)])
  {
    var more := applied + [c];
    assert more[..|more| - 1] == applied;
    assert done0 + (Applies(applied) + [Applied(c)]) == done0 + Applies(applied) + [Applied(c)];
  }

  /** One step for each control before the n-th: applied when mutating, else only planned. */
  ghost predicate StepsUpTo(steps: seq<Step>, controls: seq<Control>, n: nat, dry: bool)
    requires n <= |controls|
  {
    && |steps| >= n
    && forall k :: 0 <= k < n ==>
         steps[k] == Step(controls[k].controlId, if !dry && controls[k].mutating then StepApplied else StepPlanned)
  }

  /**
   A rolled-back apply: the successful operations are the applies of a prefix followed by their
   restores in reverse; a target ends with the value recorded for the first control driving it;
   and when the records were accurate the hardware is exactly as before.
   */
  ghost predicate RolledBack(h0: Hardware, done0: seq<Operation>, applied: seq<Control>, prior: seq<Observation>,
                             h: Hardware, done: seq<Operation>) {
    && AllRecorded(prior, applied)
    && done == done0 + Applies(applied) + Rollback(applied, prior)
    && (forall k :: 0 <= k < |applied| && FirstOfTarget(applied, k) ==>
          applied[k].target in h && h[applied[k].target] == RecordedValue(prior, applied[k]))
    && (Accurate(h0, applied, prior) ==> h == h0)
  }

  ghost predicate FirstOfTarget(controls: seq<Control>, k: nat)
    requires k < |controls|
  {
    forall j :: 0 <= j < k ==> controls[j].target != controls[k].target
  }

  lemma CompleteRollback(h0: Hardware, done0: seq<Operation>, applied: seq<Control>, prior: seq<Observation>,
                         h1: Hardware, done1: seq<Operation>)
    requires Reached(h0, done0, applied, h1, done1) && AllRecorded(prior, applied)
    ensures RolledBack(h0, done0, applied, prior, AfterRestore(h1, applied, prior), done1 + Rollback(applied, prior))
  {
    forall k | 0 <= k < |applied| && FirstOfTarget(applied, k)
      ensures var r := AfterRestore(h1, applied, prior);
              applied[k].target in r && r[applied[k].target] == RecordedValue(prior, applied[k])
    {
      RestoreFirstWins(h1, applied, prior, k);
    }
    if Accurate(h0, applied, prior) {
      RollbackUndoesApply(h0, applied, prior);
    }
  }

  /**
   Applies the request's mutating controls in order. A dry run touches nothing. When a control
   fails or has no record, the ones applied before it are rolled back; if that rollback is
   complete, nothing of the request remains. When no restore call fails it is complete exactly
   when every applied control's record carries a value; what controls without one applied stays.
   */
  method ApplyRequestedState(
    controls: seq<Control>, prior: seq<Observation>, mode: Mode, backend: bool, actuator: Actuator)
    returns (report: ApplyReport)
    modifies actuator
    ensures mode == DryRun || !backend ==>
      actuator.hardware == old(actuator.hardware) && actuator.succeeded == old(actuator.succeeded)
    ensures mode == DryRun ==>
      report.complete && |report.steps| == |controls| && StepsUpTo(report.steps, controls, |controls|, true)
    ensures mode == Authorized && !backend ==> !report.complete && report.steps == []
    ensures mode == Authorized && backend && report.complete ==>
      && |report.steps| == |controls| && StepsUpTo(report.steps, controls, |controls|, false)
      && Reached(old(actuator.hardware), old(actuator.succeeded), Mutating(controls),
                 actuator.hardware, actuator.succeeded)
    ensures mode == Authorized && backend && !report.complete ==>
      var stop := |report.steps| - 1;
      && 0 <= stop < |controls| && controls[stop].mutating
      && StepsUpTo(report.steps, controls, stop, false)
      && report.steps[stop] == Step(controls[stop].controlId, ApplyFailed)
      && NamesReversed(report.restoration.steps, Mutating(controls[..stop]), 0)
      && (report.restoration.complete ==>
            RolledBack(old(actuator.hardware), old(actuator.succeeded), Mutating(controls[..stop]), prior,
                       actuator.hardware, actuator.succeeded))
    ensures mode == Authorized && backend && report.complete ==>
      Succeeds(prior, Mutating(controls), actuator.script, old(actuator.attempts))
    ensures mode == Authorized && backend && !report.complete ==>
      var stop := |report.steps| - 1;
      var applied := Mutating(controls[..stop]);
      && Succeeds(prior, applied, actuator.script, old(actuator.attempts))
      && (HasObservation(prior, controls[stop]) ==> !actuator.script(old(actuator.attempts) + |applied|))
      && (report.restoration.attempted <==> applied != [])
    ensures mode == Authorized && backend && !report.complete ==>
      var stop := |report.steps| - 1;
      var applied := Mutating(controls[..stop]);
      var begin := old(actuator.attempts) + |applied| + (if HasObservation(prior, controls[stop]) then 1 else 0);
      && begin <= actuator.attempts
      && (NoFailure(actuator.script, begin, actuator.attempts) ==>
            (report.restoration.complete <==> AllRecorded(prior, applied)))
      && (forall t :: Unreached(applied, prior, 0, t) ==>
            SameAt(actuator.hardware, AfterApply(old(actuator.hardware), applied), t))
  {
    hide Reached, RolledBack, Mutating, NamesReversed, Succeeds, NoFailure, Unreached, SameAt, AllRecorded;
    report := ApplyReport(true, [], Restoration(false, true, []));
    if mode == DryRun {
      for k := 0 to |controls|
        invariant report.complete && |report.steps| == k && StepsUpTo(report.steps, controls, k, true)
      {
        report := report.(steps := report.steps + [Step(controls[k].controlId, StepPlanned)]);
      }
      assert controls[..|controls|] == controls;
      return;
    }
    if !backend {
      report := report.(complete := false);
      return;
    }
    var applied: seq<Control> := [];
    ghost var h0, done0 := actuator.hardware, actuator.succeeded;
    NothingApplied(h0, done0);
    SucceedsNone(prior, actuator.script, old(actuator.attempts));
    for k := 0 to |controls|
      invariant report.complete && |report.steps| == k && StepsUpTo(report.steps, controls, k, false)
      invariant applied == Mutating(controls[..k])
      invariant Reached(h0, done0, applied, actuator.hardware, actuator.succeeded)
      invariant actuator.attempts == old(actuator.attempts) + |applied|
      invariant Succeeds(prior, applied, actuator.script, old(actuator.attempts))
    {
      var control := controls[k];
      assert controls[..k + 1] == controls[..k] + [control];
      MutatingAppend(controls[..k], control);
      if !control.mutating {
        report := report.(steps := report.steps + [Step(control.controlId, StepPlanned)]);
        continue;
      }
      var recorded := ObservationFor(prior, control.controlId).Some?;
      var ok := false;
      ghost var h, done := actuator.hardware, actuator.succeeded;
      if recorded {
        ok := actuator.Apply(control);
      }
      report := report.(steps := report.steps + [Step(control.controlId, if ok then StepApplied else ApplyFailed)]);
      if !ok {
        report := report.(complete := false);
        var restoration := RestorePlatformState(applied, prior, actuator);
        report := report.(restoration := restoration);
        ReachedHardware(h0, done0, applied, h, done);
        if restoration.complete {
          CompleteRollback(h0, done0, applied, prior, h, done);
        }
        return;
      }
      ReachedStep(h0, done0, applied, h, done, control);
      SucceedsStep(prior, applied, actuator.script, old(actuator.attempts), control);
      applied := applied + [control];
    }
    assert controls[..|controls|] == controls;
  }

  /** Applying these controls from attempt `from` on goes through: each is observed and its call succeeds. */
  ghost predicate Succeeds(prior: seq<Observation>, controls: seq<Control>, script: nat -> bool, from: nat) {
    forall k :: 0 <= k < |controls| ==> HasObservation(prior, controls[k]) && script(from + k)
  }

  lemma SucceedsNone(prior: seq<Observation>, script: nat -> bool, from: nat)
    ensures Succeeds(prior, [], script, from)
  {
  }

  lemma SucceedsStep(prior: seq<Observation>, controls: seq<Control>, script: nat -> bool, from: nat, c: Control)
    requires Succeeds(prior, controls, script, from) && HasObservation(prior, c) && script(from + |controls|)
    ensures Succeeds(prior, controls + [c], script, from)
  {
    var more := controls + [c];
    forall k | 0 <= k < |more| ensures HasObservation(prior, more[k]) && script(from + k) {
      assert k < |controls| ==> more[k] == controls[k];
    }
  }

  lemma ReachedHardware(h0: Hardware, done0: seq<Operation>, applied: seq<Control>, h: Hardware, done: seq<Operation>)
    requires Reached(h0, done0, applied, h, done)
    ensures h == AfterApply(h0, applied)
  {
  }

  /**
   Apply asks only that an observation exists, restore that it carries a value: here a control is
   applied that can never be restored, and its value stays although no restore call fails.
   */
  method UnrestorableControl(h: Hardware) returns (report: ApplyReport, actuator: Actuator)
    ensures fresh(actuator)
    ensures !report.complete && report.restoration.attempted && !report.restoration.complete
    ensures "t" in actuator.hardware && actuator.hardware["t"] == "new"
  {
    var first, second := Control("a", "t", "new", true), Control("b", "u", "new", true);
    var controls, prior := [first, second], [Observation("a", None), Observation("b", Some("old"))];
    actuator := new Actuator(n => n != 1, _ => "", h);
    report := ApplyRequestedState(controls, prior, Authorized, true, actuator);
    UnrestorableFacts(first, second, prior, h);
    hide Mutating, AfterApply, Unreached, ObservationFor, Recorded;
    SecondFails(prior, controls, actuator.script);
    var stop := |report.steps| - 1;
    assert controls[..0] == [] && controls[..1] == [first];
    assert Succeeds(prior, Mutating(controls[..stop]), actuator.script, 0);
    assert stop == 1;
    assert Unreached([first], prior, 0, "t");
    assert SameAt(actuator.hardware, AfterApply(h, [first]), "t");
  }

  lemma SecondFails(prior: seq<Observation>, controls: seq<Control>, script: nat -> bool)
    requires |controls| == 2 && !script(1)
    ensures !Succeeds(prior, controls, script, 0)
  {
    hide Succeeds;
    if Succeeds(prior, controls, script, 0) {
      SucceedsAt(prior, controls, script, 0, 1);
      assert false;
    }
  }

  lemma SucceedsAt(prior: seq<Observation>, controls: seq<Control>, script: nat -> bool, from: nat, k: nat)
    requires Succeeds(prior, controls, script, from) && k < |controls|
    ensures HasObservation(prior, controls[k]) && script(from + k)
  {
  }

  lemma UnrestorableFacts(first: Control, second: Control, prior: seq<Observation>, h: Hardware)
    requires first == Control("a", "t", "new", true) && second == Control("b", "u", "new", true)
    requires prior == [Observation("a", None), Observation("b", Some("old"))]
    ensures Mutating([]) == [] && Mutating([first]) == [first] && Mutating([first, second]) == [first, second]
    ensures HasObservation(prior, first) && !Recorded(prior, first) && HasObservation(prior, second)
    ensures Unreached([first], prior, 0, "t")
    ensures AfterApply(h, [first]) == h["t" := "new"]
  {
    var pair := [first, second];
    assert pair[..1] == [first] && [first][..0] == [];
    assert prior[1..] == [Observation("b", Some("old"))];
    assert "a"[0] != "b"[0];
  }

  lemma NothingApplied(h: Hardware, done: seq<Operation>)
    ensures Mutating([]) == [] && Reached(h, done, [], h, done)
  {
    assert done + [] == done;
  }
}
