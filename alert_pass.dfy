/** One alerting pass over the cluster alarm targets: evaluate each target in list
    order, apply the fire/recover rule, write the record back, then try to send
    the notice. */
module AlertPass {
  import opened JavaText
  import opened AlarmModel
  import opened AlarmState
  import opened Breach
  import opened Notification

  // ---------------------------------------------------------------------------
  // One target
  // ---------------------------------------------------------------------------

  /** A target either throws out of the pass, or yields its new record and the
      events it caused. */
  datatype StepResult = Abort | Done(record: AlarmClusterInfo, events: seq<Event>)

  /** The send attempt for a notice: none when the target has no notification
      group (the send throws and the exception is swallowed) or an unknown
      channel. */
  function Notify(edge: Edge, reading: Reading, r: AlarmClusterInfo, detail: Detail,
                  stringify: int -> string): seq<Event>
  {
    match reading.config
    case None => []
    case Some(config) =>
      match Compose(edge, config, r, detail, stringify)
      case None => []
      case Some(delivery) => [SendAttempt(delivery, reading.sendOk)]
  }

  /** What the pass does with one enabled target once it is evaluated: decide,
      write the changed record back, then attempt the notice. */
  function Finish(task: AlarmClusterInfo, reading: Reading, ev: Evaluation, stringify: int -> string): StepResult {
    var t := Decide(task, ev.verdict);
    var updated := Apply(task, t);
    match t
    case Stay => Done(task, [])
    case Fire => Done(updated, [Persisted(updated)] + Notify(Error, reading, updated, ev.onError, stringify))
    case Recover => Done(updated, [Persisted(updated)] + Notify(Normal, reading, updated, ev.onNormal, stringify))
  }

  /** What the pass does with one enabled target. */
  function Step(task: AlarmClusterInfo, reading: Reading, stringify: int -> string): StepResult {
    match Evaluate(task.spec, reading)
    case None => Abort
    case Some(ev) => Finish(task, reading, ev, stringify)
  }

  /** The first half of the loop body: read the target's metric and compare it
      with the configured bound. */
  method EvaluateTarget(spec: TargetSpec, reading: Reading) returns (ev: Option<Evaluation>)
    ensures ev == Evaluate(spec, reading)
  {
    match spec {
      case TopicSpec(topic, alarmCapacity) =>
        var realCapacity: Int64 := 0;
        if reading.capacity.Some? {
          realCapacity := reading.capacity.value;
        }
        var detail := TopicDetail(topic, alarmCapacity, realCapacity);
        ev := Some(Evaluation(Verdict(realCapacity > alarmCapacity, realCapacity < alarmCapacity), detail, detail));
      case ProducerSpec(topic, speed) =>
        var speeds := JavaSplit(speed, ',');
        var startSpeed: Int64, endSpeed: Int64 := 0, 0;
        if |speeds| == 2 {
          var parsedStart := ParseLong(speeds[0]);
          if parsedStart.None? {
            return None;
          }
          var parsedEnd := ParseLong(speeds[1]);
          if parsedEnd.None? {
            return None;
          }
          startSpeed, endSpeed := parsedStart.value, parsedEnd.value;
        }
        var realSpeed: Int64 := 0;
        if |reading.throughput| > 0 {
          realSpeed := reading.throughput[0];
        }
        var detail := ProducerDetail(topic, IntToString(startSpeed) + "," + IntToString(endSpeed), realSpeed);
        var breach := realSpeed < startSpeed || realSpeed > endSpeed;
        var recovered := realSpeed >= startSpeed && realSpeed <= endSpeed;
        ev := Some(Evaluation(Verdict(breach, recovered), detail, detail));
      case NodeSpec(servers) =>
        var ok, errorServers, normalServers := PartitionServers(JavaSplit(servers, ','), reading.probe);
        if !ok {
          return None;
        }
        ev := Some(Evaluation(Verdict(|errorServers| > 0, |errorServers| == 0),
                              NodeDetail(ListToString(errorServers)), NodeDetail(ListToString(normalServers))));
    }
  }

  /** The body of the pass's loop for one enabled target: evaluate it, then fire,
      recover or stay. */
  method EvaluateTask(task: AlarmClusterInfo, reading: Reading, stringify: int -> string)
    returns (step: StepResult)
    ensures step == Step(task, reading, stringify)
  {
    var ev := EvaluateTarget(task.spec, reading);
    if ev.None? {
      return Abort;
    }
    var breach, recovered := ev.value.verdict.breach, ev.value.verdict.recovered;
    if breach && (task.alarmTimes < task.alarmMaxTimes || task.alarmMaxTimes == -1) {
      var updated := task.(alarmTimes := Inc32(task.alarmTimes), isNormal := "N");
      step := Done(updated, [Persisted(updated)] + Notify(Error, reading, updated, ev.value.onError, stringify));
    } else if recovered {
      if task.isNormal == "N" {
        var updated := task.(alarmTimes := 0, isNormal := "Y");
        step := Done(updated, [Persisted(updated)] + Notify(Normal, reading, updated, ev.value.onNormal, stringify));
      } else {
        step := Done(task, []);
      }
    } else {
      step := Done(task, []);
    }
  }


  /** A step changes the record exactly when it emits events; the first event
      writes the new record back, and at most one send follows it, showing the new
      counter. */
  lemma StepEvents(task: AlarmClusterInfo, reading: Reading, stringify: int -> string)
    requires Step(task, reading, stringify).Done?
    ensures var s := Step(task, reading, stringify);
      && (s.events == [] <==> s.record == task)
      && (s.events != [] ==> s.events[0] == Persisted(s.record) && |s.events| <= 2)
      && (|s.events| == 2 ==>
            s.events[1].SendAttempt? && s.events[1].ok == reading.sendOk &&
            s.events[1].delivery.msg.alarmId == s.record.id &&
            s.events[1].delivery.msg.times == Counter(s.record.alarmTimes, s.record.alarmMaxTimes))
  {
    FinishEvents(task, reading, Evaluate(task.spec, reading).value, stringify);
  }

  lemma FinishEvents(task: AlarmClusterInfo, reading: Reading, ev: Evaluation, stringify: int -> string)
    ensures var s := Finish(task, reading, ev, stringify);
      && s.Done?
      && (s.events == [] <==> s.record == task)
      && (s.events != [] ==> s.events[0] == Persisted(s.record) && |s.events| <= 2)
      && (|s.events| == 2 ==>
            s.events[1].SendAttempt? && s.events[1].ok == reading.sendOk &&
            s.events[1].delivery.msg.alarmId == s.record.id &&
            s.events[1].delivery.msg.times == Counter(s.record.alarmTimes, s.record.alarmMaxTimes))
  {
    TransitionChangesRecord(task, ev.verdict);
    var t := Decide(task, ev.verdict);
    if t != Stay {
      var edge := if t == Fire then Error else Normal;
      var r := Apply(task, t);
      var detail := if t == Fire then ev.onError else ev.onNormal;
      if reading.config.Some? && Compose(edge, reading.config.value, r, detail, stringify).Some? {
        PlainOrWeChatCounter(edge, reading.config.value, r, detail, stringify);
      }
    }
  }

  lemma PlainOrWeChatCounter(edge: Edge, config: AlarmConfig, r: AlarmClusterInfo, detail: Detail,
                             stringify: int -> string)
    requires Compose(edge, config, r, detail, stringify).Some?
    ensures Compose(edge, config, r, detail, stringify).value.msg.alarmId == r.id
    ensures Compose(edge, config, r, detail, stringify).value.msg.times == Counter(r.alarmTimes, r.alarmMaxTimes)
  {
  }

  /** The fire edge through a whole step: on a breach the cap allows, the counter
      goes up by one, the flag becomes "N", the record is written, and then the
      error notice (if any) is attempted; a failed send leaves the update in place. */
  lemma StepFires(task: AlarmClusterInfo, reading: Reading, stringify: int -> string)
    requires Evaluate(task.spec, reading).Some?
    requires Evaluate(task.spec, reading).value.verdict.breach && CapAllows(task)
    ensures var s := Step(task, reading, stringify);
      && s.Done?
      && s.record == task.(alarmTimes := Inc32(task.alarmTimes), isNormal := "N")
      && s.events == [Persisted(s.record)] +
           Notify(Error, reading, s.record, Evaluate(task.spec, reading).value.onError, stringify)
      && s.record == Step(task, reading.(sendOk := !reading.sendOk), stringify).record
  {
  }

  /** The recovery edge through a whole step: a recovering reading on an "N" target
      resets it, writes it, then attempts the normal notice; on a "Y" target it
      does nothing. */
  lemma StepRecovers(task: AlarmClusterInfo, reading: Reading, stringify: int -> string)
    requires Evaluate(task.spec, reading).Some?
    requires !Evaluate(task.spec, reading).value.verdict.breach
    requires Evaluate(task.spec, reading).value.verdict.recovered
    ensures var s := Step(task, reading, stringify);
      && s.Done?
      && (task.isNormal == "N" ==>
            s.record == task.(alarmTimes := 0, isNormal := "Y") &&
            s.events == [Persisted(s.record)] +
              Notify(Normal, reading, s.record, Evaluate(task.spec, reading).value.onNormal, stringify))
      && (task.isNormal != "N" ==> s.record == task && s.events == [])
  {
  }

  /** A topic reading exactly at its threshold changes nothing and sends nothing. */
  lemma StepTopicAtThreshold(task: AlarmClusterInfo, reading: Reading, stringify: int -> string)
    requires task.spec.TopicSpec? && reading.capacity == Some(task.spec.capacity)
    ensures Step(task, reading, stringify) == Done(task, [])
  {
    TopicBoundary(task, task.spec.capacity);
  }

  /** Recovery is idempotent: the same good reading again, on the recovered record,
      changes nothing and sends nothing. */
  lemma StepRecoverIdempotent(task: AlarmClusterInfo, reading: Reading, stringify: int -> string)
    requires Step(task, reading, stringify).Done?
    requires Step(task, reading, stringify).record.isNormal == "Y"
    requires Evaluate(task.spec, reading).value.verdict.recovered
    ensures var s := Step(task, reading, stringify);
      Step(s.record, reading, stringify) == Done(s.record, [])
  {
    var ev := Evaluate(task.spec, reading).value;
    EvaluateExclusive(task.spec, reading);
    var r := Step(task, reading, stringify).record;
    assert r.spec == task.spec;
  }

  /** At a finite cap that has been reached, a continuing breach of any kind of
      target changes nothing and sends nothing. */
  lemma StepSilentAtCap(task: AlarmClusterInfo, reading: Reading, stringify: int -> string)
    requires Evaluate(task.spec, reading).Some?
    requires Evaluate(task.spec, reading).value.verdict.breach
    requires task.alarmMaxTimes != -1 && task.alarmTimes >= task.alarmMaxTimes
    ensures Step(task, reading, stringify) == Done(task, [])
  {
    EvaluateExclusive(task.spec, reading);
    CapSuppression(task, Evaluate(task.spec, reading).value.verdict);
  }

  /** A counter within a finite cap stays within it. */
  lemma StepKeepsBound(task: AlarmClusterInfo, reading: Reading, stringify: int -> string)
    requires Bounded(task) && Step(task, reading, stringify).Done?
    ensures Bounded(Step(task, reading, stringify).record)
  {
    DecideKeepsBound(task, Evaluate(task.spec, reading).value.verdict);
  }

  /** With the cap at -1 the counter is a Java int: the firing after 2147483647
      wraps it to -2147483648. */
  lemma StepUnlimitedWraps(task: AlarmClusterInfo, reading: Reading, stringify: int -> string)
    requires Evaluate(task.spec, reading).Some? && Evaluate(task.spec, reading).value.verdict.breach
    requires task.alarmMaxTimes == -1 && task.alarmTimes == MaxInt32
    ensures Step(task, reading, stringify).record.alarmTimes == MinInt32
  {
  }

  /** A topic at 1000 bytes' threshold, normal with counter 0 and cap 3, reading
      1500: it fires, the counter becomes 1, the mail says PROBLEM and carries both
      capacities; reading 900 next, it recovers to 0 with a NORMAL mail. */
  lemma TopicScenario(task: AlarmClusterInfo, first: Reading, second: Reading, config: AlarmConfig,
                      stringify: int -> string)
    requires task.spec.TopicSpec? && task.spec.capacity == 1000
    requires task.alarmTimes == 0 && task.alarmMaxTimes == 3 && task.isNormal == "Y"
    requires config.channel == Email
    requires first.config == Some(config) && first.capacity == Some(1500)
    requires second.config == Some(config) && second.capacity == Some(900)
    ensures var s1 := Step(task, first, stringify);
      && s1.Done? && s1.record.alarmTimes == 1 && s1.record.isNormal == "N" && |s1.events| == 2
      && s1.events[1].delivery.msg.status == "PROBLEM"
      && s1.events[1].delivery.msg.content ==
           Content(Error, TopicDetail(task.spec.topic, 1000, 1500), stringify)
      && var s2 := Step(s1.record, second, stringify);
      && s2.Done? && s2.record.alarmTimes == 0 && s2.record.isNormal == "Y" && |s2.events| == 2
      && s2.events[1].delivery.msg.status == "NORMAL"
  {
  }

  // ---------------------------------------------------------------------------
  // The whole pass
  // ---------------------------------------------------------------------------

  /** How a pass ends: after the last target, at the first disabled target, or at
      a target whose evaluation throws out of the pass. */
  datatype PassOutcome = Completed | StoppedAtDisabled(at: nat) | Aborted(at: nat)

  datatype PassResult = PassResult(records: seq<AlarmClusterInfo>, trace: seq<Event>, outcome: PassOutcome)

  /** The pass from target i on, with the events so far. */
  function RunFrom(tasks: seq<AlarmClusterInfo>, readings: seq<Reading>, i: nat, trace: seq<Event>,
                   stringify: int -> string): (res: PassResult)
    requires |readings| == |tasks| && i <= |tasks|
    ensures |res.records| == |tasks|
    decreases |tasks| - i
  {
    if i == |tasks| then PassResult(tasks, trace, Completed)
    else if tasks[i].disabled then PassResult(tasks, trace, StoppedAtDisabled(i))
    else
      match Step(tasks[i], readings[i], stringify)
      case Abort => PassResult(tasks, trace, Aborted(i))
      case Done(r, events) => RunFrom(tasks[i := r], readings, i + 1, trace + events, stringify)
  }

  function RunPass(tasks: seq<AlarmClusterInfo>, readings: seq<Reading>, stringify: int -> string): PassResult
    requires |readings| == |tasks|
  {
    RunFrom(tasks, readings, 0, [], stringify)
  }

  /** The index where the pass stopped (the length when it completed). */
  function End(res: PassResult): nat {
    match res.outcome
    case Completed => |res.records|
    case StoppedAtDisabled(k) => k
    case Aborted(k) => k
  }

  function EventsOf(s: StepResult): seq<Event> {
    match s
    case Abort => []
    case Done(_, events) => events
  }

  /** The events of targets lo .. hi-1, in list order. */
  function TraceOf(tasks: seq<AlarmClusterInfo>, readings: seq<Reading>, lo: nat, hi: nat,
                   stringify: int -> string): seq<Event>
    requires lo <= hi <= |tasks| == |readings|
    decreases hi - lo
  {
    if lo == hi then []
    else EventsOf(Step(tasks[lo], readings[lo], stringify)) + TraceOf(tasks, readings, lo + 1, hi, stringify)
  }

  lemma {:induction false} TraceOfFrame(tasks: seq<AlarmClusterInfo>, tasks': seq<AlarmClusterInfo>,
                                        readings: seq<Reading>, lo: nat, hi: nat, stringify: int -> string)
    requires lo <= hi <= |tasks| == |readings| == |tasks'|
    requires forall j :: lo <= j < hi ==> tasks[j] == tasks'[j]
    ensures TraceOf(tasks, readings, lo, hi, stringify) == TraceOf(tasks', readings, lo, hi, stringify)
    decreases hi - lo
  {
    if lo < hi {
      assert tasks[lo] == tasks'[lo];
      TraceOfFrame(tasks, tasks', readings, lo + 1, hi, stringify);
    }
  }

  /** Where the pass from target i on stops, and why: every target outside the
      stretch it walked is left as it was, and it stops at a disabled target or at
      one whose evaluation throws, or after the last. */
  lemma {:induction false} RunFromEnd(tasks: seq<AlarmClusterInfo>, readings: seq<Reading>, i: nat,
                                      trace: seq<Event>, stringify: int -> string)
    requires |readings| == |tasks| && i <= |tasks|
    ensures var res := RunFrom(tasks, readings, i, trace, stringify);
      && i <= End(res) <= |tasks|
      && (forall j :: 0 <= j < i ==> res.records[j] == tasks[j])
      && (forall j :: End(res) <= j < |tasks| ==> res.records[j] == tasks[j])
      && (res.outcome.StoppedAtDisabled? ==> End(res) < |tasks| && tasks[End(res)].disabled)
      && (res.outcome.Aborted? ==>
            End(res) < |tasks| && !tasks[End(res)].disabled && Step(tasks[End(res)], readings[End(res)], stringify).Abort?)
    decreases |tasks| - i
  {
    if i < |tasks| && !tasks[i].disabled && Step(tasks[i], readings[i], stringify).Done? {
      var s := Step(tasks[i], readings[i], stringify);
      var tasks' := tasks[i := s.record];
      var res := RunFrom(tasks', readings, i + 1, trace + s.events, stringify);
      assert res == RunFrom(tasks, readings, i, trace, stringify);
      RunFromEnd(tasks', readings, i + 1, trace + s.events, stringify);
      var e := End(res);
      assert forall j :: 0 <= j < |tasks| && j != i ==> tasks'[j] == tasks[j];
      if res.outcome.StoppedAtDisabled? || res.outcome.Aborted? {
        assert tasks'[e] == tasks[e];
      }
    }
  }

  /** Every target the pass walked past was enabled, evaluated without throwing,
      and holds its step's record. */
  lemma {:induction false} RunFromStepped(tasks: seq<AlarmClusterInfo>, readings: seq<Reading>, i: nat,
                                          trace: seq<Event>, stringify: int -> string)
    requires |readings| == |tasks| && i <= |tasks|
    ensures var res := RunFrom(tasks, readings, i, trace, stringify);
      && End(res) <= |tasks|
      && forall j :: i <= j < End(res) ==>
        !tasks[j].disabled && Step(tasks[j], readings[j], stringify).Done? &&
        res.records[j] == Step(tasks[j], readings[j], stringify).record
    decreases |tasks| - i
  {
    if i < |tasks| && !tasks[i].disabled && Step(tasks[i], readings[i], stringify).Done? {
      var s := Step(tasks[i], readings[i], stringify);
      var tasks' := tasks[i := s.record];
      var res := RunFrom(tasks', readings, i + 1, trace + s.events, stringify);
      assert res == RunFrom(tasks, readings, i, trace, stringify);
      RunFromStepped(tasks', readings, i + 1, trace + s.events, stringify);
      RunFromEnd(tasks', readings, i + 1, trace + s.events, stringify);
      assert res.records[i] == s.record;
      assert forall j :: i < j < |tasks| ==> tasks'[j] == tasks[j];
    } else {
      RunFromEnd(tasks, readings, i, trace, stringify);
    }
  }

  /** The events of the pass from target i on are those of the targets it walked,
      in list order, after the ones already collected. */
  lemma {:induction false} RunFromTrace(tasks: seq<AlarmClusterInfo>, readings: seq<Reading>, i: nat,
                                        trace: seq<Event>, stringify: int -> string)
    requires |readings| == |tasks| && i <= |tasks|
    ensures var res := RunFrom(tasks, readings, i, trace, stringify);
      i <= End(res) <= |tasks| && res.trace == trace + TraceOf(tasks, readings, i, End(res), stringify)
    decreases |tasks| - i
  {
    RunFromEnd(tasks, readings, i, trace, stringify);
    if i < |tasks| && !tasks[i].disabled && Step(tasks[i], readings[i], stringify).Done? {
      var s := Step(tasks[i], readings[i], stringify);
      var tasks' := tasks[i := s.record];
      var res := RunFrom(tasks', readings, i + 1, trace + s.events, stringify);
      assert res == RunFrom(tasks, readings, i, trace, stringify);
      RunFromTrace(tasks', readings, i + 1, trace + s.events, stringify);
      var e := End(res);
      var rest := TraceOf(tasks, readings, i + 1, e, stringify);
      assert TraceOf(tasks', readings, i + 1, e, stringify) == rest by {
        TraceOfFrame(tasks, tasks', readings, i + 1, e, stringify);
      }
      assert TraceOf(tasks, readings, i, e, stringify) == s.events + rest;
      assert (trace + s.events) + rest == trace + (s.events + rest);
    }
  }

  /** The pass ends at the first disabled target, unless a target before it throws;
      nothing from there on is changed. */
  lemma FirstDisabledEndsPass(tasks: seq<AlarmClusterInfo>, readings: seq<Reading>, stringify: int -> string, k: nat)
    requires |readings| == |tasks| && k < |tasks| && tasks[k].disabled
    requires forall j :: 0 <= j < k ==> !tasks[j].disabled && Step(tasks[j], readings[j], stringify).Done?
    ensures var res := RunPass(tasks, readings, stringify);
      && res.outcome == StoppedAtDisabled(k)
      && (forall j :: k <= j < |tasks| ==> res.records[j] == tasks[j])
  {
    RunFromEnd(tasks, readings, 0, [], stringify);
    RunFromStepped(tasks, readings, 0, [], stringify);
  }

  /** Targets at and after the first disabled one are not evaluated: what is read
      for them makes no difference to the pass. */
  lemma {:induction false} ReadingsAfterDisabledUnused(tasks: seq<AlarmClusterInfo>, r1: seq<Reading>, r2: seq<Reading>,
                                                       i: nat, trace: seq<Event>, stringify: int -> string, k: nat)
    requires |r1| == |r2| == |tasks| && i <= k < |tasks| && tasks[k].disabled
    requires forall j :: i <= j < k ==> r1[j] == r2[j]
    ensures RunFrom(tasks, r1, i, trace, stringify) == RunFrom(tasks, r2, i, trace, stringify)
    decreases |tasks| - i
  {
    if i < k && !tasks[i].disabled && Step(tasks[i], r1[i], stringify).Done? {
      var s := Step(tasks[i], r1[i], stringify);
      ReadingsAfterDisabledUnused(tasks[i := s.record], r1, r2, i + 1, trace + s.events, stringify, k);
    }
  }

  /** One target's evaluation and new record do not depend on whether its send
      goes through. */
  lemma StepIgnoresSendOutcome(task: AlarmClusterInfo, r1: Reading, r2: Reading, stringify: int -> string)
    requires r2 == r1.(sendOk := r2.sendOk)
    ensures Step(task, r1, stringify).Abort? == Step(task, r2, stringify).Abort?
    ensures Step(task, r1, stringify).Done? ==> Step(task, r1, stringify).record == Step(task, r2, stringify).record
  {
    assert Evaluate(task.spec, r1) == Evaluate(task.spec, r2) by {
      assert r1.capacity == r2.capacity && r1.throughput == r2.throughput && r1.probe == r2.probe;
    }
  }

  /** Whether sends go through changes neither any record nor where the pass ends:
      a failed send never undoes a state update or stops the pass. */
  lemma {:induction false} SendOutcomeIrrelevant(tasks: seq<AlarmClusterInfo>, r1: seq<Reading>, r2: seq<Reading>,
                                                 i: nat, t1: seq<Event>, t2: seq<Event>, stringify: int -> string)
    requires |r1| == |r2| == |tasks| && i <= |tasks|
    requires forall j :: 0 <= j < |tasks| ==> r2[j] == r1[j].(sendOk := r2[j].sendOk)
    ensures RunFrom(tasks, r1, i, t1, stringify).records == RunFrom(tasks, r2, i, t2, stringify).records
    ensures RunFrom(tasks, r1, i, t1, stringify).outcome == RunFrom(tasks, r2, i, t2, stringify).outcome
    decreases |tasks| - i
  {
    if i < |tasks| && !tasks[i].disabled {
      var s1, s2 := Step(tasks[i], r1[i], stringify), Step(tasks[i], r2[i], stringify);
      StepIgnoresSendOutcome(tasks[i], r1[i], r2[i], stringify);
      if s1.Done? {
        SendOutcomeIrrelevant(tasks[i := s1.record], r1, r2, i + 1, t1 + s1.events, t2 + s2.events, stringify);
      }
    }
  }

  /** Each target whose counter starts within its finite cap is still within it after
      the pass, whatever the caps of the other targets. */
  lemma PassKeepsBound(tasks: seq<AlarmClusterInfo>, readings: seq<Reading>, stringify: int -> string)
    requires |readings| == |tasks|
    ensures forall j :: 0 <= j < |tasks| && Bounded(tasks[j]) ==> Bounded(RunPass(tasks, readings, stringify).records[j])
  {
    RunFromEnd(tasks, readings, 0, [], stringify);
    RunFromStepped(tasks, readings, 0, [], stringify);
    var res := RunPass(tasks, readings, stringify);
    forall j | 0 <= j < |tasks| && Bounded(tasks[j]) ensures Bounded(res.records[j]) {
      if j < End(res) {
        StepKeepsBound(tasks[j], readings[j], stringify);
      } else {
        assert res.records[j] == tasks[j];
      }
    }
  }

  /** Every send in a trace comes right after the write of the record it reports,
      and shows that record's counter. */
  predicate SendsFollowPersists(trace: seq<Event>) {
    forall k :: 0 <= k < |trace| && trace[k].SendAttempt? ==>
      && k > 0 && trace[k - 1].Persisted?
      && trace[k].delivery.msg.alarmId == trace[k - 1].record.id
      && trace[k].delivery.msg.times == Counter(trace[k - 1].record.alarmTimes, trace[k - 1].record.alarmMaxTimes)
  }

  /** Gluing two well-formed traces, the second opening with a write, keeps the
      sends right after their writes. */
  lemma SendsFollowPersistsConcat(a: seq<Event>, b: seq<Event>)
    requires SendsFollowPersists(a) && SendsFollowPersists(b)
    requires |b| > 0 ==> b[0].Persisted?
    ensures SendsFollowPersists(a + b)
  {
    var all := a + b;
    forall k | 0 <= k < |all| && all[k].SendAttempt?
      ensures k > 0 && all[k - 1].Persisted?
      ensures all[k].delivery.msg.alarmId == all[k - 1].record.id
      ensures all[k].delivery.msg.times == Counter(all[k - 1].record.alarmTimes, all[k - 1].record.alarmMaxTimes)
    {
      if k < |a| {
        assert all[k] == a[k] && all[k - 1] == a[k - 1];
      } else {
        assert all[k] == b[k - |a|];
        assert all[k - 1] == b[k - |a| - 1];
      }
    }
  }

  /** The events of one step are well formed and open with a write. */
  lemma StepSendsFollowPersists(task: AlarmClusterInfo, reading: Reading, stringify: int -> string)
    ensures SendsFollowPersists(EventsOf(Step(task, reading, stringify)))
    ensures |EventsOf(Step(task, reading, stringify))| > 0 ==> EventsOf(Step(task, reading, stringify))[0].Persisted?
  {
    var s := Step(task, reading, stringify);
    if s.Done? {
      StepEvents(task, reading, stringify);
      var e := s.events;
      assert forall k :: 0 <= k < |e| && e[k].SendAttempt? ==> k == 1;
    }
  }

  lemma {:induction false} TraceOfSendsFollowPersists(tasks: seq<AlarmClusterInfo>, readings: seq<Reading>,
                                                      lo: nat, hi: nat, stringify: int -> string)
    requires lo <= hi <= |tasks| == |readings|
    ensures SendsFollowPersists(TraceOf(tasks, readings, lo, hi, stringify))
    ensures |TraceOf(tasks, readings, lo, hi, stringify)| > 0 ==> TraceOf(tasks, readings, lo, hi, stringify)[0].Persisted?
    decreases hi - lo
  {
    if lo < hi {
      var head := EventsOf(Step(tasks[lo], readings[lo], stringify));
      var rest := TraceOf(tasks, readings, lo + 1, hi, stringify);
      assert TraceOf(tasks, readings, lo, hi, stringify) == head + rest;
      TraceOfSendsFollowPersists(tasks, readings, lo + 1, hi, stringify);
      StepSendsFollowPersists(tasks[lo], readings[lo], stringify);
      SendsFollowPersistsConcat(head, rest);
      if |head| == 0 {
        assert head + rest == rest;
      } else {
        assert (head + rest)[0] == head[0];
      }
    }
  }

  /** In the whole pass, every send attempt comes right after the write of the
      record it reports: no notice goes out without a state change, and the
      state change is persisted first. */
  lemma PassSendsFollowPersists(tasks: seq<AlarmClusterInfo>, readings: seq<Reading>, stringify: int -> string)
    requires |readings| == |tasks|
    ensures SendsFollowPersists(RunPass(tasks, readings, stringify).trace)
  {
    RunFromTrace(tasks, readings, 0, [], stringify);
    var res := RunPass(tasks, readings, stringify);
    var walked := TraceOf(tasks, readings, 0, End(res), stringify);
    TraceOfSendsFollowPersists(tasks, readings, 0, End(res), stringify);
    assert res.trace == [] + walked;
    assert [] + walked == walked;
  }

  // ---------------------------------------------------------------------------
  // The pass as the source runs it: in place over the list of targets
  // ---------------------------------------------------------------------------

  /** Walk the targets in order; stop at the first disabled one; evaluate each
      other target, write its new record back into the list and collect the events
      it caused. */
  method Cluster(tasks: array<AlarmClusterInfo>, readings: seq<Reading>, stringify: int -> string)
    returns (trace: seq<Event>, outcome: PassOutcome)
    requires |readings| == tasks.Length
    modifies tasks
    ensures RunPass(old(tasks[..]), readings, stringify) == PassResult(tasks[..], trace, outcome)
  {
    trace := [];
    var i := 0;
    while i < tasks.Length
      invariant 0 <= i <= tasks.Length
      invariant RunFrom(tasks[..], readings, i, trace, stringify) == RunPass(old(tasks[..]), readings, stringify)
    {
      var task := tasks[i];
      if task.disabled {
        return trace, StoppedAtDisabled(i);
      }
      var step := EvaluateTask(task, readings[i], stringify);
      if step.Abort? {
        return trace, Aborted(i);
      }
      tasks[i] := step.record;
      trace := trace + step.events;
      i := i + 1;
    }
    outcome := Completed;
  }
}
