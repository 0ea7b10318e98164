/** The records the alerting pass reads, writes and sends. */
module AlarmModel {
  import opened JavaText

  /** The type-specific part of an alarm target, as the record's `server` text
      holds it once its JSON is read: a topic with its capacity threshold, a
      producer with its "low,high" speed text, or, for every other type, the
      comma-separated "host:port" list of the nodes to probe. */
  datatype TargetSpec =
    | TopicSpec(topic: string, capacity: Int64)
    | ProducerSpec(topic: string, speed: string)
    | NodeSpec(servers: string)

  /** The three kinds of target, as the message's project field names them. */
  datatype AlarmKind = TopicKind | ProducerKind | NodeKind

  function KindOf(spec: TargetSpec): AlarmKind {
    match spec
    case TopicSpec(_, _) => TopicKind
    case ProducerSpec(_, _) => ProducerKind
    case NodeSpec(_) => NodeKind
  }

  /** One alarm target and its persistent alarm state. `disabled` holds when the
      record's enable flag equals the DISABLE constant; `isNormal` is "Y" or "N". */
  datatype AlarmClusterInfo = AlarmClusterInfo(
    id: int,
    cluster: string,
    disabled: bool,
    alarmGroup: string,
    alarmLevel: string,
    spec: TargetSpec,
    alarmTimes: Int32,
    alarmMaxTimes: Int32,
    isNormal: string)

  /** The channel a notification group uses. */
  datatype ChannelType = Email | DingDing | WeChat | OtherChannel(name: string)

  /** The notification group of a target. `urlIsJsonObject` is whether the
      configured URL text is itself a JSON object (it picks the mail body form). */
  datatype AlarmConfig = AlarmConfig(
    cluster: string,
    channel: ChannelType,
    url: string,
    address: string,
    urlIsJsonObject: bool)

  /** What a TCP probe of one host and port reports: the probe answered true or
      false, or it threw. */
  datatype Probe = Reachable | Unreachable | ProbeFailed

  /** Everything the pass learns from outside for one target: the notification
      group (None when the lookup finds none), the topic capacity (None when the
      metrics call throws), the day's throughput rows, the answer of the probe of
      the node entry at each position of the list (at its host and port), and
      whether the outbound send succeeds. */
  datatype Reading = Reading(
    config: Option<AlarmConfig>,
    capacity: Option<Int64>,
    throughput: seq<Int64>,
    probe: (nat, string, Int32) -> Probe,
    sendOk: bool)

  /** The facts a notification reports, per kind of target. */
  datatype Detail =
    | TopicDetail(topic: string, alarmCapacity: int, realCapacity: int)
    | ProducerDetail(topic: string, alarmSpeeds: string, realSpeeds: int)
    | NodeDetail(servers: string)

  /** Which edge a notification reports. */
  datatype Edge = Error | Normal

  /** The composed message (its date is not modelled). */
  datatype AlarmMessage = AlarmMessage(
    alarmId: int,
    cluster: string,
    title: string,
    content: string,
    level: string,
    project: AlarmKind,
    status: string,
    times: string)

  /** One outbound send: a mail post (with the message as JSON or as plain text),
      or a post to a DingDing or WeChat webhook. */
  datatype Delivery =
    | MailPost(address: string, title: string, jsonBody: bool, msg: AlarmMessage, url: string)
    | DingDingPost(msg: AlarmMessage, url: string)
    | WeChatPost(msg: AlarmMessage, url: string)

  /** The externally visible effects of a pass, in order: a record written back to
      the store, or a send attempted (and whether it went through). */
  datatype Event =
    | Persisted(record: AlarmClusterInfo)
    | SendAttempt(delivery: Delivery, ok: bool)
}

/** The per-target alarm state machine: fire, recover or stay. */
module AlarmState {
  import opened JavaText
  import opened AlarmModel

  /** A rule's answer: is the target in breach, and does it meet the recovery
      condition (checked only when it does not fire). */
  datatype Verdict = Verdict(breach: bool, recovered: bool)

  datatype Transition = Fire | Recover | Stay

  /** Firing is allowed below the cap, or always when the cap is -1. */
  predicate CapAllows(r: AlarmClusterInfo) {
    r.alarmTimes < r.alarmMaxTimes || r.alarmMaxTimes == -1
  }

  /** Java `int` increment: the low-order 32 bits of the exact sum, read as a
      two's-complement number. */
  function Inc32(x: Int32): (y: Int32)
    ensures y as int == (x as int + 1 - MinInt32) % 0x1_0000_0000 + MinInt32
    ensures y != x
  {
    if x == MaxInt32 then MinInt32 else x + 1
  }

  /** `if (breach && cap) fire; else if (recovered) { if (isNormal is "N") recover; }` */
  function Decide(r: AlarmClusterInfo, v: Verdict): Transition {
    if v.breach && CapAllows(r) then Fire
    else if v.recovered && r.isNormal == "N" then Recover
    else Stay
  }

  /** The record after a transition. */
  function Apply(r: AlarmClusterInfo, t: Transition): AlarmClusterInfo {
    match t
    case Fire => r.(alarmTimes := Inc32(r.alarmTimes), isNormal := "N")
    case Recover => r.(alarmTimes := 0, isNormal := "Y")
    case Stay => r
  }

  /** A rule whose breach condition rules out its recovery condition. */
  predicate Exclusive(v: Verdict) {
    v.breach ==> !v.recovered
  }

  /** A counter within a finite cap. */
  predicate Bounded(r: AlarmClusterInfo) {
    0 <= r.alarmTimes <= r.alarmMaxTimes
  }

  /** Firing: exactly on a breach the cap allows; it adds one to the counter and
      marks the target abnormal, and changes nothing else. */
  lemma FireEdge(r: AlarmClusterInfo, v: Verdict)
    ensures Decide(r, v) == Fire <==> v.breach && CapAllows(r)
    ensures Decide(r, v) == Fire ==>
      var r' := Apply(r, Fire);
      r'.isNormal == "N" && r'.alarmTimes == Inc32(r.alarmTimes) &&
      r' == r.(alarmTimes := r'.alarmTimes, isNormal := r'.isNormal)
  {
  }

  /** Suppression at the cap: with a finite cap reached, a continuing breach
      changes nothing, whatever the flag says. */
  lemma CapSuppression(r: AlarmClusterInfo, v: Verdict)
    requires Exclusive(v) && v.breach
    requires r.alarmMaxTimes != -1 && r.alarmTimes >= r.alarmMaxTimes
    ensures Decide(r, v) == Stay
    ensures Apply(r, Decide(r, v)) == r
  {
  }

  /** With the cap at -1 a breach always fires. */
  lemma UnlimitedNeverSuppressed(r: AlarmClusterInfo, v: Verdict)
    requires r.alarmMaxTimes == -1 && v.breach
    ensures Decide(r, v) == Fire
  {
  }

  /** Recovery: a good reading on an abnormal target resets it; on a normal
      target it does nothing. */
  lemma RecoverEdge(r: AlarmClusterInfo, v: Verdict)
    requires !v.breach && v.recovered
    ensures r.isNormal == "N" ==>
      Decide(r, v) == Recover && Apply(r, Recover) == r.(alarmTimes := 0, isNormal := "Y")
    ensures r.isNormal != "N" ==> Decide(r, v) == Stay
  {
  }

  /** Recovery is idempotent: once recovered, the same reading again does nothing. */
  lemma RecoverIdempotent(r: AlarmClusterInfo, v: Verdict)
    requires Exclusive(v) && v.recovered
    requires Decide(r, v) == Recover
    ensures Decide(Apply(r, Recover), v) == Stay
  {
  }

  /** A reading that is neither a breach nor a recovery leaves the state alone. */
  lemma NeitherKeepsState(r: AlarmClusterInfo, v: Verdict)
    requires !v.breach && !v.recovered
    ensures Decide(r, v) == Stay
  {
  }

  /** The counter never exceeds a finite cap it started within. */
  lemma DecideKeepsBound(r: AlarmClusterInfo, v: Verdict)
    requires Bounded(r)
    ensures Bounded(Apply(r, Decide(r, v)))
  {
  }

  /** A transition happens exactly when the record changes. */
  lemma TransitionChangesRecord(r: AlarmClusterInfo, v: Verdict)
    ensures Decide(r, v) != Stay <==> Apply(r, Decide(r, v)) != r
  {
    if Decide(r, v) == Fire {
      assert Apply(r, Fire).alarmTimes != r.alarmTimes;
    } else if Decide(r, v) == Recover {
      assert Apply(r, Recover).isNormal != r.isNormal;
    }
  }
}
