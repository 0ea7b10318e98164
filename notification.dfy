/** Composition of the error and recovery notices for each channel. Apart from
    the final send, composing a notice only builds strings on a fresh message, so
    it is written here as pure functions. */
module Notification {
  import opened JavaText
  import opened AlarmModel

  const ErrorTitle: string := "EFAK - Alert Cluster Error"
  const NoticeTitle: string := "EFAK - Alert Cluster Notice"
  const ProblemStatus: string := "PROBLEM"
  const NormalStatus: string := "NORMAL"

  function Title(edge: Edge): string {
    match edge
    case Error => ErrorTitle
    case Normal => NoticeTitle
  }

  function Status(edge: Edge): string {
    match edge
    case Error => ProblemStatus
    case Normal => NormalStatus
  }

  function KindOfDetail(detail: Detail): AlarmKind {
    match detail
    case TopicDetail(_, _, _) => TopicKind
    case ProducerDetail(_, _, _) => ProducerKind
    case NodeDetail(_) => NodeKind
  }

  /** The word that opens the content, per edge and kind of target. */
  function Keyword(edge: Edge, kind: AlarmKind): string {
    match (edge, kind)
    case (Error, TopicKind) => "topic.capacity.overflow"
    case (Normal, TopicKind) => "topic.capacity.normal"
    case (Error, ProducerKind) => "producer.speed.overflow"
    case (Normal, ProducerKind) => "producer.speed.normal"
    case (Error, NodeKind) => "node.shutdown"
    case (Normal, NodeKind) => "node.alive"
  }

  /** The content line. Capacities are rendered by the byte-size formatter
      `stringify`, which is a parameter here; speeds are plain decimal longs. */
  function Content(edge: Edge, detail: Detail, stringify: int -> string): string {
    var keyword := Keyword(edge, KindOfDetail(detail));
    match detail
    case TopicDetail(topic, alarmCapacity, realCapacity) =>
      keyword + " [topic(" + topic + "), real.capacity(" + stringify(realCapacity) +
      "), alarm.capacity(" + stringify(alarmCapacity) + ")]"
    case ProducerDetail(topic, alarmSpeeds, realSpeeds) =>
      keyword + " [topic(" + topic + "), real.speeds(" + IntToString(realSpeeds) +
      "), alarm.speeds.range(" + alarmSpeeds + ")]"
    case NodeDetail(servers) =>
      keyword + " [ " + servers + " ]"
  }

  /** "current(<alarmTimes>), max(<alarmMaxTimes>)". */
  function Counter(alarmTimes: int, alarmMaxTimes: int): string {
    "current(" + IntToString(alarmTimes) + "), max(" + IntToString(alarmMaxTimes) + ")"
  }

  /** WeChat's colour: "warning" for a problem, green for a recovery. */
  function FontColor(edge: Edge): string {
    match edge
    case Error => "warning"
    case Normal => "#008000"
  }

  function Font(edge: Edge, text: string): string {
    "<font color=\"" + FontColor(edge) + "\">" + text + "</font>"
  }

  /** The message for a target's post-transition record; `weChat` selects WeChat's
      markup (title in backticks with a newline, content and status coloured). */
  function Message(edge: Edge, config: AlarmConfig, r: AlarmClusterInfo, detail: Detail,
                   stringify: int -> string, weChat: bool): AlarmMessage
  {
    var content := Content(edge, detail, stringify);
    AlarmMessage(
      r.id,
      config.cluster,
      if weChat then "`" + Title(edge) + "`\n" else Title(edge),
      if weChat then Font(edge, content) else content,
      r.alarmLevel,
      KindOf(r.spec),
      if weChat then Font(edge, Status(edge)) else Status(edge),
      Counter(r.alarmTimes, r.alarmMaxTimes))
  }

  /** The send a notice turns into on the group's channel; an unknown channel sends
      nothing. */
  function Compose(edge: Edge, config: AlarmConfig, r: AlarmClusterInfo, detail: Detail,
                   stringify: int -> string): Option<Delivery>
  {
    match config.channel
    case Email =>
      var msg := Message(edge, config, r, detail, stringify, false);
      Some(MailPost(config.address, msg.title, config.urlIsJsonObject, msg, config.url))
    case DingDing => Some(DingDingPost(Message(edge, config, r, detail, stringify, false), config.url))
    case WeChat => Some(WeChatPost(Message(edge, config, r, detail, stringify, true), config.url))
    case OtherChannel(_) => None
  }

  /** Email, DingDing and WeChat each send one notice; any other channel none. The
      mail carries the address, the message's title and the body form chosen by the
      URL text. */
  lemma ComposeChannels(edge: Edge, config: AlarmConfig, r: AlarmClusterInfo, detail: Detail, stringify: int -> string)
    ensures Compose(edge, config, r, detail, stringify).None? <==> config.channel.OtherChannel?
    ensures config.channel == Email ==>
      var d := Compose(edge, config, r, detail, stringify).value;
      d.MailPost? && d.address == config.address && d.title == d.msg.title &&
      d.jsonBody == config.urlIsJsonObject && d.url == config.url
    ensures config.channel == DingDing ==> Compose(edge, config, r, detail, stringify).value.DingDingPost?
    ensures config.channel == WeChat ==> Compose(edge, config, r, detail, stringify).value.WeChatPost?
  {
  }

  /** Title and status per edge on Email and DingDing: an error notice reads
      "EFAK - Alert Cluster Error" / "PROBLEM", a recovery notice "EFAK - Alert
      Cluster Notice" / "NORMAL"; the counter shows the record's post-transition
      counter and its cap. */
  lemma PlainMessage(edge: Edge, config: AlarmConfig, r: AlarmClusterInfo, detail: Detail, stringify: int -> string)
    requires config.channel == Email || config.channel == DingDing
    ensures var msg := Compose(edge, config, r, detail, stringify).value.msg;
      && msg.title == (if edge == Error then "EFAK - Alert Cluster Error" else "EFAK - Alert Cluster Notice")
      && msg.status == (if edge == Error then "PROBLEM" else "NORMAL")
      && msg.content == Content(edge, detail, stringify)
      && msg.times == Counter(r.alarmTimes, r.alarmMaxTimes)
      && msg.alarmId == r.id && msg.cluster == config.cluster && msg.level == r.alarmLevel
  {
  }

  /** Every channel carries the same facts: Email and DingDing the very same
      message; WeChat the same one with its title in backticks plus a newline and
      its content and status wrapped in the edge's font colour. */
  lemma SameFactsAcrossChannels(edge: Edge, c1: AlarmConfig, c2: AlarmConfig, r: AlarmClusterInfo,
                                detail: Detail, stringify: int -> string)
    requires c1.cluster == c2.cluster
    requires c1.channel == Email || c1.channel == DingDing
    requires !c2.channel.OtherChannel?
    ensures var m1 := Compose(edge, c1, r, detail, stringify).value.msg;
            var m2 := Compose(edge, c2, r, detail, stringify).value.msg;
      if c2.channel == WeChat then
        m2 == m1.(title := "`" + m1.title + "`\n",
                  content := Font(edge, m1.content),
                  status := Font(edge, m1.status))
      else m2 == m1
  {
  }

  /** The error and recovery notices differ in title and in status. */
  lemma EdgesDistinguishable()
    ensures Title(Error) != Title(Normal) && Status(Error) != Status(Normal)
    ensures FontColor(Error) != FontColor(Normal)
  {
    assert Title(Error)[21] != Title(Normal)[21];
    assert Status(Error)[0] != Status(Normal)[0];
  }

  /** The content names its edge and its kind: no two (edge, kind) pairs open with
      the same keyword. */
  lemma KeywordsDistinct(e1: Edge, k1: AlarmKind, e2: Edge, k2: AlarmKind)
    requires Keyword(e1, k1) == Keyword(e2, k2)
    ensures e1 == e2 && k1 == k2
  {
    var w1, w2 := Keyword(e1, k1), Keyword(e2, k2);
    assert w1[0] == w2[0];
    if k1 == TopicKind || k1 == ProducerKind {
      assert |w1| == |w2|;
      assert w1[15] == w2[15];
    } else {
      assert |w1| == |w2|;
    }
  }

  /** The content opens with its keyword and, on WeChat, the font tag before it. */
  lemma ContentOpensWithKeyword(edge: Edge, detail: Detail, stringify: int -> string)
    ensures var w := Keyword(edge, KindOfDetail(detail));
            var c := Content(edge, detail, stringify);
            |w| <= |c| && c[..|w|] == w
  {
  }

  // ---------------------------------------------------------------------------
  // Reading the counter back
  // ---------------------------------------------------------------------------

  /** Reads "current(<n>), max(<m>)" back into (n, m). */
  function ParseCounter(s: string): Option<(int, int)> {
    if |s| < 9 || s[..8] != "current(" || s[|s| - 1] != ')' then None
    else
      var parts := SplitAll(s[8..|s| - 1], ')');
      if |parts| != 2 || |parts[1]| < 6 || parts[1][..6] != ", max(" then None
      else
        match (ParseInt(parts[0]), ParseInt(parts[1][6..]))
        case (Some(current), Some(max)) => Some((current as int, max as int))
        case _ => None
  }

  /** The counter text carries both numbers: it reads back as (alarmTimes,
      alarmMaxTimes). */
  lemma CounterRoundTrip(alarmTimes: Int32, alarmMaxTimes: Int32)
    ensures ParseCounter(Counter(alarmTimes, alarmMaxTimes)) == Some((alarmTimes as int, alarmMaxTimes as int))
  {
    var t, m := IntToString(alarmTimes), IntToString(alarmMaxTimes);
    assert ')' !in t && ')' !in m;
    CounterParts(t, m);
    ParseIntToString(alarmTimes, MinInt32, MaxInt32);
    ParseIntToString(alarmMaxTimes, MinInt32, MaxInt32);
  }

  /** Reading back "current(t), max(m)" hands t and m to the number parser. */
  lemma CounterParts(t: string, m: string)
    requires ')' !in t && ')' !in m
    ensures var s := "current(" + t + "), max(" + m + ")";
      && |s| >= 9 && s[..8] == "current(" && s[|s| - 1] == ')'
      && SplitAll(s[8..|s| - 1], ')') == [t, ", max(" + m]
  {
    var s := "current(" + t + "), max(" + m + ")";
    var tail := ", max(" + m;
    assert s == "current(" + (t + [')'] + tail) + ")";
    assert s[..8] == "current(" && s[8..|s| - 1] == t + [')'] + tail;
    assert ')' !in tail by {
      forall i | 0 <= i < |tail| ensures tail[i] != ')' {
        if i >= 6 { assert tail[i] == m[i - 6]; }
      }
    }
    assert Join([t, tail], ')') == t + [')'] + tail by {
      assert [t, tail][1..] == [tail];
    }
    SplitAllJoin([t, tail], ')');
  }

}
