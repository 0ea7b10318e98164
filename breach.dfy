/** The breach rules of the three kinds of target: what counts as a breach, what
    counts as recovered, and the facts a notification about the target reports. */
module Breach {
  import opened JavaText
  import opened AlarmModel
  import opened AlarmState

  // ---------------------------------------------------------------------------
  // Topic capacity
  // ---------------------------------------------------------------------------

  /** The measured capacity, or 0 when the metrics call threw. */
  function RealCapacity(capacity: Option<Int64>): Int64 {
    match capacity
    case Some(c) => c
    case None => 0
  }

  /** Breach strictly above the threshold, recovery strictly below it. */
  function TopicVerdict(realCapacity: int, alarmCapacity: int): Verdict {
    Verdict(realCapacity > alarmCapacity, realCapacity < alarmCapacity)
  }

  /** Exactly at the threshold the topic rule neither fires nor recovers. */
  lemma TopicBoundary(r: AlarmClusterInfo, capacity: int)
    ensures !TopicVerdict(capacity, capacity).breach && !TopicVerdict(capacity, capacity).recovered
    ensures Decide(r, TopicVerdict(capacity, capacity)) == Stay
  {
  }

  // ---------------------------------------------------------------------------
  // Producer speed
  // ---------------------------------------------------------------------------

  /** The "low,high" speed text as two longs. Text that does not split into exactly
      two parts gives (0, 0); two parts of which one is not a long throw out of the
      pass (None). */
  function SpeedRange(speed: string): Option<(Int64, Int64)> {
    var speeds := JavaSplit(speed, ',');
    if |speeds| == 2 then
      match ParseLong(speeds[0])
      case None => None
      case Some(startSpeed) =>
        (match ParseLong(speeds[1])
         case None => None
         case Some(endSpeed) => Some((startSpeed, endSpeed)))
    else Some((0, 0))
  }

  /** A range written as "low,high" is read back as (low, high). */
  lemma SpeedRangeRoundTrip(low: Int64, high: Int64)
    ensures SpeedRange(IntToString(low) + "," + IntToString(high)) == Some((low, high))
  {
    var a, b := IntToString(low), IntToString(high);
    JavaSplitTwo(a, b, ',');
    assert a + "," + b == a + [','] + b;
    ParseIntToString(low, MinInt64, MaxInt64);
    ParseIntToString(high, MinInt64, MaxInt64);
  }

  /** Speed text without exactly two comma-separated parts reads as (0, 0). */
  lemma SpeedRangeDefault(speed: string)
    requires |JavaSplit(speed, ',')| != 2
    ensures SpeedRange(speed) == Some((0, 0))
  {
  }

  /** A part that is not a long (an empty one, say) ends the pass. */
  lemma SpeedRangeUnparsable(a: string, b: string)
    requires ',' !in a && ',' !in b && b != ""
    requires ParseLong(a).None? || ParseLong(b).None?
    ensures SpeedRange(a + [','] + b).None?
  {
    JavaSplitTwo(a, b, ',');
  }

  /** The first throughput row's value, or 0 when there is none. */
  function RealSpeed(rows: seq<Int64>): Int64 {
    if |rows| > 0 then rows[0] else 0
  }

  /** Breach outside [low, high]; recovery inside it, both ends included. */
  function ProducerVerdict(realSpeed: int, startSpeed: int, endSpeed: int): Verdict {
    Verdict(realSpeed < startSpeed || realSpeed > endSpeed,
            realSpeed >= startSpeed && realSpeed <= endSpeed)
  }

  /** The producer rule always decides one way: breach exactly when not recovered;
      both ends of the range recover; an inverted range never recovers. */
  lemma ProducerRule(realSpeed: int, startSpeed: int, endSpeed: int)
    ensures ProducerVerdict(realSpeed, startSpeed, endSpeed).breach <==>
            !ProducerVerdict(realSpeed, startSpeed, endSpeed).recovered
    ensures startSpeed <= endSpeed && (realSpeed == startSpeed || realSpeed == endSpeed) ==>
            ProducerVerdict(realSpeed, startSpeed, endSpeed).recovered
    ensures startSpeed > endSpeed ==> !ProducerVerdict(realSpeed, startSpeed, endSpeed).recovered
  {
  }

  // ---------------------------------------------------------------------------
  // Node reachability
  // ---------------------------------------------------------------------------

  /** Where one "host:port" entry lands: unreachable, reachable, in neither list
      (no port, a port that is not an int, or a probe that threw), or -- for an
      entry made only of ':' characters, whose host lookup throws outside the
      guarded block -- the end of the pass. */
  datatype EntryClass = Down | Up | Skipped | Fatal

  /** The class of the entry at position `pos` of the list. Each entry is probed by
      a call of its own, so the probe answers per position. */
  function ClassifyEntry(entry: string, pos: nat, probe: (nat, string, Int32) -> Probe): EntryClass {
    var parts := JavaSplit(entry, ':');
    if |parts| == 0 then Fatal
    else if |parts| < 2 then Skipped
    else
      match ParseInt(parts[1])
      case None => Skipped
      case Some(port) =>
        match probe(pos, parts[0], port)
        case Unreachable => Down
        case Reachable => Up
        case ProbeFailed => Skipped
  }

  /** An entry ends the pass exactly when it is non-empty and made only of ':'. */
  lemma ClassifyFatal(entry: string, pos: nat, probe: (nat, string, Int32) -> Probe)
    ensures ClassifyEntry(entry, pos, probe) == Fatal <==>
            |entry| > 0 && forall k :: 0 <= k < |entry| ==> entry[k] == ':'
  {
    JavaSplitEmpty(entry, ':');
  }

  /** Each entry's class by its position in the list, as the probe answers. */
  function Classify(probe: (nat, string, Int32) -> Probe): (classify: (string, nat) -> EntryClass)
    ensures forall entry, pos :: classify(entry, pos) == ClassifyEntry(entry, pos, probe)
  {
    (entry: string, pos: nat) => ClassifyEntry(entry, pos, probe)
  }

  /** The entries of one class, in order. */
  function Only(entries: seq<string>, classify: (string, nat) -> EntryClass, c: EntryClass): (r: seq<string>)
    ensures |r| <= |entries|
  {
    if |entries| == 0 then []
    else
      var last := entries[|entries| - 1];
      Only(entries[..|entries| - 1], classify, c) + (if classify(last, |entries| - 1) == c then [last] else [])
  }

  predicate NoFatal(entries: seq<string>, classify: (string, nat) -> EntryClass) {
    forall i :: 0 <= i < |entries| ==> classify(entries[i], i) != Fatal
  }

  /** The (errorServers, normalServers) lists, or None when an entry ends the pass. */
  function NodePartition(entries: seq<string>, probe: (nat, string, Int32) -> Probe): Option<(seq<string>, seq<string>)> {
    var classify := Classify(probe);
    if NoFatal(entries, classify) then Some((Only(entries, classify, Down), Only(entries, classify, Up)))
    else None
  }

  /** A text is listed in a class exactly when some entry at some position has that
      text and falls in that class there. */
  lemma {:induction false} OnlyMembership(entries: seq<string>, classify: (string, nat) -> EntryClass, c: EntryClass, x: string)
    ensures x in Only(entries, classify, c) <==>
            exists i :: 0 <= i < |entries| && entries[i] == x && classify(x, i) == c
  {
    if |entries| > 0 {
      var n := |entries| - 1;
      var init := entries[..n];
      OnlyMembership(init, classify, c, x);
      if x in Only(entries, classify, c) {
        if x in Only(init, classify, c) {
          var i :| 0 <= i < n && init[i] == x && classify(x, i) == c;
          assert entries[i] == x;
        } else {
          assert entries[n] == x && classify(x, n) == c;
        }
      }
      if exists i :: 0 <= i < |entries| && entries[i] == x && classify(x, i) == c {
        var i :| 0 <= i < |entries| && entries[i] == x && classify(x, i) == c;
        if i < n {
          assert init[i] == x;
        }
      }
    }
  }

  /** Every entry of a pass that does not end early is filed once, copy by copy:
      unreachable, reachable or passed over. */
  lemma {:induction false} OnlyCounts(entries: seq<string>, classify: (string, nat) -> EntryClass)
    requires NoFatal(entries, classify)
    ensures multiset(Only(entries, classify, Down)) + multiset(Only(entries, classify, Up)) +
            multiset(Only(entries, classify, Skipped)) == multiset(entries)
  {
    if |entries| > 0 {
      var n := |entries| - 1;
      var init := entries[..n];
      var x := entries[n];
      NoFatalPrefix(entries, n, classify);
      OnlyCounts(init, classify);
      assert classify(x, n) != Fatal;
      OnlyCountsStep(entries, classify);
    }
  }

  /** Filing the last entry keeps the three lists a split of the entries. */
  lemma OnlyCountsStep(entries: seq<string>, classify: (string, nat) -> EntryClass)
    requires |entries| > 0 && classify(entries[|entries| - 1], |entries| - 1) != Fatal
    requires var init := entries[..|entries| - 1];
      multiset(Only(init, classify, Down)) + multiset(Only(init, classify, Up)) +
      multiset(Only(init, classify, Skipped)) == multiset(init)
    ensures multiset(Only(entries, classify, Down)) + multiset(Only(entries, classify, Up)) +
            multiset(Only(entries, classify, Skipped)) == multiset(entries)
  {
    var n := |entries| - 1;
    var init, x := entries[..n], entries[n];
    assert entries == init + [x];
    OnlyLast(entries, classify, Down);
    OnlyLast(entries, classify, Up);
    OnlyLast(entries, classify, Skipped);
    FileOne(Only(init, classify, Down), Only(init, classify, Up), Only(init, classify, Skipped), init, x,
            classify(x, n), Only(entries, classify, Down), Only(entries, classify, Up), Only(entries, classify, Skipped));
  }

  /** The list of a class grows by the last entry exactly when that entry is of the class. */
  lemma OnlyLast(entries: seq<string>, classify: (string, nat) -> EntryClass, c: EntryClass)
    requires |entries| > 0
    ensures var n := |entries| - 1;
      Only(entries, classify, c) == Only(entries[..n], classify, c) + (if classify(entries[n], n) == c then [entries[n]] else [])
  {
  }

  /** The three lists together are exactly as long as the entry list. */
  lemma OnlyLengths(entries: seq<string>, classify: (string, nat) -> EntryClass)
    requires NoFatal(entries, classify)
    ensures |Only(entries, classify, Down)| + |Only(entries, classify, Up)| + |Only(entries, classify, Skipped)| == |entries|
  {
    OnlyCounts(entries, classify);
    var down, up, skipped := Only(entries, classify, Down), Only(entries, classify, Up), Only(entries, classify, Skipped);
    assert |multiset(down) + multiset(up) + multiset(skipped)| == |multiset(entries)|;
  }

  /** A prefix of entries none of which ends the pass has none either. */
  lemma NoFatalPrefix(entries: seq<string>, n: nat, classify: (string, nat) -> EntryClass)
    requires n <= |entries| && NoFatal(entries, classify)
    ensures NoFatal(entries[..n], classify)
  {
    forall i | 0 <= i < n ensures classify(entries[..n][i], i) != Fatal {
      assert entries[..n][i] == entries[i];
    }
  }

  /** Filing one more entry in one of three lists keeps the lists a split of the
      entries. */
  lemma FileOne(down: seq<string>, up: seq<string>, skipped: seq<string>, init: seq<string>, x: string,
                cls: EntryClass, down': seq<string>, up': seq<string>, skipped': seq<string>)
    requires multiset(down) + multiset(up) + multiset(skipped) == multiset(init)
    requires cls != Fatal
    requires down' == down + (if cls == Down then [x] else [])
    requires up' == up + (if cls == Up then [x] else [])
    requires skipped' == skipped + (if cls == Skipped then [x] else [])
    ensures multiset(down') + multiset(up') + multiset(skipped') == multiset(init + [x])
  {
    assert multiset(init + [x]) == multiset(init) + multiset{x};
  }

  /** The entry at position i, when its probe answers, is in the list of its answer;
      when no other entry has its text, it is in exactly one of the two lists. */
  lemma PartitionExactlyOne(entries: seq<string>, probe: (nat, string, Int32) -> Probe, i: nat)
    requires i < |entries| && NoFatal(entries, Classify(probe))
    requires ClassifyEntry(entries[i], i, probe) == Down || ClassifyEntry(entries[i], i, probe) == Up
    ensures var (errorServers, normalServers) := NodePartition(entries, probe).value;
      && (ClassifyEntry(entries[i], i, probe) == Down ==> entries[i] in errorServers)
      && (ClassifyEntry(entries[i], i, probe) == Up ==> entries[i] in normalServers)
      && ((forall j :: 0 <= j < |entries| && j != i ==> entries[j] != entries[i]) ==>
            (entries[i] in errorServers) != (entries[i] in normalServers))
  {
    OnlyMembership(entries, Classify(probe), Down, entries[i]);
    OnlyMembership(entries, Classify(probe), Up, entries[i]);
  }

  /** One more entry adds itself to its own class only, and keeps the prefix
      free of entries that end the pass when it is not one. */
  lemma OnlyStep(entries: seq<string>, i: nat, classify: (string, nat) -> EntryClass)
    requires i < |entries| && NoFatal(entries[..i], classify)
    ensures forall c ::
      Only(entries[..i + 1], classify, c) ==
      Only(entries[..i], classify, c) + (if classify(entries[i], i) == c then [entries[i]] else [])
    ensures classify(entries[i], i) != Fatal ==> NoFatal(entries[..i + 1], classify)
  {
    assert entries[..i + 1][..i] == entries[..i];
  }

  /** Filing the entry at position i after those before it extends the two lists
      as its class says. */
  lemma FileNext(entries: seq<string>, i: nat, classify: (string, nat) -> EntryClass,
                 down: seq<string>, up: seq<string>, down': seq<string>, up': seq<string>)
    requires i < |entries| && NoFatal(entries[..i], classify) && classify(entries[i], i) != Fatal
    requires down == Only(entries[..i], classify, Down) && up == Only(entries[..i], classify, Up)
    requires down' == down + (if classify(entries[i], i) == Down then [entries[i]] else [])
    requires up' == up + (if classify(entries[i], i) == Up then [entries[i]] else [])
    ensures NoFatal(entries[..i + 1], classify)
    ensures down' == Only(entries[..i + 1], classify, Down) && up' == Only(entries[..i + 1], classify, Up)
  {
    OnlyStep(entries, i, classify);
  }

  /** The first n entries are filed: none ends the pass, and the two lists hold
      those that are down and those that are up. */
  predicate FiledUpTo(entries: seq<string>, n: nat, probe: (nat, string, Int32) -> Probe,
                      errorServers: seq<string>, normalServers: seq<string>)
    requires n <= |entries|
  {
    && NoFatal(entries[..n], Classify(probe))
    && errorServers == Only(entries[..n], Classify(probe), Down)
    && normalServers == Only(entries[..n], Classify(probe), Up)
  }

  /** Filing the entry at position i, in the list the probe's answer names. */
  lemma FileProbed(entries: seq<string>, i: nat, probe: (nat, string, Int32) -> Probe, filed: EntryClass,
                   down: seq<string>, up: seq<string>, down': seq<string>, up': seq<string>)
    requires i < |entries| && FiledUpTo(entries, i, probe, down, up)
    requires filed == ClassifyEntry(entries[i], i, probe) && filed != Fatal
    requires down' == down + (if filed == Down then [entries[i]] else [])
    requires up' == up + (if filed == Up then [entries[i]] else [])
    ensures FiledUpTo(entries, i + 1, probe, down', up')
  {
    FileNext(entries, i, Classify(probe), down, up, down', up');
  }

  /** One pass of the probing loop's body: split the entry at ':', read the port,
      probe the host and say which list the entry goes to. */
  method ProbeEntry(server: string, pos: nat, probe: (nat, string, Int32) -> Probe) returns (filed: EntryClass)
    ensures filed == ClassifyEntry(server, pos, probe)
  {
    var parts := JavaSplit(server, ':');
    if |parts| == 0 {
      return Fatal;
    }
    var host := parts[0];
    filed := Skipped;
    if |parts| >= 2 {
      var port := ParseInt(parts[1]);
      if port.Some? {
        var status := probe(pos, host, port.value);
        if status == Unreachable {
          filed := Down;
        } else if status == Reachable {
          filed := Up;
        }
      }
    }
  }

  /** The probing loop: probe each "host:port" entry in turn and file it as an
      error or a normal server; entries without a usable port, or whose probe
      throws, are passed over. */
  method PartitionServers(entries: seq<string>, probe: (nat, string, Int32) -> Probe)
    returns (ok: bool, errorServers: seq<string>, normalServers: seq<string>)
    ensures ok <==> NoFatal(entries, Classify(probe))
    ensures ok ==> NodePartition(entries, probe) == Some((errorServers, normalServers))
  {
    errorServers, normalServers := [], [];
    var i := 0;
    while i < |entries|
      invariant 0 <= i <= |entries|
      invariant FiledUpTo(entries, i, probe, errorServers, normalServers)
    {
      var server := entries[i];
      var filed := ProbeEntry(server, i, probe);
      if filed == Fatal {
        return false, [], [];
      }
      ghost var errorBefore, normalBefore := errorServers, normalServers;
      if filed == Down {
        errorServers := errorServers + [server];
      } else if filed == Up {
        normalServers := normalServers + [server];
      }
      FileProbed(entries, i, probe, filed, errorBefore, normalBefore, errorServers, normalServers);
      i := i + 1;
    }
    assert entries[..i] == entries;
    ok := true;
  }

  /** Breach when some server is unreachable, recovery when none is. */
  function NodeVerdict(errorServers: seq<string>): Verdict {
    Verdict(|errorServers| > 0, |errorServers| == 0)
  }

  // ---------------------------------------------------------------------------
  // All kinds together
  // ---------------------------------------------------------------------------

  /** A rule's verdict with the facts an error notice and a recovery notice report
      (they differ only for nodes: the unreachable list versus the reachable one). */
  datatype Evaluation = Evaluation(verdict: Verdict, onError: Detail, onNormal: Detail)

  /** The verdict for one target, or None when evaluating it throws out of the pass. */
  function Evaluate(spec: TargetSpec, reading: Reading): Option<Evaluation> {
    match spec
    case TopicSpec(topic, alarmCapacity) =>
      var realCapacity := RealCapacity(reading.capacity);
      var detail := TopicDetail(topic, alarmCapacity, realCapacity);
      Some(Evaluation(TopicVerdict(realCapacity, alarmCapacity), detail, detail))
    case ProducerSpec(topic, speed) =>
      (match SpeedRange(speed)
       case None => None
       case Some(range) =>
         var realSpeed := RealSpeed(reading.throughput);
         var detail := ProducerDetail(topic, IntToString(range.0) + "," + IntToString(range.1), realSpeed);
         Some(Evaluation(ProducerVerdict(realSpeed, range.0, range.1), detail, detail)))
    case NodeSpec(servers) =>
      match NodePartition(JavaSplit(servers, ','), reading.probe)
      case None => None
      case Some(lists) =>
        Some(Evaluation(NodeVerdict(lists.0), NodeDetail(ListToString(lists.0)), NodeDetail(ListToString(lists.1))))
  }

  /** In every kind, a breach rules out recovery; so a breach suppressed by the cap
      falls through to doing nothing. */
  lemma EvaluateExclusive(spec: TargetSpec, reading: Reading)
    requires Evaluate(spec, reading).Some?
    ensures Exclusive(Evaluate(spec, reading).value.verdict)
  {
  }

  /** Only a producer's unreadable speed text or a node entry of bare ':'s end the
      pass; a topic always evaluates, reading 0 when the metrics call throws. */
  lemma EvaluateFailsOnlyOnMalformedText(spec: TargetSpec, reading: Reading)
    ensures Evaluate(spec, reading).None? <==>
      (spec.ProducerSpec? && SpeedRange(spec.speed).None?) ||
      (spec.NodeSpec? && !NoFatal(JavaSplit(spec.servers, ','), Classify(reading.probe)))
    ensures spec.TopicSpec? && reading.capacity.None? ==>
      Evaluate(spec, reading).value.onError.realCapacity == 0
    ensures spec.ProducerSpec? && Evaluate(spec, reading).Some? && reading.throughput == [] ==>
      Evaluate(spec, reading).value.onError.realSpeeds == 0
  {
  }

  /** "host:port" with a port that reads as an int is probed at that host and port. */
  lemma ClassifyHostPort(host: string, portText: string, port: Int32, pos: nat, probe: (nat, string, Int32) -> Probe)
    requires ':' !in host && ':' !in portText && portText != ""
    requires ParseInt(portText) == Some(port)
    ensures ClassifyEntry(host + [':'] + portText, pos, probe) ==
      match probe(pos, host, port)
      case Unreachable => Down
      case Reachable => Up
      case ProbeFailed => Skipped
  {
    JavaSplitTwo(host, portText, ':');
  }

  /** An entry without a port, or whose port is not an int, is passed over without
      a probe and does not end the pass. */
  lemma ClassifyUnusablePort(host: string, portText: string, pos: nat, probe: (nat, string, Int32) -> Probe)
    requires ':' !in host && ':' !in portText && portText != ""
    requires ParseInt(portText).None?
    ensures ClassifyEntry(host, pos, probe) == Skipped
    ensures ClassifyEntry(host + [':'] + portText, pos, probe) == Skipped
  {
    JavaSplitTwo(host, portText, ':');
  }

  /** Two nodes "h1:p,h2:p" where only h2 answers the probe: the partition lists
      h1 alone as an error server and h2 as a normal one, so the node target is in
      breach. */
  lemma TwoNodesOneDown(h1: string, h2: string, portText: string, port: Int32, probe: (nat, string, Int32) -> Probe)
    requires ':' !in h1 && ':' !in h2 && ':' !in portText && portText != ""
    requires ',' !in h1 && ',' !in h2 && ',' !in portText
    requires ParseInt(portText) == Some(port)
    requires probe(0, h1, port) == Unreachable && probe(1, h2, port) == Reachable
    ensures var e1, e2 := h1 + [':'] + portText, h2 + [':'] + portText;
            NodePartition(JavaSplit(e1 + [','] + e2, ','), probe) == Some(([e1], [e2])) &&
            NodeVerdict([e1]).breach
  {
    var e1, e2 := h1 + [':'] + portText, h2 + [':'] + portText;
    assert ',' !in e1 && ',' !in e2;
    JavaSplitTwo(e1, e2, ',');
    ClassifyHostPort(h1, portText, port, 0, probe);
    ClassifyHostPort(h2, portText, port, 1, probe);
    TwoEntries([e1, e2], probe);
  }

  /** A node listed twice is probed twice; when the two probes disagree, its text
      sits in both lists. */
  lemma DuplicateProbedTwice(host: string, portText: string, port: Int32, probe: (nat, string, Int32) -> Probe)
    requires ':' !in host && ':' !in portText && portText != ""
    requires ParseInt(portText) == Some(port)
    requires probe(0, host, port) == Unreachable && probe(1, host, port) == Reachable
    ensures var e := host + [':'] + portText;
            NodePartition([e, e], probe) == Some(([e], [e]))
  {
    var e := host + [':'] + portText;
    ClassifyHostPort(host, portText, port, 0, probe);
    ClassifyHostPort(host, portText, port, 1, probe);
    TwoEntries([e, e], probe);
  }

  lemma TwoEntries(entries: seq<string>, probe: (nat, string, Int32) -> Probe)
    requires |entries| == 2
    requires ClassifyEntry(entries[0], 0, probe) == Down && ClassifyEntry(entries[1], 1, probe) == Up
    ensures NodePartition(entries, probe) == Some(([entries[0]], [entries[1]]))
  {
    TwoFiled(entries, Classify(probe));
  }

  lemma TwoFiled(entries: seq<string>, classify: (string, nat) -> EntryClass)
    requires |entries| == 2
    requires classify(entries[0], 0) == Down && classify(entries[1], 1) == Up
    ensures NoFatal(entries, classify)
    ensures Only(entries, classify, Down) == [entries[0]] && Only(entries, classify, Up) == [entries[1]]
  {
    var first := entries[..1];
    assert first[..0] == [];
    assert first[0] == entries[0];
    assert entries[..|entries| - 1] == first;
    assert Only(entries, classify, Down) == Only(first, classify, Down) + [];
    assert Only(entries, classify, Up) == Only(first, classify, Up) + [entries[1]];
  }
}
