/** The MQTT topic scheme: building topics, matching subscriptions, and reading the serial back. */
module Topics {
  import opened Options

  predicate SlashFree(s: string) {
    '/' !in s
  }

  /** `split("/")`: the levels of a topic, never none. */
  function Split(s: string): (levels: seq<string>)
    ensures levels != []
    ensures forall i :: 0 <= i < |levels| ==> SlashFree(levels[i])
  {
    if s == "" then [""]
    else if s[0] == '/' then [""] + Split(s[1..])
    else
      var rest := Split(s[1..]);
      [[s[0]] + rest[0]] + rest[1..]
  }

  function Join(levels: seq<string>): string
    requires levels != []
  {
    if |levels| == 1 then levels[0] else levels[0] + "/" + Join(levels[1..])
  }

  lemma {:induction false} SplitLevel(level: string)
    requires SlashFree(level)
    ensures Split(level) == [level]
  {
    if level != "" {
      SplitLevel(level[1..]);
      assert level == [level[0]] + level[1..];
    }
  }

  /** Putting two topics together puts their levels together. */
  lemma {:induction false} SplitAppend(a: string, b: string)
    ensures Split(a + "/" + b) == Split(a) + Split(b)
  {
    if a == "" {
      assert (a + "/" + b)[1..] == b;
    } else {
      assert (a + "/" + b)[1..] == a[1..] + "/" + b;
      SplitAppend(a[1..], b);
    }
  }

  /** Splitting undoes joining. */
  lemma {:induction false} SplitJoin(levels: seq<string>)
    requires levels != [] && forall i :: 0 <= i < |levels| ==> SlashFree(levels[i])
    ensures Split(Join(levels)) == levels
  {
    SplitLevel(levels[0]);
    if |levels| > 1 {
      SplitJoin(levels[1..]);
      SplitAppend(levels[0], Join(levels[1..]));
    }
  }

  /** Joining undoes splitting. */
  lemma {:induction false} JoinSplit(s: string)
    ensures Join(Split(s)) == s
  {
    if s != "" {
      JoinSplit(s[1..]);
      var rest := Split(s[1..]);
      if s[0] == '/' {
        assert Split(s)[1..] == rest;
      } else if |rest| > 1 {
        assert Split(s)[1..] == rest[1..];
      }
    }
  }

  lemma {:induction false} JoinAppend(a: seq<string>, b: seq<string>)
    requires a != [] && b != []
    ensures Join(a + b) == Join(a) + "/" + Join(b)
  {
    if |a| == 1 {
      assert (a + b)[1..] == b;
    } else {
      assert (a + b)[1..] == a[1..] + b;
      JoinAppend(a[1..], b);
    }
  }

  /** `index(...)`, failing on a level that does not occur. */
  function IndexOf(levels: seq<string>, level: string): (i: Option<nat>)
    ensures i.Some? ==> i.value < |levels| && levels[i.value] == level && level !in levels[..i.value]
    ensures i.None? ==> level !in levels
  {
    if levels == [] then None
    else if levels[0] == level then Some(0)
    else match IndexOf(levels[1..], level)
         case None => None
         case Some(i) => Some(i + 1)
  }

  function SerialFromTopic(topic: string): Option<string> {
    var parts := Split(topic);
    match IndexOf(parts, "devices")
    case None => None
    case Some(i) => if i + 1 < |parts| then Some(parts[i + 1]) else None
  }

  function CommandTopic(base: string, serial: string): string {
    base + "/devices/" + serial + "/commands"
  }

  function Subscription(base: string, leaf: string): string {
    base + "/devices/+/" + leaf
  }

  /** A level-by-level match with the single-level wildcard (section 4.7.1.3 of MQTT Version 3.1.1). */
  predicate MatchesFilter(filter: string, topic: string) {
    var f, t := Split(filter), Split(topic);
    |f| == |t| && forall i :: 0 <= i < |f| ==> f[i] == "+" || f[i] == t[i]
  }

  lemma Regroup(a: string, slash: string, c: string, d: string, e: string)
    ensures a + (slash + c + slash) + d + slash + e == a + slash + (c + slash + (d + slash + e))
  {
  }

  lemma Reassociate(a: string, b: string, c: string, d: string, e: string)
    ensures a + (b + c + d) + e == a + b + c + d + e
    ensures a + b + c + (d + e) == a + b + c + d + e
  {
  }

  lemma SplitTail(serial: string, leaf: string)
    requires SlashFree(leaf)
    ensures Split(serial + "/" + leaf) == Split(serial) + [leaf]
  {
    SplitAppend(serial, leaf);
    SplitLevel(leaf);
  }

  lemma SplitUnder(base: string, level: string, tail: string)
    requires SlashFree(level)
    ensures Split(base + "/" + (level + "/" + tail)) == Split(base) + [level] + Split(tail)
  {
    SplitAppend(base, level + "/" + tail);
    SplitAppend(level, tail);
    SplitLevel(level);
    assert Split(base) + ([level] + Split(tail)) == Split(base) + [level] + Split(tail);
  }

  lemma SplitScheme(base: string, serial: string, leaf: string)
    requires SlashFree(leaf)
    ensures Split(base + "/devices/" + serial + "/" + leaf) == Split(base) + ["devices"] + (Split(serial) + [leaf])
  {
    SplitTail(serial, leaf);
    SplitUnder(base, "devices", serial + "/" + leaf);
    Regroup(base, "/", "devices", serial, leaf);
    assert "/devices/" == "/" + "devices" + "/";
  }

  lemma SplitCommand(base: string, serial: string)
    ensures Split(CommandTopic(base, serial)) == Split(base) + ["devices"] + (Split(serial) + ["commands"])
  {
    SplitScheme(base, serial, "commands");
    assert "/commands" == "/" + "commands";
    Reassociate(base, "/devices/", serial, "/", "commands");
  }

  lemma SplitSubscription(base: string, leaf: string)
    requires SlashFree(leaf)
    ensures Split(Subscription(base, leaf)) == Split(base) + ["devices"] + (["+"] + [leaf])
  {
    SplitScheme(base, "+", leaf);
    SplitLevel("+");
    assert "/devices/+/" == "/devices/" + "+" + "/";
    Reassociate(base, "/devices/", "+", "/", leaf);
  }

  /** The first place a level occurs is its index. */
  lemma {:induction false} FirstIsIndex(levels: seq<string>, level: string, i: nat)
    requires i < |levels| && levels[i] == level && forall j :: 0 <= j < i ==> levels[j] != level
    ensures IndexOf(levels, level) == Some(i)
  {
    if i > 0 {
      FirstIsIndex(levels[1..], level, i - 1);
    }
  }

  /**
   For every topic that a subscription matches, the serial read back is the level matched by the
   wildcard, unless a level "devices" comes before it.
   */
  lemma SerialIsMatchedLevel(base: string, leaf: string, topic: string)
    requires SlashFree(leaf) && MatchesFilter(Subscription(base, leaf), topic)
    ensures var t, n := Split(topic), |Split(base)|;
            |t| == n + 3 && ("devices" !in t[..n] ==> SerialFromTopic(topic) == Some(t[n + 1]))
  {
    var b, t, f := Split(base), Split(topic), Split(Subscription(base, leaf));
    SplitSubscription(base, leaf);
    assert f[|b|] == "devices" == t[|b|];
    if "devices" !in t[..|b|] {
      forall i | 0 <= i < |b| ensures t[i] != "devices" {
        assert t[..|b|][i] == t[i];
      }
      FirstIsIndex(t, "devices", |b|);
    }
  }

  /** The topic with these levels below the base; q are the levels that match the base's. */
  function TopicUnder(q: seq<string>, serial: string, leaf: string): string {
    Join(q + ["devices"] + [serial, leaf])
  }

  lemma TopicUnderMatches(base: string, q: seq<string>, serial: string, leaf: string)
    requires |q| == |Split(base)| && SlashFree(serial) && SlashFree(leaf)
    requires forall i :: 0 <= i < |q| ==> SlashFree(q[i]) && (Split(base)[i] == "+" || Split(base)[i] == q[i])
    ensures Split(TopicUnder(q, serial, leaf)) == q + ["devices"] + [serial, leaf]
    ensures MatchesFilter(Subscription(base, leaf), TopicUnder(q, serial, leaf))
  {
    SplitJoin(q + ["devices"] + [serial, leaf]);
    SplitSubscription(base, leaf);
    var f, t := Split(Subscription(base, leaf)), q + ["devices"] + [serial, leaf];
    forall i | 0 <= i < |f| ensures f[i] == "+" || f[i] == t[i] {
      if i < |q| { assert f[i] == Split(base)[i]; }
    }
  }

  /** The serial read back for a topic the subscription matches is the level the wildcard matched. */
  ghost predicate ReadsMatched(base: string, leaf: string, topic: string) {
    MatchesFilter(Subscription(base, leaf), topic) ==>
      |Split(topic)| == |Split(base)| + 3 && SerialFromTopic(topic) == Some(Split(topic)[|Split(base)| + 1])
  }

  /** If the levels that match the base's hold a "devices", what is read back does not depend on the serial. */
  lemma EarlierDevicesHidesSerial(q: seq<string>, t: seq<string>, rest: seq<string>)
    requires "devices" in q && t == q + ["devices"] + rest
    ensures var i := IndexOf(q, "devices").value;
            IndexOf(t, "devices") == Some(i) && t[i + 1] == (q + ["devices"])[i + 1]
  {
    var i := IndexOf(q, "devices").value;
    forall j | 0 <= j < i ensures t[j] != "devices" {
      assert q[..i][j] == t[j];
    }
    FirstIsIndex(t, "devices", i);
  }

  /** So one of the serials "a" and "b" is lost. */
  lemma EarlierDevicesLosesOne(base: string, q: seq<string>, leaf: string) returns (topic: string)
    requires |q| == |Split(base)| && SlashFree(leaf) && "devices" in q
    requires forall i :: 0 <= i < |q| ==> SlashFree(q[i]) && (Split(base)[i] == "+" || Split(base)[i] == q[i])
    ensures !ReadsMatched(base, leaf, topic)
  {
    var read := (q + ["devices"])[IndexOf(q, "devices").value + 1];
    var serial := if read == "a" then "b" else "a";
    assert "a"[0] != "b"[0];
    topic := TopicUnder(q, serial, leaf);
    TopicUnderMatches(base, q, serial, leaf);
    EarlierDevicesHidesSerial(q, Split(topic), [serial, leaf]);
    assert Split(topic)[|q| + 1] == serial;
  }

  /** Every matched topic is read rightly exactly if the base has no level "devices" and no wildcard of its own. */
  lemma ReadsMatchedIffBasePlain(base: string, leaf: string)
    requires SlashFree(leaf)
    ensures (forall topic :: ReadsMatched(base, leaf, topic)) <==> "devices" !in Split(base) && "+" !in Split(base)
  {
    var b := Split(base);
    if "devices" in b {
      var topic := EarlierDevicesLosesOne(base, b, leaf);
    } else if "+" in b {
      var i :| 0 <= i < |b| && b[i] == "+";
      assert b[i := "devices"][i] == "devices";
      var topic := EarlierDevicesLosesOne(base, b[i := "devices"], leaf);
    } else {
      forall topic ensures ReadsMatched(base, leaf, topic) {
        if MatchesFilter(Subscription(base, leaf), topic) {
          SplitSubscription(base, leaf);
          SerialIsMatchedLevel(base, leaf, topic);
          forall i | 0 <= i < |b| ensures Split(topic)[i] != "devices" {
            assert Split(Subscription(base, leaf))[i] == b[i];
          }
        }
      }
    }
  }

  /** With no level "devices" in the base the serial of a command topic is read back exactly if it has no slash. */
  lemma SerialRoundTrip(base: string, serial: string)
    requires "devices" !in Split(base)
    ensures SerialFromTopic(CommandTopic(base, serial)) == Some(Split(serial)[0])
    ensures SerialFromTopic(CommandTopic(base, serial)) == Some(serial) <==> SlashFree(serial)
  {
    var b, levels := Split(base), Split(CommandTopic(base, serial));
    SplitCommand(base, serial);
    forall i | 0 <= i < |b| ensures levels[i] != "devices" {
      assert levels[i] == b[i];
    }
    FirstIsIndex(levels, "devices", |b|);
    assert levels[|b| + 1] == (Split(serial) + ["commands"])[0] == Split(serial)[0];
    if SlashFree(serial) {
      SplitLevel(serial);
    }
  }

  /** What is read from a command topic does not depend on the serial if the base has a "devices". */
  lemma BadBaseHidesSerial(base: string, serial: string)
    requires "devices" in Split(base)
    ensures SerialFromTopic(CommandTopic(base, serial))
            == Some((Split(base) + ["devices"])[IndexOf(Split(base), "devices").value + 1])
  {
    var b, levels := Split(base), Split(CommandTopic(base, serial));
    var i := IndexOf(b, "devices").value;
    SplitCommand(base, serial);
    forall j | 0 <= j < i ensures levels[j] != "devices" {
      assert b[..i][j] == b[j] == levels[j];
    }
    FirstIsIndex(levels, "devices", i);
    assert levels[i + 1] == (b + ["devices"])[i + 1];
  }

  /** Of the serials "a" and "b" at least one is then lost. */
  lemma BadBaseLosesOne(base: string) returns (serial: string)
    requires "devices" in Split(base)
    ensures SlashFree(serial) && SerialFromTopic(CommandTopic(base, serial)) != Some(serial)
  {
    BadBaseHidesSerial(base, "a");
    BadBaseHidesSerial(base, "b");
    var read := (Split(base) + ["devices"])[IndexOf(Split(base), "devices").value + 1];
    serial := if read == "a" then "b" else "a";
    assert "a"[0] != "b"[0];
  }

  ghost predicate RoundTrips(base: string, serial: string) {
    SlashFree(serial) ==> SerialFromTopic(CommandTopic(base, serial)) == Some(serial)
  }

  /** Every slash-free serial survives the round trip exactly if the base has no level "devices". */
  lemma RoundTripIffBaseClean(base: string)
    ensures (forall serial :: RoundTrips(base, serial)) <==> "devices" !in Split(base)
  {
    if "devices" in Split(base) {
      var serial := BadBaseLosesOne(base);
      assert !RoundTrips(base, serial);
    } else {
      forall serial ensures RoundTrips(base, serial) {
        SerialRoundTrip(base, serial);
      }
    }
  }

  // ---- Routing ----------------------------------------------------------------------------

  datatype Route = Telemetry | Status | Results | Ignored

  predicate EndsWith(s: string, suffix: string) {
    |suffix| <= |s| && s[|s| - |suffix|..] == suffix
  }

  function Dispatch(topic: string): Route {
    if EndsWith(topic, "/telemetry") then Telemetry
    else if EndsWith(topic, "/status") then Status
    else if EndsWith(topic, "/results") then Results
    else Ignored
  }

  function RouteOf(leaf: string): Route {
    if leaf == "telemetry" then Telemetry
    else if leaf == "status" then Status
    else if leaf == "results" then Results
    else Ignored
  }

  lemma SuffixOfConcat(prefix: string, suffix: string)
    ensures EndsWith(prefix + suffix, suffix)
  {
  }

  lemma {:induction false} JoinEndsWithLast(levels: seq<string>)
    requires |levels| > 1
    ensures EndsWith(Join(levels), "/" + levels[|levels| - 1])
  {
    var front, last := levels[..|levels| - 1], levels[|levels| - 1];
    assert levels == front + [last];
    JoinAppend(front, [last]);
    Reassociate(Join(front), "", "", "/", last);
    SuffixOfConcat(Join(front), "/" + last);
  }

  /** The text of a topic of at least two levels ends with its last one. */
  lemma EndsWithLastLevel(topic: string)
    requires |Split(topic)| > 1
    ensures EndsWith(topic, "/" + Split(topic)[|Split(topic)| - 1])
  {
    JoinSplit(topic);
    JoinEndsWithLast(Split(topic));
  }

  /** Of two suffixes of a text, the shorter is a suffix of the longer. */
  lemma SuffixOfSuffix(s: string, long: string, short: string)
    requires EndsWith(s, long) && EndsWith(s, short) && |short| <= |long|
    ensures EndsWith(long, short)
  {
    assert s == s[..|s| - |long|] + long;
    assert long[|long| - |short|..] == s[|s| - |short|..];
  }

  lemma SuffixesExclude(topic: string)
    ensures !(EndsWith(topic, "/telemetry") && EndsWith(topic, "/status"))
    ensures !(EndsWith(topic, "/telemetry") && EndsWith(topic, "/results"))
    ensures !(EndsWith(topic, "/results") && EndsWith(topic, "/status"))
  {
    assert !EndsWith("/telemetry", "/status") by { assert "/telemetry"[9] == 'y' && "/status"[6] == 's'; }
    assert !EndsWith("/telemetry", "/results") by { assert "/telemetry"[9] == 'y' && "/results"[7] == 's'; }
    assert !EndsWith("/results", "/status") by { assert "/results"[1] == 'r' && "/status"[0] == '/'; }
    if EndsWith(topic, "/telemetry") && EndsWith(topic, "/status") { SuffixOfSuffix(topic, "/telemetry", "/status"); }
    if EndsWith(topic, "/telemetry") && EndsWith(topic, "/results") { SuffixOfSuffix(topic, "/telemetry", "/results"); }
    if EndsWith(topic, "/results") && EndsWith(topic, "/status") { SuffixOfSuffix(topic, "/results", "/status"); }
  }

  lemma SuffixDecides(topic: string)
    ensures EndsWith(topic, "/telemetry") ==> Dispatch(topic) == Telemetry
    ensures EndsWith(topic, "/status") ==> Dispatch(topic) == Status
    ensures EndsWith(topic, "/results") ==> Dispatch(topic) == Results
  {
    SuffixesExclude(topic);
  }

  lemma LeafDecides(topic: string, leaf: string)
    requires leaf in {"telemetry", "status", "results"} && EndsWith(topic, "/" + leaf)
    ensures Dispatch(topic) == RouteOf(leaf)
  {
    SuffixDecides(topic);
    if leaf == "telemetry" {
      assert "/" + leaf == "/telemetry";
    } else if leaf == "status" {
      assert "/" + leaf == "/status";
    } else {
      assert "/" + leaf == "/results";
    }
  }

  /** A topic that a subscription matches goes to that subscription's handler. */
  lemma MatchedTopicIsRouted(base: string, leaf: string, topic: string)
    requires leaf in {"telemetry", "status", "results"}
    requires MatchesFilter(Subscription(base, leaf), topic)
    ensures Dispatch(topic) == RouteOf(leaf)
  {
    LastLevelMatches(base, leaf, topic);
    EndsWithLastLevel(topic);
    LeafDecides(topic, leaf);
  }

  lemma LastLevelMatches(base: string, leaf: string, topic: string)
    requires SlashFree(leaf) && leaf != "+" && MatchesFilter(Subscription(base, leaf), topic)
    ensures |Split(topic)| > 1 && Split(topic)[|Split(topic)| - 1] == leaf
  {
    SplitSubscription(base, leaf);
    var f := Split(Subscription(base, leaf));
    assert f[|f| - 1] == leaf;
  }
}
