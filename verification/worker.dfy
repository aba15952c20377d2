/** `ExportWorker`: turns one access-log line into metric events. The line
    is tokenized with the format of its source, and the field map is then
    classified into user-agent, OS, device-type, status, host and URI
    labels. Regular expressions, the user-agent parser, CIDR handling,
    float parsing and the line tokenizer are supplied from outside; the
    user-agent cache is the LRU model, threaded through as state. */
module Worker {
  import opened Wrappers
  import opened GoStrings
  import opened Fields
  import opened StrConv
  import opened Patterns
  import opened Subnets
  import opened LruCache
  import opened Config
  import opened Metrics

  /** `defaultLogFormat`: nginx's combined format with timing and status. */
  const DefaultLogFormat: string :=
    "$remote_addr - $remote_user [$time_local] \"$request\" $request_time $status $body_bytes_sent \"$http_referer\" \"$http_user_agent\" \"$http_x_forwarded_for\" $connection_requests"

  const RemoteAddrVar: string := "$remote_addr"
  const StatusVar: string := "$status"
  const HttpUserAgentVar: string := "$http_user_agent"
  const RequestTimeVar: string := "$request_time"
  const RequestVar: string := "$request"
  const HostVar: string := "$host"

  const Unknown: string := "unknown"
  const Internal: string := "internal"

  const UserAgentLabelName: string := "user_agent"
  const OsLabelName: string := "os"
  const DeviceLabelName: string := "device"

  const Mobile: string := "mobile"
  const Tablet: string := "tablet"
  const Desktop: string := "desktop"

  /** The user-agent, OS and device labels of one line. */
  datatype UaLabels = UaLabels(userAgent: string, os: string, device: string)

  /** What the user-agent parser reports: the three family names. */
  datatype Client = Client(userAgentFamily: string, osFamily: string, deviceFamily: string)

  /** One syslog line: the nginx host it came from and its text. */
  datatype LogLine = LogLine(nginxHost: string, content: string)

  /** The labels map stored in the cache. */
  type LabelMap = map<string, string>

  /** A worker: its collaborators and the rule lists it shares with the
      other workers. */
  datatype ExportWorker<!N> = ExportWorker(
    logLineParser: (string, string) -> Result<FieldMap, string>,
    userAgentParser: string -> Client,
    engine: Engine,
    netOps: NetOps<N>,
    parseFloat: string -> Result<real, string>,
    internalSubnets: seq<string>,
    sources: seq<Source>,
    userAgentSettings: seq<UserAgentReplacementSetting>,
    requestUriSettings: seq<RequestUriReplacementSetting>,
    hosts: seq<Host>)

  // ---------------------------------------------------------------------
  // detectFormat

  /** `k` is the first source of `nginxHost`. */
  predicate IsFirstSource(sources: seq<Source>, nginxHost: string, k: int) {
    && 0 <= k < |sources|
    && sources[k].host == nginxHost
    && forall j :: 0 <= j < k ==> sources[j].host != nginxHost
  }

  /** `detectFormat`: the log format of the first source whose host is the
      line's nginx host, otherwise the default format. */
  function DetectFormat(sources: seq<Source>, nginxHost: string): (format: string)
    ensures (forall k :: 0 <= k < |sources| ==> sources[k].host != nginxHost) ==> format == DefaultLogFormat
    ensures forall k :: IsFirstSource(sources, nginxHost, k) ==> format == sources[k].logFormat
  {
    if |sources| == 0 then DefaultLogFormat
    else if sources[0].host == nginxHost then sources[0].logFormat
    else
      var rest := DetectFormat(sources[1..], nginxHost);
      assert forall k :: IsFirstSource(sources, nginxHost, k) ==> IsFirstSource(sources[1..], nginxHost, k - 1);
      rest
  }

  // ---------------------------------------------------------------------
  // tryDetectCustomUserAgentLabels

  /** The labels a matching expression gives: each replacement template
      expanded against the part of the user agent the expression finds. */
  function RegexLabels(engine: Engine, re: Regexp, rep: UserAgentReplacement, ua: string): (l: UaLabels)
    ensures l.userAgent == engine.replaceAllString(re, engine.findString(re, ua), rep.userAgent)
    ensures l.os == engine.replaceAllString(re, engine.findString(re, ua), rep.os)
    ensures l.device == engine.replaceAllString(re, engine.findString(re, ua), rep.device)
  {
    var found := engine.findString(re, ua);
    UaLabels(
      engine.replaceAllString(re, found, rep.userAgent),
      engine.replaceAllString(re, found, rep.os),
      engine.replaceAllString(re, found, rep.device))
  }

  /** The labels one custom rule gives the user agent `ua`, if it applies:
      the regular expression is tried first, then the case-insensitive
      exact text. */
  function RuleLabels(engine: Engine, rule: UserAgentReplacementSetting, ua: string): (r: Option<UaLabels>)
    ensures r.Some? <==>
      (rule.matchRe.Some? && engine.matchString(rule.matchRe.value, ua))
      || (rule.matchValue != "" && ToLower(rule.matchValue) == ToLower(ua))
    ensures rule.matchRe.Some? && engine.matchString(rule.matchRe.value, ua) ==>
      r == Some(RegexLabels(engine, rule.matchRe.value, rule.replacements, ua))
    ensures !(rule.matchRe.Some? && engine.matchString(rule.matchRe.value, ua)) && r.Some? ==>
      r.value == UaLabels(rule.replacements.userAgent, rule.replacements.os, rule.replacements.device)
  {
    var rep := rule.replacements;
    if rule.matchRe.Some? && engine.matchString(rule.matchRe.value, ua) then
      Some(RegexLabels(engine, rule.matchRe.value, rep, ua))
    else if rule.matchValue != "" && ToLower(rule.matchValue) == ToLower(ua) then
      Some(UaLabels(rep.userAgent, rep.os, rep.device))
    else
      None
  }

  /** Reference: the labels of the last rule that applies. */
  function LastMatch(engine: Engine, rules: seq<UserAgentReplacementSetting>, ua: string): (r: Option<UaLabels>)
    ensures r.None? <==> forall k :: 0 <= k < |rules| ==> RuleLabels(engine, rules[k], ua).None?
    ensures r.Some? ==> exists k :: (
      && 0 <= k < |rules| && r == RuleLabels(engine, rules[k], ua)
      && forall j :: k < j < |rules| ==> RuleLabels(engine, rules[j], ua).None?)
  {
    if |rules| == 0 then None
    else
      var n := |rules| - 1;
      var here := RuleLabels(engine, rules[n], ua);
      if here.Some? then here
      else
        var rest := LastMatch(engine, rules[..n], ua);
        assert forall k :: 0 <= k < n ==> rules[..n][k] == rules[k];
        rest
  }

  /** The loop over the rules, as written: every rule is tried and each one
      that applies overwrites what earlier ones found. */
  function ScanRules(engine: Engine, rules: seq<UserAgentReplacementSetting>, ua: string, found: Option<UaLabels>): Option<UaLabels>
  {
    if |rules| == 0 then found
    else
      var here := RuleLabels(engine, rules[0], ua);
      ScanRules(engine, rules[1..], ua, if here.Some? then here else found)
  }

  /** The loop finds the last applying rule. */
  lemma {:induction false} ScanFindsLastMatch(engine: Engine, rules: seq<UserAgentReplacementSetting>, ua: string, found: Option<UaLabels>)
    ensures ScanRules(engine, rules, ua, found) ==
      if LastMatch(engine, rules, ua).Some? then LastMatch(engine, rules, ua) else found
  {
    if |rules| > 0 {
      var here := RuleLabels(engine, rules[0], ua);
      ScanFindsLastMatch(engine, rules[1..], ua, if here.Some? then here else found);
      LastMatchCons(engine, rules[0], rules[1..], ua);
      assert rules == [rules[0]] + rules[1..];
    }
  }

  lemma {:induction false} LastMatchCons(engine: Engine, rule: UserAgentReplacementSetting, rest: seq<UserAgentReplacementSetting>, ua: string)
    ensures LastMatch(engine, [rule] + rest, ua) ==
      if LastMatch(engine, rest, ua).Some? then LastMatch(engine, rest, ua) else RuleLabels(engine, rule, ua)
    decreases |rest|
  {
    var all := [rule] + rest;
    if |rest| == 0 {
      assert all == [rule];
      assert all[..0] == [];
    } else {
      var n := |rest| - 1;
      assert all[|all| - 1] == rest[n];
      assert all[..|all| - 1] == [rule] + rest[..n];
      LastMatchCons(engine, rule, rest[..n], ua);
    }
  }

  /** `tryDetectCustomUserAgentLabels`: nothing without a user agent;
      otherwise the labels of the last applying custom rule, if any. */
  function TryDetectCustomUserAgentLabels(engine: Engine, rules: seq<UserAgentReplacementSetting>, data: FieldMap): (r: Option<UaLabels>)
    ensures HttpUserAgentVar !in data ==> r.None?
    ensures HttpUserAgentVar in data ==> r == LastMatch(engine, rules, data[HttpUserAgentVar])
  {
    if HttpUserAgentVar in data then
      ScanFindsLastMatch(engine, rules, data[HttpUserAgentVar], None);
      ScanRules(engine, rules, data[HttpUserAgentVar], None)
    else None
  }

  /** When two rules apply, the later one decides. */
  lemma LaterRuleWins(engine: Engine, first: UserAgentReplacementSetting, second: UserAgentReplacementSetting, data: FieldMap)
    requires HttpUserAgentVar in data
    requires RuleLabels(engine, first, data[HttpUserAgentVar]).Some?
    requires RuleLabels(engine, second, data[HttpUserAgentVar]).Some?
    ensures TryDetectCustomUserAgentLabels(engine, [first, second], data) == RuleLabels(engine, second, data[HttpUserAgentVar])
  {
  }

  /** The exact-text rule of the worker test, matched whatever the case. */
  lemma ExactRuleIgnoresCase(engine: Engine)
    ensures var rule := UserAgentReplacementSetting(None, "myapp_android", UserAgentReplacement("mobile", "android", "myapp_android"));
      && TryDetectCustomUserAgentLabels(engine, [rule], map[HttpUserAgentVar := "MyApp_Android"])
         == Some(UaLabels("myapp_android", "android", "mobile"))
      && TryDetectCustomUserAgentLabels(engine, [rule], map[]) == None
      && TryDetectCustomUserAgentLabels(engine, [rule], map[HttpUserAgentVar := "myapp_ios/9.0"]) == None
  {
    var rule := UserAgentReplacementSetting(None, "myapp_android", UserAgentReplacement("mobile", "android", "myapp_android"));
    assert ToLower("MyApp_Android") == "myapp_android";
    assert ToLower("myapp_ios/9.0") != ToLower("myapp_android") by {
      assert ToLower("myapp_ios/9.0")[6] == 'i';
    }
    assert [rule][..0] == [];
  }

  // ---------------------------------------------------------------------
  // needParseUserAgent

  /** `needParseUserAgent`: parse unless the remote address is known to be
      in an internal subnet; a missing address or a malformed subnet means
      parse. */
  function NeedParseUserAgent<N>(ops: NetOps<N>, subnets: seq<string>, data: FieldMap): (r: bool)
    ensures !r <==> RemoteAddrVar in data && IsSubnetContainsIP(ops, data[RemoteAddrVar], subnets) == Success(true)
  {
    if RemoteAddrVar !in data then true
    else
      match IsSubnetContainsIP(ops, data[RemoteAddrVar], subnets)
      case Failure(_) => true
      case Success(contains) => !contains
  }

  // ---------------------------------------------------------------------
  // detectUserAgentLabels

  /** The three labels as the cache stores them. */
  function ToLabelMap(labels: UaLabels): LabelMap {
    map[UserAgentLabelName := labels.userAgent, OsLabelName := labels.os, DeviceLabelName := labels.device]
  }

  /** Reading a label map back; a missing key reads as "". */
  function FromLabelMap(m: LabelMap): UaLabels {
    UaLabels(
      if UserAgentLabelName in m then m[UserAgentLabelName] else "",
      if OsLabelName in m then m[OsLabelName] else "",
      if DeviceLabelName in m then m[DeviceLabelName] else "")
  }

  lemma LabelMapRoundTrip(labels: UaLabels)
    ensures FromLabelMap(ToLabelMap(labels)) == labels
  {
  }

  /** The labels the user-agent parser gives: the OS family title-cased. */
  function ParsedLabels(client: Client): (labels: UaLabels)
    ensures labels.userAgent == client.userAgentFamily && labels.device == client.deviceFamily
    ensures labels.os == Title(client.osFamily)
  {
    UaLabels(client.userAgentFamily, Title(client.osFamily), client.deviceFamily)
  }

  /** The result of `detectUserAgentLabels`: labels, cache afterwards and the
      events emitted. */
  datatype Detection = Detection(labels: UaLabels, cache: Cache<LabelMap>, events: seq<Event>)

  /** `detectUserAgentLabels`: unknown labels without a user agent; a cache
      hit gives the cached labels and emits nothing; a miss parses the user
      agent, stores the labels under it and reports the cache growth. */
  function DetectUserAgentLabels(parser: string -> Client, cache: Cache<LabelMap>, data: FieldMap, nginxHost: string): (r: Detection)
    requires Valid(cache)
    ensures Valid(r.cache) && r.cache.size == cache.size
    ensures HttpUserAgentVar !in data ==> r == Detection(UaLabels(Unknown, Unknown, Unknown), cache, [])
    ensures HttpUserAgentVar in data && data[HttpUserAgentVar] in cache.entries ==>
      var ua := data[HttpUserAgentVar];
      && r.labels == FromLabelMap(cache.entries[ua])
      && r.cache.entries == cache.entries
      && r.events == []
    ensures HttpUserAgentVar in data && data[HttpUserAgentVar] !in cache.entries ==>
      var ua := data[HttpUserAgentVar];
      && r.labels == ParsedLabels(parser(ua))
      && ua in r.cache.entries && r.cache.entries[ua] == ToLabelMap(r.labels)
      && r.events == [
        HostCounter(UserAgentCachedTotal, nginxHost),
        Event(UserAgentCurrentCachedTotal, [nginxHost], Len(r.cache) as real)]
    ensures Names(r.events) ==
      if HttpUserAgentVar in data && data[HttpUserAgentVar] !in cache.entries
      then {UserAgentCachedTotal, UserAgentCurrentCachedTotal} else {}
  {
    if HttpUserAgentVar !in data then Detection(UaLabels(Unknown, Unknown, Unknown), cache, [])
    else
      var ua := data[HttpUserAgentVar];
      var (hit, touched) := Get(cache, ua);
      match hit
      case Some(m) => Detection(FromLabelMap(m), touched, [])
      case None =>
        var labels := ParsedLabels(parser(ua));
        var stored := Set(touched, ua, ToLabelMap(labels));
        var cached := HostCounter(UserAgentCachedTotal, nginxHost);
        var current := Event(UserAgentCurrentCachedTotal, [nginxHost], Len(stored) as real);
        LabelMapRoundTrip(labels);
        NamesOfFew(cached, current, current);
        Detection(labels, stored, [cached, current])
  }

  /** A user agent seen once is a cache hit the next time: same labels, no
      events, no change to the stored entries. */
  lemma SecondDetectionHits(parser: string -> Client, cache: Cache<LabelMap>, data: FieldMap, nginxHost: string)
    requires Valid(cache) && HttpUserAgentVar in data
    ensures var first := DetectUserAgentLabels(parser, cache, data, nginxHost);
      var second := DetectUserAgentLabels(parser, first.cache, data, nginxHost);
      && second.labels == first.labels
      && second.events == []
      && second.cache.entries == first.cache.entries
  {
    var ua := data[HttpUserAgentVar];
    if ua !in cache.entries {
      LabelMapRoundTrip(ParsedLabels(parser(ua)));
    }
  }

  /** The title-cased OS family never equals the lower-case names the
      device-type rules compare with. */
  lemma TitledOsIsNeverLowerCase(os: string)
    ensures Title(os) != "android"
    ensures Title(os) != "blackberry os"
    ensures Title(os) != "blackberry tablet os"
  {
    if |os| > 0 {
      assert Title(os)[0] == UpperChar(os[0]);
      assert "android"[0] == 'a' && "blackberry os"[0] == 'b' && "blackberry tablet os"[0] == 'b';
    }
  }

  // ---------------------------------------------------------------------
  // detectDeviceType

  /** One step of the device-type decision: whether it fires and what it
      then decides. */
  datatype DeviceRule = DeviceRule(fires: bool, deviceType: string)

  /** The decision steps for a present user agent, in the order the checks
      appear in exporter/worker.go:321-365: the iPad and iPhone/iPod text
      tests, the two device-family tests, the two BlackBerry OS tests, the
      Windows-touch and mobile text tests, and the Android OS test last. */
  function DeviceRules(userAgent: string, userAgentFamily: string, osFamily: string, deviceFamily: string): seq<DeviceRule> {
    [
      DeviceRule(Contains(userAgent, "ipad"), Mobile),
      DeviceRule(Contains(userAgent, "iphone") || Contains(userAgent, "ipod"), Mobile),
      DeviceRule(deviceFamily == "generic tablet", Tablet),
      DeviceRule(deviceFamily == "generic smartphone" || deviceFamily == "generic feature phone", Mobile),
      DeviceRule(osFamily == "blackberry tablet os", Tablet),
      DeviceRule(osFamily == "blackberry os", Mobile),
      DeviceRule(Contains(userAgent, "windows") && Contains(userAgent, "touch"), Mobile),
      DeviceRule(Contains(userAgent, "mobile") || Contains(userAgentFamily, "mobile"), Mobile),
      DeviceRule(osFamily == "android", Tablet)
    ]
  }

  /** Reference: the decision of the first step that fires, else `fallback`. */
  function FirstFiring(rules: seq<DeviceRule>, fallback: string): (r: string)
    ensures (forall k :: 0 <= k < |rules| ==> !rules[k].fires) ==> r == fallback
    ensures forall k :: 0 <= k < |rules| && rules[k].fires && (forall j :: 0 <= j < k ==> !rules[j].fires) ==> r == rules[k].deviceType
  {
    if |rules| == 0 then fallback
    else if rules[0].fires then rules[0].deviceType
    else
      assert forall k :: 1 <= k < |rules| ==> rules[k] == rules[1..][k - 1];
      FirstFiring(rules[1..], fallback)
  }

  lemma FirstFiringAt(rules: seq<DeviceRule>, k: nat, fallback: string)
    requires k < |rules| && rules[k].fires
    requires forall j :: 0 <= j < k ==> !rules[j].fires
    ensures FirstFiring(rules, fallback) == rules[k].deviceType
  {
  }

  lemma FirstFiringNone(rules: seq<DeviceRule>, fallback: string)
    requires forall k :: 0 <= k < |rules| ==> !rules[k].fires
    ensures FirstFiring(rules, fallback) == fallback
  {
  }

  predicate IsDeviceType(s: string) {
    s == Mobile || s == Tablet || s == Desktop
  }

  /** `detectDeviceType`. */
  function DetectDeviceType(data: FieldMap, userAgentFamily: string, osFamily: string, deviceFamily: string): (r: string)
    ensures IsDeviceType(r)
    ensures HttpUserAgentVar !in data ==> r == Desktop
  {
    if HttpUserAgentVar !in data then Desktop
    else
      var userAgent := data[HttpUserAgentVar];
      if Contains(userAgent, "ipad") then Mobile
      else if Contains(userAgent, "iphone") || Contains(userAgent, "ipod") then Mobile
      else if deviceFamily == "generic tablet" then Tablet
      else if deviceFamily == "generic smartphone" || deviceFamily == "generic feature phone" then Mobile
      else if osFamily == "blackberry tablet os" then Tablet
      else if osFamily == "blackberry os" then Mobile
      else if Contains(userAgent, "windows") && Contains(userAgent, "touch") then Mobile
      else if Contains(userAgent, "mobile") || Contains(userAgentFamily, "mobile") then Mobile
      else if osFamily == "android" then Tablet
      else Desktop
  }

  /** The device type is decided by the first step that fires, desktop when
      none does. */
  lemma DeviceTypeIsFirstFiring(data: FieldMap, userAgentFamily: string, osFamily: string, deviceFamily: string)
    requires HttpUserAgentVar in data
    ensures DetectDeviceType(data, userAgentFamily, osFamily, deviceFamily)
      == FirstFiring(DeviceRules(data[HttpUserAgentVar], userAgentFamily, osFamily, deviceFamily), Desktop)
  {
    var ua := data[HttpUserAgentVar];
    FirstFiringOfSteps(
      Contains(ua, "ipad"),
      Contains(ua, "iphone") || Contains(ua, "ipod"),
      deviceFamily == "generic tablet",
      deviceFamily == "generic smartphone" || deviceFamily == "generic feature phone",
      osFamily == "blackberry tablet os",
      osFamily == "blackberry os",
      Contains(ua, "windows") && Contains(ua, "touch"),
      Contains(ua, "mobile") || Contains(userAgentFamily, "mobile"),
      osFamily == "android");
  }

  /** The reference over the nine steps, by whether each fires. */
  lemma FirstFiringOfSteps(a: bool, b: bool, c: bool, d: bool, e: bool, f: bool, g: bool, h: bool, i: bool)
    ensures FirstFiring([
        DeviceRule(a, Mobile), DeviceRule(b, Mobile), DeviceRule(c, Tablet),
        DeviceRule(d, Mobile), DeviceRule(e, Tablet), DeviceRule(f, Mobile),
        DeviceRule(g, Mobile), DeviceRule(h, Mobile), DeviceRule(i, Tablet)], Desktop)
      == if a || b then Mobile else if c then Tablet else if d then Mobile
         else if e then Tablet else if f || g || h then Mobile
         else if i then Tablet else Desktop
  {
    var r := [
        DeviceRule(a, Mobile), DeviceRule(b, Mobile), DeviceRule(c, Tablet),
        DeviceRule(d, Mobile), DeviceRule(e, Tablet), DeviceRule(f, Mobile),
        DeviceRule(g, Mobile), DeviceRule(h, Mobile), DeviceRule(i, Tablet)];
    var k := if a then 0 else if b then 1 else if c then 2 else if d then 3
      else if e then 4 else if f then 5 else if g then 6 else if h then 7
      else if i then 8 else 9;
    if k < 9 {
      FirstFiringAt(r, k, Desktop);
    } else {
      FirstFiringNone(r, Desktop);
    }
  }

  /** With a title-cased OS family, as the parser path produces, the OS
      plays no part in the device type. */
  lemma TitledOsIsIgnored(data: FieldMap, userAgentFamily: string, os: string, deviceFamily: string)
    ensures DetectDeviceType(data, userAgentFamily, Title(os), deviceFamily)
      == DetectDeviceType(data, userAgentFamily, "", deviceFamily)
  {
    TitledOsIsNeverLowerCase(os);
  }

  /** Without any of the markers the text is looked for, the text plays no
      part in the device type: the families alone decide. */
  lemma UnmarkedTextIsIgnored(data: FieldMap, userAgentFamily: string, osFamily: string, deviceFamily: string)
    requires HttpUserAgentVar in data
    requires var ua := data[HttpUserAgentVar];
      && !Contains(ua, "ipad") && !Contains(ua, "iphone") && !Contains(ua, "ipod")
      && !Contains(ua, "windows") && !Contains(ua, "mobile")
    ensures DetectDeviceType(data, userAgentFamily, osFamily, deviceFamily)
      == DetectDeviceType(map[HttpUserAgentVar := ""], userAgentFamily, osFamily, deviceFamily)
  {
  }

  /** A user agent naming an Apple handheld is a mobile device, whatever
      the families say. */
  lemma AppleTextIsMobile(data: FieldMap, userAgentFamily: string, osFamily: string, deviceFamily: string)
    requires HttpUserAgentVar in data
    requires var ua := data[HttpUserAgentVar];
      Contains(ua, "ipad") || Contains(ua, "iphone") || Contains(ua, "ipod")
    ensures DetectDeviceType(data, userAgentFamily, osFamily, deviceFamily) == Mobile
  {
  }

  /** The other text markers come after the family checks: a Windows touch
      or "mobile" user agent is mobile unless the families have already
      called it a tablet; it is never a desktop. */
  lemma OtherMarkedTextIsMobile(data: FieldMap, userAgentFamily: string, osFamily: string, deviceFamily: string)
    requires HttpUserAgentVar in data
    requires var ua := data[HttpUserAgentVar];
      (Contains(ua, "windows") && Contains(ua, "touch")) || Contains(ua, "mobile")
    ensures var r := DetectDeviceType(data, userAgentFamily, osFamily, deviceFamily);
      r == Mobile || (r == Tablet && (deviceFamily == "generic tablet" || osFamily == "blackberry tablet os"))
  {
  }

  /** The marked user agents of the worker test. */
  lemma TestTextsAreMarked(ipad: string, iphone: string, ipod: string, windowsTouch: string, mobile: string)
    requires ipad == "bla bla ipad bla" && iphone == "bla bla iphone bla" && ipod == "bla bla ipod bla"
    requires windowsTouch == "bla bla windows touch bla" && mobile == "bla bla mobile bla"
    ensures Contains(ipad, "ipad") && Contains(iphone, "iphone") && Contains(ipod, "ipod")
    ensures Contains(windowsTouch, "windows") && Contains(windowsTouch, "touch")
    ensures Contains(mobile, "mobile")
  {
    SliceContained(ipad, 8, 12);
    assert ipad[8..12] == "ipad";
    SliceContained(iphone, 8, 14);
    assert iphone[8..14] == "iphone";
    SliceContained(ipod, 8, 12);
    assert ipod[8..12] == "ipod";
    SliceContained(windowsTouch, 8, 15);
    assert windowsTouch[8..15] == "windows";
    SliceContained(windowsTouch, 16, 21);
    assert windowsTouch[16..21] == "touch";
    SliceContained(mobile, 8, 14);
    assert mobile[8..14] == "mobile";
  }

  /** "bla bla bla", the neutral user agent of the worker test, carries none
      of the markers. */
  lemma PlainTextIsUnmarked(ua: string)
    requires ua == "bla bla bla"
    ensures !Contains(ua, "ipad") && !Contains(ua, "iphone") && !Contains(ua, "ipod")
    ensures !Contains(ua, "windows") && !Contains(ua, "mobile")
  {
    MissingCharNotContained(ua, "ipad", 0);
    MissingCharNotContained(ua, "iphone", 0);
    MissingCharNotContained(ua, "ipod", 0);
    MissingCharNotContained(ua, "windows", 0);
    MissingCharNotContained(ua, "mobile", 0);
  }

  /** Cases from the worker test where the text says nothing and the parsed
      families decide, and the case without a user agent. */
  lemma DeviceTypeByFamilies(family: string)
    requires family == "someUserAgent"
    ensures DetectDeviceType(map[], family, "someOs", "someDevice") == Desktop
    ensures var data := map[HttpUserAgentVar := ""];
      && DetectDeviceType(data, family, "someOs", "generic tablet") == Tablet
      && DetectDeviceType(data, family, "someOs", "generic smartphone") == Mobile
      && DetectDeviceType(data, family, "someOs", "generic feature phone") == Mobile
      && DetectDeviceType(data, family, "blackberry tablet os", "someDevice") == Tablet
      && DetectDeviceType(data, family, "blackberry os", "someDevice") == Mobile
      && DetectDeviceType(data, "mobile", "someOs", "someDevice") == Mobile
      && DetectDeviceType(data, family, "android", "someDevice") == Tablet
      && DetectDeviceType(data, family, "someOs", "someDevice") == Desktop
  {
    MissingCharNotContained(family, "mobile", 2);
    assert HasPrefix("mobile", "mobile");
  }

  // ---------------------------------------------------------------------
  // detectHttpCodeLabel

  /** `detectHttpCodeLabel`: the status re-rendered in decimal, or
      "unknown" when it is missing, not an integer, or zero. Only the
      non-integer case reports an error. */
  function DetectHttpCodeLabel(data: FieldMap): (r: (string, Option<NumError>))
    ensures StatusVar !in data ==> r == (Unknown, None)
    ensures StatusVar in data ==>
      var parsed := Atoi(data[StatusVar]);
      && (r.1.Some? <==> parsed.Failure?)
      && (r.1.Some? ==> r.1.value == parsed.error)
      && (r.0 == Unknown <==> parsed.Failure? || parsed.value == 0)
      && (r.0 != Unknown ==> r.0 == Itoa(parsed.value) && Atoi(r.0) == parsed)
  {
    if StatusVar in data then
      match Atoi(data[StatusVar])
      case Failure(err) => (Unknown, Some(err))
      case Success(code) =>
        if code == 0 then (Unknown, None)
        else
          AtoiItoa(code);
          ItoaCanonical(code);
          assert Itoa(code) != Unknown by { assert Unknown[0] == 'u'; }
          (Itoa(code), None)
    else (Unknown, None)
  }

  /** Cases from the worker test: "0" gives "unknown" with no error. */
  lemma HttpCodeExamples()
    ensures DetectHttpCodeLabel(map[StatusVar := "200"]) == ("200", None)
    ensures DetectHttpCodeLabel(map[StatusVar := "invalid"]) == (Unknown, Some(ErrSyntax))
    ensures DetectHttpCodeLabel(map[]) == (Unknown, None)
    ensures DetectHttpCodeLabel(map[StatusVar := "0"]) == (Unknown, None)
  {
    assert DigitsValue("200") == 200 by {
      assert "200"[..2] == "20" && "20"[..1] == "2" && "2"[..0] == "";
    }
    assert DigitsValue("0") == 0 by { assert "0"[..0] == ""; }
    assert Itoa(200) == "200";
    assert !IsDigit("invalid"[0]);
  }

  // ---------------------------------------------------------------------
  // detectHostLabel

  /** The replacement of the first host rule matching `host` exactly. */
  function HostReplacement(hosts: seq<Host>, host: string): (r: Option<string>)
    ensures r.None? <==> forall k :: 0 <= k < |hosts| ==> hosts[k].matchValue != host
    ensures r.Some? ==> exists k :: (
      && 0 <= k < |hosts| && hosts[k].matchValue == host
      && r.value == hosts[k].replacement && forall j :: 0 <= j < k ==> hosts[j].matchValue != host)
  {
    if |hosts| == 0 then None
    else if hosts[0].matchValue == host then Some(hosts[0].replacement)
    else
      var rest := HostReplacement(hosts[1..], host);
      assert forall k :: 1 <= k < |hosts| ==> hosts[k] == hosts[1..][k - 1];
      assert rest.Some? ==> exists k :: (
        && 0 <= k < |hosts| && hosts[k].matchValue == host
        && rest.value == hosts[k].replacement && forall j :: 0 <= j < k ==> hosts[j].matchValue != host) by {
        if rest.Some? {
          var k :| 0 <= k < |hosts[1..]| && hosts[1..][k].matchValue == host
            && rest.value == hosts[1..][k].replacement && forall j :: 0 <= j < k ==> hosts[1..][j].matchValue != host;
          assert forall j :: 0 <= j < k + 1 ==> hosts[j].matchValue != host by {
            forall j | 0 <= j < k + 1 ensures hosts[j].matchValue != host {
              if j > 0 { assert hosts[j] == hosts[1..][j - 1]; }
            }
          }
        }
      }
      rest
  }

  /** `detectHostLabel`: "unknown" without a host; otherwise the host, or
      the replacement of the first rule naming it exactly. */
  function DetectHostLabel(hosts: seq<Host>, data: FieldMap): (r: string)
    ensures HostVar !in data ==> r == Unknown
    ensures HostVar in data ==> r == HostReplacement(hosts, data[HostVar]).GetOr(data[HostVar])
  {
    if HostVar in data then
      var host := data[HostVar];
      match HostReplacement(hosts, host)
      case Some(replacement) => replacement
      case None => host
    else Unknown
  }

  /** Cases from the worker test. */
  lemma HostLabelExamples()
    ensures var hosts := [Host("site.ru", "www.site.ru")];
      && DetectHostLabel(hosts, map[HostVar := "www.site.ru"]) == "www.site.ru"
      && DetectHostLabel(hosts, map[HostVar := "site.ru"]) == "www.site.ru"
      && DetectHostLabel(hosts, map[]) == Unknown
  {
  }

  // ---------------------------------------------------------------------
  // detectURILabel

  /** The rule ends the URI loop: its method filter rejects the request, or
      its expression finds a non-empty path. */
  predicate UriRuleStops(engine: Engine, rule: RequestUriReplacementSetting, httpMethod: string, uri: string) {
    (rule.httpMethod != "" && rule.httpMethod != httpMethod) || engine.findString(rule.regexp, uri) != ""
  }

  /** The loop over the URI rules, as written. */
  function ApplyUriRules(engine: Engine, rules: seq<RequestUriReplacementSetting>, httpMethod: string, uri: string): (r: string)
  {
    if |rules| == 0 then ""
    else
      var rule := rules[0];
      if rule.httpMethod != "" && rule.httpMethod != httpMethod then ""
      else
        var path := engine.findString(rule.regexp, uri);
        if path != "" then engine.replaceAllString(rule.regexp, path, rule.replacements.requestUri)
        else ApplyUriRules(engine, rules[1..], httpMethod, uri)
  }

  /** Index of the first rule that ends the loop, or `|rules|`. */
  function FirstUriStop(engine: Engine, rules: seq<RequestUriReplacementSetting>, httpMethod: string, uri: string): (k: nat)
    ensures k <= |rules|
    ensures forall j :: 0 <= j < k ==> !UriRuleStops(engine, rules[j], httpMethod, uri)
    ensures k < |rules| ==> UriRuleStops(engine, rules[k], httpMethod, uri)
  {
    if |rules| == 0 || UriRuleStops(engine, rules[0], httpMethod, uri) then 0
    else
      var k := FirstUriStop(engine, rules[1..], httpMethod, uri);
      assert forall j :: 1 <= j < k + 1 ==> rules[j] == rules[1..][j - 1];
      k + 1
  }

  /** The first rule that ends the loop decides: "" if its method filter
      rejects the request, its substituted path otherwise; "" when no rule
      ends the loop. */
  lemma {:induction false} UriDecidedByFirstStop(engine: Engine, rules: seq<RequestUriReplacementSetting>, httpMethod: string, uri: string)
    ensures var k := FirstUriStop(engine, rules, httpMethod, uri);
      ApplyUriRules(engine, rules, httpMethod, uri) ==
        if k == |rules| then ""
        else if rules[k].httpMethod != "" && rules[k].httpMethod != httpMethod then ""
        else engine.replaceAllString(rules[k].regexp, engine.findString(rules[k].regexp, uri), rules[k].replacements.requestUri)
  {
    if |rules| > 0 && !UriRuleStops(engine, rules[0], httpMethod, uri) {
      UriDecidedByFirstStop(engine, rules[1..], httpMethod, uri);
    }
  }

  /** `detectURILabel`: "" without a request line or when it has no second
      space-separated piece; otherwise the URI rules applied to its method
      and path. */
  function DetectUriLabel(engine: Engine, rules: seq<RequestUriReplacementSetting>, data: FieldMap): (r: string)
    ensures RequestVar !in data ==> r == ""
    ensures RequestVar in data && Count(data[RequestVar], ' ') == 0 ==> r == ""
    ensures RequestVar in data && Count(data[RequestVar], ' ') > 0 ==>
      var request := Split(data[RequestVar], ' ');
      r == ApplyUriRules(engine, rules, request[0], request[1])
  {
    if RequestVar in data then
      var request := Split(data[RequestVar], ' ');
      if |request| < 2 then "" else ApplyUriRules(engine, rules, request[0], request[1])
    else ""
  }

  /** A rule with another method stops the search, hiding every later rule. */
  lemma MethodMismatchHidesLaterRules(engine: Engine, rule: RequestUriReplacementSetting, later: seq<RequestUriReplacementSetting>, httpMethod: string, uri: string)
    requires rule.httpMethod != "" && rule.httpMethod != httpMethod
    ensures ApplyUriRules(engine, [rule] + later, httpMethod, uri) == ""
  {
  }

  // ---------------------------------------------------------------------
  // detectResponseDuration

  /** `detectResponseDuration`: no duration without `$request_time`, the
      parse error when it is not a number, the number otherwise. */
  function DetectResponseDuration(parseFloat: string -> Result<real, string>, data: FieldMap): (r: Result<Option<real>, string>)
    ensures RequestTimeVar !in data ==> r == Success(None)
    ensures RequestTimeVar in data ==>
      match parseFloat(data[RequestTimeVar])
      case Success(d) => r == Success(Some(d))
      case Failure(err) => r == Failure(err)
  {
    if RequestTimeVar !in data then Success(None)
    else
      match parseFloat(data[RequestTimeVar])
      case Success(d) => Success(Some(d))
      case Failure(err) => Failure(err)
  }

  // ---------------------------------------------------------------------
  // exportMetrics and Process

  /** The user-agent stage of `exportMetrics`: a custom rule decides first;
      otherwise an address in an internal subnet gets "internal" labels and
      counts as filtered, and any other line goes to the parser and cache. */
  function UserAgentStage<N>(w: ExportWorker<N>, cache: Cache<LabelMap>, data: FieldMap, nginxHost: string): (r: Detection)
    requires Valid(cache)
    ensures Valid(r.cache) && r.cache.size == cache.size
    ensures TryDetectCustomUserAgentLabels(w.engine, w.userAgentSettings, data).Some? ==>
      r == Detection(TryDetectCustomUserAgentLabels(w.engine, w.userAgentSettings, data).value, cache, [])
    ensures Names(r.events) <= {LogsFilteredTotal, UserAgentCachedTotal, UserAgentCurrentCachedTotal}
    ensures LogsFilteredTotal in Names(r.events) <==>
      TryDetectCustomUserAgentLabels(w.engine, w.userAgentSettings, data).None?
      && !NeedParseUserAgent(w.netOps, w.internalSubnets, data)
    ensures UserAgentCachedTotal in Names(r.events) <==>
      && TryDetectCustomUserAgentLabels(w.engine, w.userAgentSettings, data).None?
      && NeedParseUserAgent(w.netOps, w.internalSubnets, data)
      && HttpUserAgentVar in data && data[HttpUserAgentVar] !in cache.entries
  {
    match TryDetectCustomUserAgentLabels(w.engine, w.userAgentSettings, data)
    case Some(labels) =>
      assert Names([]) == {};
      Detection(labels, cache, [])
    case None =>
      if NeedParseUserAgent(w.netOps, w.internalSubnets, data) then
        DetectUserAgentLabels(w.userAgentParser, cache, data, nginxHost)
      else
        var filtered := HostCounter(LogsFilteredTotal, nginxHost);
        NamesOfFew(filtered, filtered, filtered);
        Detection(UaLabels(Internal, Internal, Internal), cache, [filtered])
  }

  /** The labels of a line besides the user-agent ones, and its response
      time if it has one. */
  datatype LineLabels = LineLabels(
    deviceType: string, httpCode: string, host: string, uri: string,
    duration: Result<Option<real>, string>)

  /** The labelling steps of `exportMetrics` after the user-agent stage. */
  function LabelLine<N>(w: ExportWorker<N>, data: FieldMap, ua: UaLabels): (l: LineLabels)
    ensures IsDeviceType(l.deviceType)
    ensures l.duration == DetectResponseDuration(w.parseFloat, data)
  {
    LineLabels(
      DetectDeviceType(data, ua.userAgent, ua.os, ua.device),
      DetectHttpCodeLabel(data).0,
      DetectHostLabel(w.hosts, data),
      DetectUriLabel(w.engine, w.requestUriSettings, data),
      DetectResponseDuration(w.parseFloat, data))
  }

  predicate HasDuration(l: LineLabels) {
    l.duration.Success? && l.duration.value.Some?
  }

  /** The names of the response-time observations. */
  const TimingNames: set<MetricName> := {HostResponseTimeSeconds, UserAgentResponseTimeSeconds, UriResponseTimeSeconds}

  /** The three response-time observations, made only when a duration was
      found; labelled by host, then user agent or URI, then status. */
  function TimingEvents(l: LineLabels, ua: UaLabels): (r: seq<Event>)
    ensures r == [] || |r| == 3
    ensures r != [] <==> HasDuration(l)
    ensures Names(r) == if r == [] then {} else TimingNames
    ensures r != [] ==> forall k :: 0 <= k < 3 ==> r[k].value == l.duration.value.value && |r[k].labels| > 0 && r[k].labels[0] == l.host
    ensures r != [] ==>
      && r[0].name == HostResponseTimeSeconds && r[0].labels == [l.host, l.httpCode]
      && r[1].name == UserAgentResponseTimeSeconds && r[1].labels == [l.host, ua.userAgent, l.httpCode]
      && r[2].name == UriResponseTimeSeconds && r[2].labels == [l.host, l.uri, l.httpCode]
  {
    match l.duration
    case Success(Some(d)) =>
      var r := [
        Event(HostResponseTimeSeconds, [l.host, l.httpCode], d),
        Event(UserAgentResponseTimeSeconds, [l.host, ua.userAgent, l.httpCode], d),
        Event(UriResponseTimeSeconds, [l.host, l.uri, l.httpCode], d) ];
      NamesOfFew(r[0], r[1], r[2]);
      r
    case _ => []
  }

  /** The two request counters by host: with user agent and status, and
      with OS and device type. */
  function RequestEvents(l: LineLabels, ua: UaLabels): (r: seq<Event>)
    ensures |r| == 2
    ensures Names(r) == {UserAgentRequestsTotal, OsDeviceTypeRequestsTotal}
    ensures r[0].labels == [l.host, ua.userAgent, l.httpCode] && r[1].labels == [l.host, ua.os, l.deviceType]
  {
    var r := [
      Event(UserAgentRequestsTotal, [l.host, ua.userAgent, l.httpCode], 0.0),
      Event(OsDeviceTypeRequestsTotal, [l.host, ua.os, l.deviceType], 0.0)];
    NamesOfFew(r[0], r[1], r[1]);
    r
  }

  /** The events of a line in the order they are emitted: those of the
      user-agent stage, the timings, the request counters and finally the
      nginx-host counter. */
  function LineEvents(stageEvents: seq<Event>, l: LineLabels, ua: UaLabels, nginxHost: string): (r: seq<Event>)
    ensures |stageEvents| + 3 <= |r| <= |stageEvents| + 6
    ensures r[..|stageEvents|] == stageEvents
    ensures r[|r| - 1] == HostCounter(NginxRequestsTotal, nginxHost)
    ensures Names(r) == Names(stageEvents) + (if HasDuration(l) then TimingNames else {})
      + {UserAgentRequestsTotal, OsDeviceTypeRequestsTotal, NginxRequestsTotal}
    ensures NginxRequestsTotal !in Names(stageEvents) ==> NginxRequestsTotal !in Names(r[..|r| - 1])
  {
    var timings := TimingEvents(l, ua);
    var requests := RequestEvents(l, ua);
    var last := HostCounter(NginxRequestsTotal, nginxHost);
    var r := stageEvents + timings + requests + [last];
    NamesAppend(stageEvents, timings);
    NamesAppend(stageEvents + timings, requests);
    NamesAppend(stageEvents + timings + requests, [last]);
    NamesOfFew(last, last, last);
    assert r[..|r| - 1] == stageEvents + timings + requests;
    assert r[..|stageEvents|] == stageEvents;
    r
  }

  /** The line is counted once by its nginx host and never by another
      host, provided the stage did not count it. */
  lemma {:induction false} CountedOnce(stageEvents: seq<Event>, l: LineLabels, ua: UaLabels, nginxHost: string, host: string)
    requires NginxRequestsTotal !in Names(stageEvents)
    ensures CountOf(LineEvents(stageEvents, l, ua, nginxHost), NginxRequestsTotal, [host]) ==
      if host == nginxHost then 1 else 0
  {
    var events := LineEvents(stageEvents, l, ua, nginxHost);
    var n := |events| - 1;
    assert events == events[..n] + [events[n]];
    CountOfAbsent(events[..n], NginxRequestsTotal, [host]);
    CountOfAppend(events[..n], [events[n]], NginxRequestsTotal, [host]);
    assert [events[n]][1..] == [];
    assert [nginxHost] == [host] ==> nginxHost == [host][0];
  }

  /** What a worker leaves behind after a line: the cache and the events. */
  datatype Outcome = Outcome(cache: Cache<LabelMap>, events: seq<Event>)

  /** The names a line's events can carry. */
  const LineNames: set<MetricName> :=
    {LogsFilteredTotal, UserAgentCachedTotal, UserAgentCurrentCachedTotal} + TimingNames
    + {UserAgentRequestsTotal, OsDeviceTypeRequestsTotal, NginxRequestsTotal}

  /** A name the later steps never emit is present after them exactly when
      the user-agent stage emitted it. */
  lemma StageNameKept(stageEvents: seq<Event>, l: LineLabels, ua: UaLabels, nginxHost: string, name: MetricName)
    requires name in {LogsFilteredTotal, UserAgentCachedTotal, UserAgentCurrentCachedTotal}
    ensures name in Names(LineEvents(stageEvents, l, ua, nginxHost)) <==> name in Names(stageEvents)
  {
  }

  lemma DispatchNamesOutsideLine()
    ensures LogsTotal !in LineNames && LogsDroppedTotal !in LineNames && LogsFailParsedTotal !in LineNames
  {
  }

  /** `exportMetrics`: the user-agent stage, the other labels, then the
      events. The line is counted once by its nginx host, and only the
      names a line can produce appear; the received, dropped and failed
      counters are left to others. */
  function ExportMetrics<N>(w: ExportWorker<N>, cache: Cache<LabelMap>, data: FieldMap, nginxHost: string): (r: Outcome)
    requires Valid(cache)
    ensures Valid(r.cache) && r.cache.size == cache.size
    ensures 3 <= |r.events| <= 8
    ensures r.events[|r.events| - 1] == HostCounter(NginxRequestsTotal, nginxHost)
    ensures CountOf(r.events, NginxRequestsTotal, [nginxHost]) == 1
    ensures Names(r.events) <= LineNames
    ensures LogsTotal !in Names(r.events) && LogsDroppedTotal !in Names(r.events)
    ensures LogsFailParsedTotal !in Names(r.events)
  {
    var stage := UserAgentStage(w, cache, data, nginxHost);
    var line := LabelLine(w, data, stage.labels);
    var events := LineEvents(stage.events, line, stage.labels, nginxHost);
    CountedOnce(stage.events, line, stage.labels, nginxHost, nginxHost);
    DispatchNamesOutsideLine();
    Outcome(stage.cache, events)
  }

  /** The events of `ExportMetrics` in terms of its steps. */
  lemma ExportSteps<N>(w: ExportWorker<N>, cache: Cache<LabelMap>, data: FieldMap, nginxHost: string)
    requires Valid(cache)
    ensures var stage := UserAgentStage(w, cache, data, nginxHost);
      ExportMetrics(w, cache, data, nginxHost).events ==
        LineEvents(stage.events, LabelLine(w, data, stage.labels), stage.labels, nginxHost)
  {
  }

  /** No other host's nginx counter moves. */
  lemma ExportCountsOwnHostOnly<N>(w: ExportWorker<N>, cache: Cache<LabelMap>, data: FieldMap, nginxHost: string, host: string)
    requires Valid(cache)
    ensures CountOf(ExportMetrics(w, cache, data, nginxHost).events, NginxRequestsTotal, [host]) ==
      if host == nginxHost then 1 else 0
  {
    var stage := UserAgentStage(w, cache, data, nginxHost);
    ExportSteps(w, cache, data, nginxHost);
    CountedOnce(stage.events, LabelLine(w, data, stage.labels), stage.labels, nginxHost, host);
  }

  /** A line is counted as filtered exactly when no custom rule applies and
      its remote address lies in an internal subnet. */
  lemma FilteredIffInternal<N>(w: ExportWorker<N>, cache: Cache<LabelMap>, data: FieldMap, nginxHost: string)
    requires Valid(cache)
    ensures LogsFilteredTotal in Names(ExportMetrics(w, cache, data, nginxHost).events) <==>
      && TryDetectCustomUserAgentLabels(w.engine, w.userAgentSettings, data).None?
      && RemoteAddrVar in data
      && IsSubnetContainsIP(w.netOps, data[RemoteAddrVar], w.internalSubnets) == Success(true)
  {
    var stage := UserAgentStage(w, cache, data, nginxHost);
    ExportSteps(w, cache, data, nginxHost);
    StageNameKept(stage.events, LabelLine(w, data, stage.labels), stage.labels, nginxHost, LogsFilteredTotal);
  }

  /** A user agent is newly cached exactly when no custom rule applies, the
      address is not internal, and the agent was not cached yet. */
  lemma CachedIffMiss<N>(w: ExportWorker<N>, cache: Cache<LabelMap>, data: FieldMap, nginxHost: string)
    requires Valid(cache)
    ensures UserAgentCachedTotal in Names(ExportMetrics(w, cache, data, nginxHost).events) <==>
      && TryDetectCustomUserAgentLabels(w.engine, w.userAgentSettings, data).None?
      && NeedParseUserAgent(w.netOps, w.internalSubnets, data)
      && HttpUserAgentVar in data && data[HttpUserAgentVar] !in cache.entries
  {
    var stage := UserAgentStage(w, cache, data, nginxHost);
    ExportSteps(w, cache, data, nginxHost);
    StageNameKept(stage.events, LabelLine(w, data, stage.labels), stage.labels, nginxHost, UserAgentCachedTotal);
  }

  /** Response times are observed exactly when the request time parses. */
  lemma TimingsIffDuration<N>(w: ExportWorker<N>, cache: Cache<LabelMap>, data: FieldMap, nginxHost: string)
    requires Valid(cache)
    ensures HostResponseTimeSeconds in Names(ExportMetrics(w, cache, data, nginxHost).events) <==>
      RequestTimeVar in data && w.parseFloat(data[RequestTimeVar]).Success?
  {
    var stage := UserAgentStage(w, cache, data, nginxHost);
    ExportSteps(w, cache, data, nginxHost);
    var line := LabelLine(w, data, stage.labels);
    TimingNameIffDuration(stage.events, line, stage.labels, nginxHost);
    assert HasDuration(line) <==> RequestTimeVar in data && w.parseFloat(data[RequestTimeVar]).Success?;
  }

  lemma TimingNameIffDuration(stageEvents: seq<Event>, l: LineLabels, ua: UaLabels, nginxHost: string)
    requires Names(stageEvents) <= {LogsFilteredTotal, UserAgentCachedTotal, UserAgentCurrentCachedTotal}
    ensures HostResponseTimeSeconds in Names(LineEvents(stageEvents, l, ua, nginxHost)) <==> HasDuration(l)
  {
    assert HostResponseTimeSeconds !in Names(stageEvents);
  }

  /** `Process`: the line is tokenized with the format of its source; a line
      that does not fit is counted as failed and its metrics are still
      exported, from an empty field map. */
  function Process<N>(w: ExportWorker<N>, cache: Cache<LabelMap>, line: LogLine): (r: Outcome)
    requires Valid(cache)
    ensures Valid(r.cache) && r.cache.size == cache.size
    ensures w.logLineParser(DetectFormat(w.sources, line.nginxHost), line.content).Success? ==>
      r == ExportMetrics(w, cache, w.logLineParser(DetectFormat(w.sources, line.nginxHost), line.content).value, line.nginxHost)
    ensures w.logLineParser(DetectFormat(w.sources, line.nginxHost), line.content).Failure? ==>
      && |r.events| > 0
      && r.events[0] == HostCounter(LogsFailParsedTotal, line.nginxHost)
      && r.events[1..] == ExportMetrics(w, cache, map[], line.nginxHost).events
    ensures LogsFailParsedTotal in Names(r.events) <==>
      w.logLineParser(DetectFormat(w.sources, line.nginxHost), line.content).Failure?
    ensures CountOf(r.events, NginxRequestsTotal, [line.nginxHost]) == 1
    ensures Names(r.events) <= LineNames + {LogsFailParsedTotal}
    ensures LogsTotal !in Names(r.events) && LogsDroppedTotal !in Names(r.events)
  {
    var format := DetectFormat(w.sources, line.nginxHost);
    match w.logLineParser(format, line.content)
    case Success(data) =>
      ExportMetrics(w, cache, data, line.nginxHost)
    case Failure(_) =>
      var out := ExportMetrics(w, cache, map[], line.nginxHost);
      FailedPrefix(line.nginxHost, out.events, line.nginxHost);
      Outcome(out.cache, [HostCounter(LogsFailParsedTotal, line.nginxHost)] + out.events)
  }

  /** Prefixing a line's events with the failed-parse counter adds that
      name and no nginx-host count. */
  lemma FailedPrefix(nginxHost: string, rest: seq<Event>, host: string)
    ensures var events := [HostCounter(LogsFailParsedTotal, nginxHost)] + rest;
      && Names(events) == {LogsFailParsedTotal} + Names(rest)
      && CountOf(events, NginxRequestsTotal, [host]) == CountOf(rest, NginxRequestsTotal, [host])
  {
    var failed := [HostCounter(LogsFailParsedTotal, nginxHost)];
    NamesOfFew(failed[0], failed[0], failed[0]);
    NamesAppend(failed, rest);
    CountOfAppend(failed, rest, NginxRequestsTotal, [host]);
    CountOfAbsent(failed, NginxRequestsTotal, [host]);
  }

  /** A processed line moves its own host's nginx counter once, no other
      host's, and never the received or dropped counters. */
  lemma ProcessCounts<N>(w: ExportWorker<N>, cache: Cache<LabelMap>, line: LogLine, host: string)
    requires Valid(cache)
    ensures var events := Process(w, cache, line).events;
      && CountOf(events, NginxRequestsTotal, [host]) == (if host == line.nginxHost then 1 else 0)
      && CountOf(events, LogsTotal, [host]) == 0
      && CountOf(events, LogsDroppedTotal, [host]) == 0
  {
    var parsed := w.logLineParser(DetectFormat(w.sources, line.nginxHost), line.content);
    var events := Process(w, cache, line).events;
    CountOfAbsent(events, LogsTotal, [host]);
    CountOfAbsent(events, LogsDroppedTotal, [host]);
    if parsed.Success? {
      ExportCountsOwnHostOnly(w, cache, parsed.value, line.nginxHost, host);
    } else {
      var rest := ExportMetrics(w, cache, map[], line.nginxHost).events;
      assert events == [events[0]] + rest;
      FailedPrefix(line.nginxHost, rest, host);
      ExportCountsOwnHostOnly(w, cache, map[], line.nginxHost, host);
    }
  }

  /** A line that does not fit is exported as if it had no fields: unknown
      user-agent labels, a desktop device, unknown status and host, no URI
      and no timings. */
  lemma UnparsedLineLabels<N>(w: ExportWorker<N>, cache: Cache<LabelMap>, nginxHost: string)
    requires Valid(cache)
    ensures ExportMetrics(w, cache, map[], nginxHost) == Outcome(cache, [
      Event(UserAgentRequestsTotal, [Unknown, Unknown, Unknown], 0.0),
      Event(OsDeviceTypeRequestsTotal, [Unknown, Unknown, Desktop], 0.0),
      HostCounter(NginxRequestsTotal, nginxHost)])
  {
  }
}
