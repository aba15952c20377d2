/** The exporter's configuration: the setting records, the defaults, and
    the compilation of the raw user-agent and request-URI entries into the
    rules the worker applies. Reading the file and decoding YAML are not
    modelled; the decoded document is the input. */
module Config {
  import opened Wrappers
  import opened Patterns

  const DefaultUserAgentCacheSize: int := 100000
  const DefaultExportWorkers: int := 100

  /** Labels a custom user-agent rule assigns. */
  datatype UserAgentReplacement = UserAgentReplacement(device: string, os: string, userAgent: string)

  /** The label a request-URI rule assigns. */
  datatype RequestUriReplacement = RequestUriReplacement(requestUri: string)

  /** A syslog source: its host name and the log format its lines use. */
  datatype Source = Source(host: string, logFormat: string)

  /** A host-label replacement. */
  datatype Host = Host(matchValue: string, replacement: string)

  /** A `user_agents` entry as written in the file. */
  datatype RawUserAgentSetting = RawUserAgentSetting(matchRe: string, matchValue: string, replacements: UserAgentReplacement)

  /** A `request_uris` entry as written in the file. */
  datatype RawRequestUriSetting = RawRequestUriSetting(matchRe: string, matchMethod: string, replacements: RequestUriReplacement)

  /** A compiled user-agent rule: by regular expression when `matchRe` is
      present, otherwise by case-insensitive equality with `matchValue`. */
  datatype UserAgentReplacementSetting = UserAgentReplacementSetting(
    matchRe: Option<Regexp>, matchValue: string, replacements: UserAgentReplacement)

  /** A compiled request-URI rule; an empty `httpMethod` matches any method. */
  datatype RequestUriReplacementSetting = RequestUriReplacementSetting(
    httpMethod: string, regexp: Regexp, replacements: RequestUriReplacement)

  datatype Global = Global(
    internalSubnets: seq<string>,
    userAgentCacheSize: int,
    exportWorkers: int,
    userAgentReplacementSettingsRaw: seq<RawUserAgentSetting>,
    requestUriReplacementSettingsRaw: seq<RawRequestUriSetting>,
    hosts: seq<Host>,
    userAgentReplacementSettings: seq<UserAgentReplacementSetting>,
    requestUriReplacementSettings: seq<RequestUriReplacementSetting>)

  datatype Config = Config(global: Global, sources: seq<Source>)

  /** The decoded file. A key the file leaves out is `None` and keeps the
      value set before decoding. */
  datatype Document = Document(
    internalSubnets: seq<string>,
    userAgentCacheSize: Option<int>,
    exportWorkers: Option<int>,
    userAgents: seq<RawUserAgentSetting>,
    requestUris: seq<RawRequestUriSetting>,
    hosts: seq<Host>,
    sources: seq<Source>)

  /** An entry the user-agent loop keeps. */
  predicate IsKept(raw: RawUserAgentSetting) {
    raw.matchRe != "" || raw.matchValue != ""
  }

  /** A well-formed compiled user-agent rule: exactly one of the two match
      kinds, and a non-empty one. */
  predicate IsWellFormed(rule: UserAgentReplacementSetting) {
    match rule.matchRe
    case Some(re) => re.source != "" && rule.matchValue == ""
    case None => rule.matchValue != ""
  }

  /** One kept entry compiled: the regular expression takes precedence, and
      the exact-match text is then dropped. */
  function CompileUserAgentSetting(raw: RawUserAgentSetting): (rule: UserAgentReplacementSetting)
    requires IsKept(raw)
    ensures IsWellFormed(rule) && rule.replacements == raw.replacements
    ensures raw.matchRe != "" ==> rule.matchRe == Some(Regexp(raw.matchRe))
    ensures raw.matchRe == "" ==> rule.matchValue == raw.matchValue
  {
    if raw.matchRe != "" then UserAgentReplacementSetting(Some(Regexp(raw.matchRe)), "", raw.replacements)
    else UserAgentReplacementSetting(None, raw.matchValue, raw.replacements)
  }

  /** The first loop of `MakeConfigFromFile`: entries with neither key set
      are dropped, the others compiled in order. */
  function CompileUserAgentSettings(raws: seq<RawUserAgentSetting>): (rules: seq<UserAgentReplacementSetting>)
    ensures |rules| <= |raws|
    ensures forall k :: 0 <= k < |rules| ==> IsWellFormed(rules[k])
    ensures (forall k :: 0 <= k < |raws| ==> IsKept(raws[k])) ==> |rules| == |raws|
  {
    if |raws| == 0 then []
    else
      var rest := CompileUserAgentSettings(raws[1..]);
      assert forall k :: 0 <= k < |raws| - 1 ==> raws[1..][k] == raws[k + 1];
      if IsKept(raws[0]) then [CompileUserAgentSetting(raws[0])] + rest else rest
  }

  /** Compilation works entry by entry: the rules of two lists are the rules
      of the first followed by those of the second. */
  lemma {:induction false} CompileUserAgentSettingsAppend(a: seq<RawUserAgentSetting>, b: seq<RawUserAgentSetting>)
    ensures CompileUserAgentSettings(a + b) == CompileUserAgentSettings(a) + CompileUserAgentSettings(b)
  {
    if |a| > 0 {
      assert (a + b)[0] == a[0];
      assert (a + b)[1..] == a[1..] + b;
      CompileUserAgentSettingsAppend(a[1..], b);
      var head := if IsKept(a[0]) then [CompileUserAgentSetting(a[0])] else [];
      assert CompileUserAgentSettings(a + b) == head + CompileUserAgentSettings(a[1..] + b);
      assert CompileUserAgentSettings(a) == head + CompileUserAgentSettings(a[1..]);
    } else {
      assert a + b == b;
    }
  }

  /** A single entry: dropped when neither key is set, otherwise one rule. */
  lemma CompileOneUserAgentSetting(raw: RawUserAgentSetting)
    ensures CompileUserAgentSettings([raw]) == if IsKept(raw) then [CompileUserAgentSetting(raw)] else []
  {
    assert [raw][1..] == [];
  }

  /** Kept entries keep their relative order: the i-th compiled rule comes
      from the i-th kept entry. */
  lemma {:induction false} CompiledFromKeptEntries(raws: seq<RawUserAgentSetting>, i: nat)
    requires i < |CompileUserAgentSettings(raws)|
    ensures exists k :: (
      && 0 <= k < |raws| && IsKept(raws[k]) && CountKept(raws[..k]) == i
      && CompileUserAgentSettings(raws)[i] == CompileUserAgentSetting(raws[k]))
  {
    var rest := raws[1..];
    if IsKept(raws[0]) && i == 0 {
      assert raws[..0] == [];
    } else {
      var j := if IsKept(raws[0]) then i - 1 else i;
      CompiledFromKeptEntries(rest, j);
      var k :| 0 <= k < |rest| && IsKept(rest[k]) && CountKept(rest[..k]) == j
        && CompileUserAgentSettings(rest)[j] == CompileUserAgentSetting(rest[k]);
      assert raws[..k + 1] == [raws[0]] + rest[..k];
      CountKeptCons(raws[0], rest[..k]);
    }
  }

  /** How many entries of `raws` are kept. */
  function CountKept(raws: seq<RawUserAgentSetting>): nat {
    if |raws| == 0 then 0 else (if IsKept(raws[0]) then 1 else 0) + CountKept(raws[1..])
  }

  lemma CountKeptCons(raw: RawUserAgentSetting, raws: seq<RawUserAgentSetting>)
    ensures CountKept([raw] + raws) == (if IsKept(raw) then 1 else 0) + CountKept(raws)
  {
    assert ([raw] + raws)[1..] == raws;
  }

  /** The number of rules is the number of kept entries. */
  lemma {:induction false} CompiledCount(raws: seq<RawUserAgentSetting>)
    ensures |CompileUserAgentSettings(raws)| == CountKept(raws)
  {
    if |raws| > 0 {
      CompiledCount(raws[1..]);
    }
  }

  /** The second loop: one rule per raw entry, in order. */
  function CompileRequestUriSettings(raws: seq<RawRequestUriSetting>): (rules: seq<RequestUriReplacementSetting>)
    ensures |rules| == |raws|
    ensures forall k :: 0 <= k < |raws| ==>
      && rules[k].httpMethod == raws[k].matchMethod
      && rules[k].regexp == Regexp(raws[k].matchRe)
      && rules[k].replacements == raws[k].replacements
  {
    seq(|raws|, k requires 0 <= k < |raws| =>
      RequestUriReplacementSetting(raws[k].matchMethod, Regexp(raws[k].matchRe), raws[k].replacements))
  }

  /** `MakeConfigFromFile` after the file has been read and decoded: an
      error from reading or decoding is returned as is; otherwise the
      defaults stand wherever the file is silent and both rule lists are
      compiled. */
  function MakeConfig(loaded: Result<Document, string>): (r: Result<Config, string>)
    ensures r.Failure? <==> loaded.Failure?
    ensures r.Failure? ==> r.error == loaded.error
    ensures r.Success? ==>
      var doc, g := loaded.value, r.value.global;
      && g.userAgentCacheSize == doc.userAgentCacheSize.GetOr(DefaultUserAgentCacheSize)
      && g.exportWorkers == doc.exportWorkers.GetOr(DefaultExportWorkers)
      && g.userAgentReplacementSettings == CompileUserAgentSettings(doc.userAgents)
      && g.requestUriReplacementSettings == CompileRequestUriSettings(doc.requestUris)
      && r.value.sources == doc.sources
      && g.hosts == doc.hosts
      && g.internalSubnets == doc.internalSubnets
  {
    match loaded
    case Failure(err) => Failure(err)
    case Success(doc) =>
      var global := Global(
        doc.internalSubnets,
        doc.userAgentCacheSize.GetOr(DefaultUserAgentCacheSize),
        doc.exportWorkers.GetOr(DefaultExportWorkers),
        doc.userAgents,
        doc.requestUris,
        doc.hosts,
        CompileUserAgentSettings(doc.userAgents),
        CompileRequestUriSettings(doc.requestUris));
      Success(Config(global, doc.sources))
  }

  /** A file that sets neither size gets a 100000-entry cache and 100 workers. */
  lemma DefaultsApply(doc: Document)
    requires doc.userAgentCacheSize.None? && doc.exportWorkers.None?
    ensures MakeConfig(Success(doc)).value.global.userAgentCacheSize == 100000
    ensures MakeConfig(Success(doc)).value.global.exportWorkers == 100
  {
  }
}
