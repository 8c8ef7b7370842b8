/**
 * The configuration package: the nil-tolerant regular-expression wrapper,
 * the per-metric configuration with its Prometheus description and value
 * type, and the defaulting and validation that LoadConfig applies to a
 * configuration once it has been decoded from YAML.
 */
module Config {
  import opened Wrappers
  import Strings

  const GaugeValueType := "gauge"
  const CounterValueType := "counter"
  const DeviceIdRegexGroup := "deviceid"
  const MetricNameRegexGroup := "metricname"
  const EncodingJSON := "JSON"

  /** A duration in nanoseconds, as Go's time.Duration. */
  type Duration = int

  const Minute: Duration := 60_000_000_000

  newtype Byte = x: int | 0 <= x < 256

  /**
   * A compiled regular expression (Go's *regexp.Regexp) as far as the
   * pipeline observes it. Its behaviour comes from Go's regexp engine, which
   * is not part of this model, so it is carried as data.
   */
  datatype Compiled = Compiled(
    matchString: string -> bool,
    findStringSubmatch: string -> Option<seq<string>>,
    subexpNames: seq<string>)

  /** The wrapper around a compiled expression; `r` is None for a wrapper that was never compiled. */
  datatype Regexp = Regexp(r: Option<Compiled>, pattern: string)

  /** Match on a possibly nil wrapper: nil, or a wrapper without a compiled expression, matches every string. */
  function Match(rf: Option<Regexp>, s: string): (b: bool)
    ensures rf.None? ==> b
    ensures rf.Some? && rf.value.r.None? ==> b
    ensures rf.Some? && rf.value.r.Some? ==> (b <==> rf.value.r.value.matchString(s))
  {
    rf.None? || rf.value.r.None? || rf.value.r.value.matchString(s)
  }

  /**
   * The map GroupValue builds: capture `i` of `captures` under name `i`
   * whenever both exist and the name is not empty; a later index overwrites
   * an earlier one of the same name.
   */
  function GroupValues(names: seq<string>, captures: seq<string>): map<string, string>
    decreases |names|
  {
    if names == [] then map[]
    else
      var i := |names| - 1;
      var before := GroupValues(names[..i], captures);
      if i < |captures| && names[i] != "" then before[names[i] := captures[i]] else before
  }

  /** The last index below `bound` that carries the non-empty name `group`. */
  function LastGroupIndex(names: seq<string>, group: string, bound: nat): (r: Option<nat>)
    ensures r.Some? ==> r.value < |names| && r.value < bound && names[r.value] == group && group != ""
    ensures r.Some? ==> forall j :: r.value < j < |names| && j < bound ==> names[j] != group
    ensures r.None? ==> group == "" || forall j :: 0 <= j < |names| && j < bound ==> names[j] != group
    decreases |names|
  {
    if names == [] then None
    else
      var i := |names| - 1;
      if i < bound && names[i] == group && group != "" then Some(i)
      else LastGroupIndex(names[..i], group, bound)
  }

  /** The group map holds `group` exactly when some capture carries that name, and then the last such capture. */
  lemma {:induction false} GroupValuesAt(names: seq<string>, captures: seq<string>, group: string)
    ensures match LastGroupIndex(names, group, |captures|)
            case None => group !in GroupValues(names, captures)
            case Some(i) => group in GroupValues(names, captures) && GroupValues(names, captures)[group] == captures[i]
    decreases |names|
  {
    if names != [] {
      var i := |names| - 1;
      GroupValuesAt(names[..i], captures, group);
    }
  }

  /**
   * The text captured by the named group `groupName`, or "" when the
   * expression does not match, has no group of that name, or the name is
   * empty. The wrapper must hold a compiled expression: Go dereferences it.
   */
  function GroupValue(rf: Regexp, s: string, groupName: string): (v: string)
    requires rf.r.Some?
    ensures rf.r.value.findStringSubmatch(s).None? ==> v == ""
    ensures groupName == "" || groupName !in rf.r.value.subexpNames ==> v == ""
    ensures rf.r.value.findStringSubmatch(s).Some? ==>
              var captures := rf.r.value.findStringSubmatch(s).value;
              v == match LastGroupIndex(rf.r.value.subexpNames, groupName, |captures|)
                   case None => ""
                   case Some(i) => captures[i]
  {
    var captures := match rf.r.value.findStringSubmatch(s) case None => [] case Some(m) => m;
    var groups := GroupValues(rf.r.value.subexpNames, captures);
    GroupValuesAt(rf.r.value.subexpNames, captures, groupName);
    if groupName in groups then groups[groupName] else ""
  }

  // What Go's regexp engine yields for the default device-ID pattern
  // `(.*/)?(?P<deviceid>.*)`: the leftmost match covers the first line (`.`
  // does not match a line break); the greedy optional group runs to the
  // line's last slash (empty when there is none) and `deviceid` is the rest.
  function LastSegmentSubmatch(s: string): (captures: seq<string>)
    ensures |captures| == 3 && captures[0] == Strings.FirstLine(s)
    ensures captures[1] + captures[2] == captures[0]
    ensures captures[1] == [] || captures[1][|captures[1]| - 1] == '/'
    ensures '/' !in captures[2]
    ensures '/' in captures[0] ==> captures[1] != []
  {
    var line := Strings.FirstLine(s);
    Strings.AfterLastIndex(line, '/');
    match Strings.LastIndexOfChar(line, '/')
    case None => [line, "", line]
    case Some(i) => assert line == line[..i + 1] + line[i + 1..]; [line, line[..i + 1], line[i + 1..]]
  }

  const DefaultDeviceIdPattern := "(.*/)?(?P<deviceid>.*)"

  /** The default device-ID expression, with the group names Go reports for it. */
  const DefaultDeviceIdRegex: Regexp :=
    Regexp(Some(Compiled(s => true, s => Some(LastSegmentSubmatch(s)), ["", "", DeviceIdRegexGroup])),
           DefaultDeviceIdPattern)

  /** The text after the last slash of the first line, which is what `deviceid` captures. */
  lemma LastSegment(topic: string)
    ensures var id := LastSegmentSubmatch(topic)[2];
            var line := Strings.FirstLine(topic);
            && '/' !in id
            && id == line[|line| - |id|..]
            && (|id| < |line| ==> line[|line| - |id| - 1] == '/')
            && ((forall j :: 0 <= j < |line| ==> line[j] != '/') ==> id == line)
  {
    var c := LastSegmentSubmatch(topic);
    var line := c[0];
    assert line[|line| - |c[2]|..] == c[2] && line[..|c[1]|] == c[1];
    if |c[2]| < |line| {
      assert line[|line| - |c[2]| - 1] == c[1][|c[1]| - 1];
    }
  }

  /** Under the default expression, GroupValue returns the `deviceid` capture. */
  lemma DefaultDeviceIdIsCapture(topic: string)
    ensures GroupValue(DefaultDeviceIdRegex, topic, DeviceIdRegexGroup) == LastSegmentSubmatch(topic)[2]
  {
    var c := DefaultDeviceIdRegex.r.value;
    assert c.findStringSubmatch(topic) == Some(LastSegmentSubmatch(topic));
    assert LastGroupIndex(c.subexpNames, DeviceIdRegexGroup, 3) == Some(2);
  }

  /**
   * The default expression takes as device ID the part of the topic's first
   * line after its last slash: it holds no slash, ends the line, and is
   * preceded by a slash unless it is the whole line.
   */
  lemma DefaultDeviceId(topic: string)
    ensures var id := GroupValue(DefaultDeviceIdRegex, topic, DeviceIdRegexGroup);
            var line := Strings.FirstLine(topic);
            && '/' !in id
            && id == line[|line| - |id|..]
            && (|id| < |line| ==> line[|line| - |id| - 1] == '/')
            && ((forall j :: 0 <= j < |line| ==> line[j] != '/') ==> id == line)
  {
    DefaultDeviceIdIsCapture(topic);
    LastSegment(topic);
  }

  /**
   * On a single-line topic `prefix/name` whose last segment `name` has no
   * slash, the default expression yields `name` (`foo/bar` gives `bar`,
   * `devices/dht22` gives `dht22`); a topic without any slash is its own
   * device ID.
   */
  lemma DefaultDeviceIdOfTopic(prefix: string, name: string)
    requires '\n' !in prefix && '\n' !in name && '/' !in name
    ensures GroupValue(DefaultDeviceIdRegex, prefix + "/" + name, DeviceIdRegexGroup) == name
    ensures GroupValue(DefaultDeviceIdRegex, name, DeviceIdRegexGroup) == name
  {
    var topic := prefix + "/" + name;
    assert '\n' !in topic by {
      forall k | 0 <= k < |topic| ensures topic[k] != '\n' {
        if k < |prefix| { assert topic[k] == prefix[k]; }
        else if k > |prefix| { assert topic[k] == name[k - |prefix| - 1]; }
      }
    }
    Strings.LastIndexAfter(prefix, '/', name);
    assert topic[|prefix| + 1..] == name;
    DefaultDeviceIdIsCapture(topic);
    DefaultDeviceIdIsCapture(name);
  }

  /** YAML form of a possibly nil wrapper: the empty string for nil, the pattern otherwise. */
  function MarshalYAML(rf: Option<Regexp>): (out: string)
    ensures rf.None? ==> out == ""
    ensures rf.Some? ==> out == rf.value.pattern
  {
    if rf.None? then "" else rf.value.pattern
  }

  datatype YamlError = NotAString | CompileError(pattern: string)

  /**
   * Decodes a wrapper from a YAML node. `decoded` is the node read as a
   * string (None when it is not one) and `compile` is Go's regexp.Compile.
   * On failure the receiver is returned unchanged with the error.
   */
  function UnmarshalYAML(rf: Regexp, decoded: Option<string>, compile: string -> Option<Compiled>): (res: (Regexp, Option<YamlError>))
    ensures decoded.None? ==> res == (rf, Some(NotAString))
    ensures decoded.Some? && compile(decoded.value).None? ==> res == (rf, Some(CompileError(decoded.value)))
    ensures decoded.Some? && compile(decoded.value).Some? ==>
              res.1.None? && res.0.r == compile(decoded.value) && MarshalYAML(Some(res.0)) == decoded.value
  {
    match decoded
    case None => (rf, Some(NotAString))
    case Some(pattern) =>
      match compile(pattern)
      case None => (rf, Some(CompileError(pattern)))
      case Some(c) => (Regexp(Some(c), pattern), None)
  }

  /** A wrapper built from a pattern that compiles; Go panics on one that does not. */
  function MustNewRegexp(pattern: string, compile: string -> Option<Compiled>): (rf: Regexp)
    requires compile(pattern).Some?
    ensures rf.r == compile(pattern)
    ensures MarshalYAML(Some(rf)) == pattern
  {
    Regexp(compile(pattern), pattern)
  }

  /**
   * Marshalling a wrapper whose expression is what its pattern compiles to,
   * then unmarshalling the result, gives back that same wrapper.
   */
  lemma MarshalThenUnmarshal(rf: Regexp, receiver: Regexp, compile: string -> Option<Compiled>)
    requires rf.r.Some? && compile(rf.pattern) == rf.r
    ensures UnmarshalYAML(receiver, Some(MarshalYAML(Some(rf))), compile) == (rf, None)
  {
  }

  datatype StringValueMapping = StringValueMapping(errorValue: Option<real>, mapping: map<string, real>)

  /**
   * One configured metric. `mqttValueScale` is the scale factor that the
   * parser reads; 0 means "not set".
   */
  datatype MetricConfig = MetricConfig(
    prometheusName: string,
    mqttName: string,
    sensorNameFilter: Regexp,
    help: string,
    valueType: string,
    constantLabels: map<string, string>,
    stringValueMapping: Option<StringValueMapping>,
    mqttValueScale: real)

  /** A Prometheus metric description (prometheus.Desc) as NewDesc receives it. */
  datatype Desc = Desc(fqName: string, help: string, variableLabels: seq<string>, constLabels: map<string, string>)

  datatype ValueType = CounterValue | GaugeValue | UntypedValue

  /** Every metric is described with the variable labels `sensor` then `topic` and the configured constant labels. */
  function PrometheusDescription(mc: MetricConfig): (d: Desc)
    ensures d.variableLabels == ["sensor", "topic"]
    ensures d.fqName == mc.prometheusName && d.help == mc.help && d.constLabels == mc.constantLabels
  {
    Desc(mc.prometheusName, mc.help, ["sensor", "topic"], mc.constantLabels)
  }

  /** "gauge" and "counter" select their kinds; every other string is untyped. */
  function PrometheusValueType(mc: MetricConfig): (t: ValueType)
    ensures t == GaugeValue <==> mc.valueType == GaugeValueType
    ensures t == CounterValue <==> mc.valueType == CounterValueType
    ensures t == UntypedValue <==> mc.valueType != GaugeValueType && mc.valueType != CounterValueType
  {
    if mc.valueType == GaugeValueType then GaugeValue
    else if mc.valueType == CounterValueType then CounterValue
    else UntypedValue
  }

  datatype CacheConfig = CacheConfig(timeout: Duration)

  datatype ObjectPerTopicConfig = ObjectPerTopicConfig(encoding: string)

  datatype MetricPerTopicConfig = MetricPerTopicConfig(metricNameRegex: Option<Regexp>)

  datatype MQTTConfig = MQTTConfig(
    server: string,
    topicPath: string,
    deviceIdRegex: Option<Regexp>,
    user: string,
    password: string,
    qos: Byte,
    objectPerTopic: Option<ObjectPerTopicConfig>,
    metricPerTopic: Option<MetricPerTopicConfig>,
    caCert: string,
    clientCert: string,
    clientKey: string,
    clientId: string)

  /** A configuration file; `None` stands for a section the file leaves out (a nil pointer). */
  datatype Config = Config(metrics: seq<MetricConfig>, mqtt: Option<MQTTConfig>, cache: Option<CacheConfig>)

  const MQTTConfigDefaults: MQTTConfig :=
    MQTTConfig("tcp://127.0.0.1:1883", "v1/devices/me", Some(DefaultDeviceIdRegex), "", "", 0, None, None, "", "", "", "")

  const CacheConfigDefaults: CacheConfig := CacheConfig(2 * Minute)

  datatype ConfigError = MissingDeviceIdGroup | MissingMetricNameGroup

  /** The wrapper is present, compiled, and declares the named group. */
  predicate HasGroup(rf: Option<Regexp>, group: string)
  {
    rf.Some? && rf.value.r.Some? && group in rf.value.r.value.subexpNames
  }

  /**
   * What YAML decoding guarantees and LoadConfig dereferences: every
   * expression present is compiled, and a metric-per-topic section carries
   * its expression.
   */
  predicate Decoded(cfg: Config)
  {
    cfg.mqtt.Some? ==>
      && (cfg.mqtt.value.deviceIdRegex.Some? ==> cfg.mqtt.value.deviceIdRegex.value.r.Some?)
      && (cfg.mqtt.value.metricPerTopic.Some? ==>
            var rf := cfg.mqtt.value.metricPerTopic.value.metricNameRegex;
            rf.Some? && rf.value.r.Some?)
  }

  /**
   * The decoded configuration with LoadConfig's defaults filled in: a
   * missing MQTT section, cache section or device-ID expression takes its
   * default, and without any extraction mode the JSON object-per-topic mode
   * is chosen.
   */
  function WithDefaults(cfg: Config): (d: Config)
    ensures d.metrics == cfg.metrics
    ensures d.mqtt.Some? && d.cache.Some? && d.mqtt.value.deviceIdRegex.Some?
    ensures d.cache == if cfg.cache.None? then Some(CacheConfig(2 * Minute)) else cfg.cache
    ensures cfg.mqtt.Some? && cfg.mqtt.value.deviceIdRegex.Some? ==> d.mqtt.value.deviceIdRegex == cfg.mqtt.value.deviceIdRegex
    ensures cfg.mqtt.None? || cfg.mqtt.value.deviceIdRegex.None? ==> d.mqtt.value.deviceIdRegex == Some(DefaultDeviceIdRegex)
    ensures d.mqtt.value.objectPerTopic.Some? || d.mqtt.value.metricPerTopic.Some?
    ensures var given := if cfg.mqtt.Some? then cfg.mqtt.value else MQTTConfigDefaults;
            && d.mqtt.value.metricPerTopic == given.metricPerTopic
            && d.mqtt.value.objectPerTopic ==
                 (if given.objectPerTopic.None? && given.metricPerTopic.None?
                  then Some(ObjectPerTopicConfig(EncodingJSON)) else given.objectPerTopic)
            && d.mqtt.value.server == given.server && d.mqtt.value.topicPath == given.topicPath
            && d.mqtt.value.user == given.user && d.mqtt.value.password == given.password
            && d.mqtt.value.qos == given.qos && d.mqtt.value.clientId == given.clientId
            && d.mqtt.value.caCert == given.caCert && d.mqtt.value.clientCert == given.clientCert
            && d.mqtt.value.clientKey == given.clientKey
  {
    var mqtt := if cfg.mqtt.None? then MQTTConfigDefaults else cfg.mqtt.value;
    var mqtt := if mqtt.deviceIdRegex.None? then mqtt.(deviceIdRegex := MQTTConfigDefaults.deviceIdRegex) else mqtt;
    var mqtt := if mqtt.objectPerTopic.None? && mqtt.metricPerTopic.None?
                then mqtt.(objectPerTopic := Some(ObjectPerTopicConfig(EncodingJSON))) else mqtt;
    Config(cfg.metrics, Some(mqtt), if cfg.cache.None? then Some(CacheConfigDefaults) else cfg.cache)
  }

  /** The defaulted configuration is accepted exactly when its expressions declare the groups the extractors read. */
  predicate Valid(cfg: Config)
    requires cfg.mqtt.Some?
  {
    && HasGroup(cfg.mqtt.value.deviceIdRegex, DeviceIdRegexGroup)
    && (cfg.mqtt.value.metricPerTopic.Some? ==>
          HasGroup(cfg.mqtt.value.metricPerTopic.value.metricNameRegex, MetricNameRegexGroup))
  }

  /** Whether `group` is among the subexpression names, found by a scan like LoadConfig's. */
  method DeclaresGroup(names: seq<string>, group: string) returns (found: bool)
    ensures found <==> group in names
  {
    found := false;
    var i := 0;
    while i < |names|
      invariant 0 <= i <= |names|
      invariant found <==> group in names[..i]
    {
      if names[i] == group {
        found := true;
      }
      assert names[..i + 1] == names[..i] + [names[i]];
      i := i + 1;
    }
    assert names[..i] == names;
  }

  /**
   * The part of LoadConfig after the YAML decode: fill in the defaults
   * step by step, then check that the device-ID expression declares
   * `deviceid` and, in metric-per-topic mode, that the metric-name
   * expression declares `metricname`.
   */
  method LoadConfig(decoded: Config) returns (r: Result<Config, ConfigError>)
    requires Decoded(decoded)
    ensures r.Ok? <==> Valid(WithDefaults(decoded))
    ensures r.Ok? ==> r.value == WithDefaults(decoded)
    ensures r.Err? ==> r.error == if HasGroup(WithDefaults(decoded).mqtt.value.deviceIdRegex, DeviceIdRegexGroup)
                                 then MissingMetricNameGroup else MissingDeviceIdGroup
  {
    var cfg := decoded;
    if cfg.mqtt.None? {
      cfg := cfg.(mqtt := Some(MQTTConfigDefaults));
    }
    if cfg.cache.None? {
      cfg := cfg.(cache := Some(CacheConfigDefaults));
    }
    if cfg.mqtt.value.deviceIdRegex.None? {
      cfg := cfg.(mqtt := Some(cfg.mqtt.value.(deviceIdRegex := MQTTConfigDefaults.deviceIdRegex)));
    }
    var validRegex := DeclaresGroup(cfg.mqtt.value.deviceIdRegex.value.r.value.subexpNames, DeviceIdRegexGroup);
    if !validRegex {
      return Err(MissingDeviceIdGroup);
    }
    if cfg.mqtt.value.objectPerTopic.None? && cfg.mqtt.value.metricPerTopic.None? {
      cfg := cfg.(mqtt := Some(cfg.mqtt.value.(objectPerTopic := Some(ObjectPerTopicConfig(EncodingJSON)))));
    }
    if cfg.mqtt.value.metricPerTopic.Some? {
      var rf := cfg.mqtt.value.metricPerTopic.value.metricNameRegex;
      validRegex := DeclaresGroup(rf.value.r.value.subexpNames, MetricNameRegexGroup);
      if !validRegex {
        return Err(MissingMetricNameGroup);
      }
    }
    return Ok(cfg);
  }
}
