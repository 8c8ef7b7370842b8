/**
 * The parser: metric configurations grouped by their MQTT name, the choice
 * of the configuration that applies to a device, and the coercion of a
 * decoded value into a sample.
 */
module Parser {
  import opened Wrappers
  import opened Config
  import opened Json
  import opened Collector

  /** The separator of JSON paths and the configurations under each MQTT name. */
  datatype Parser = Parser(separator: string, metricConfigs: map<string, seq<MetricConfig>>)

  /** The configurations of `metrics` whose MQTT name is `key`, in input order. */
  function ConfigsNamed(metrics: seq<MetricConfig>, key: string): (r: seq<MetricConfig>)
    ensures |r| <= |metrics|
    ensures forall j :: 0 <= j < |r| ==> r[j].mqttName == key
    decreases |metrics|
  {
    if metrics == [] then []
    else
      var n := |metrics| - 1;
      ConfigsNamed(metrics[..n], key) + (if metrics[n].mqttName == key then [metrics[n]] else [])
  }

  /** Extending the input by one configuration extends its own name's group by it and no other group. */
  lemma ConfigsNamedSnoc(metrics: seq<MetricConfig>, i: nat, key: string)
    requires i < |metrics|
    ensures ConfigsNamed(metrics[..i + 1], key)
            == ConfigsNamed(metrics[..i], key) + (if metrics[i].mqttName == key then [metrics[i]] else [])
  {
    assert metrics[..i + 1][..i] == metrics[..i];
  }

  /** A name that no configuration carries has no configurations. */
  lemma {:induction false} ConfigsNamedAbsent(metrics: seq<MetricConfig>, key: string)
    requires forall i :: 0 <= i < |metrics| ==> metrics[i].mqttName != key
    ensures ConfigsNamed(metrics, key) == []
    decreases |metrics|
  {
    if metrics != [] {
      ConfigsNamedAbsent(metrics[..|metrics| - 1], key);
    }
  }

  /** The configurations named `key` among a prefix come first among all of them. */
  lemma {:induction false} ConfigsNamedPrefix(metrics: seq<MetricConfig>, m: nat, key: string)
    requires m <= |metrics|
    ensures ConfigsNamed(metrics[..m], key) <= ConfigsNamed(metrics, key)
    decreases |metrics| - m
  {
    if m < |metrics| {
      ConfigsNamedPrefix(metrics, m + 1, key);
      assert metrics[..m + 1][..m] == metrics[..m];
    } else {
      assert metrics[..m] == metrics;
    }
  }

  /** A name has configurations exactly when some configuration carries it. */
  lemma ConfigsNamedEmpty(metrics: seq<MetricConfig>, key: string)
    ensures ConfigsNamed(metrics, key) == [] <==> forall j :: 0 <= j < |metrics| ==> metrics[j].mqttName != key
  {
    if ConfigsNamed(metrics, key) == [] {
      forall j | 0 <= j < |metrics|
        ensures metrics[j].mqttName != key
      {
        if metrics[j].mqttName == key {
          ConfigsNamedIndex(metrics, j);
        }
      }
    } else if forall j :: 0 <= j < |metrics| ==> metrics[j].mqttName != key {
      ConfigsNamedAbsent(metrics, key);
    }
  }

  /**
   * Every configuration is kept under its own name, after exactly the
   * earlier configurations of that name: order within a name is input order
   * and none is dropped.
   */
  lemma ConfigsNamedIndex(metrics: seq<MetricConfig>, i: nat)
    requires i < |metrics|
    ensures var named := ConfigsNamed(metrics, metrics[i].mqttName);
            var before := |ConfigsNamed(metrics[..i], metrics[i].mqttName)|;
            before < |named| && named[before] == metrics[i]
  {
    var key := metrics[i].mqttName;
    ConfigsNamedPrefix(metrics, i + 1, key);
    assert metrics[..i + 1][..i] == metrics[..i];
  }

  /** Builds the parser: every configuration appended under its MQTT name. */
  method NewParser(metrics: seq<MetricConfig>, separator: string) returns (p: Parser)
    ensures p.separator == separator
    ensures forall k :: k in p.metricConfigs <==> exists i :: 0 <= i < |metrics| && metrics[i].mqttName == k
    ensures forall k :: k in p.metricConfigs ==> p.metricConfigs[k] == ConfigsNamed(metrics, k)
  {
    var cfgs: map<string, seq<MetricConfig>> := map[];
    var i := 0;
    while i < |metrics|
      invariant 0 <= i <= |metrics|
      invariant forall k :: k in cfgs ==> cfgs[k] == ConfigsNamed(metrics[..i], k) != []
      invariant forall k :: k !in cfgs ==> ConfigsNamed(metrics[..i], k) == []
    {
      var key := metrics[i].mqttName;
      var existing := if key in cfgs then cfgs[key] else [];
      cfgs := cfgs[key := existing + [metrics[i]]];
      forall k
        ensures k in cfgs ==> cfgs[k] == ConfigsNamed(metrics[..i + 1], k) != []
        ensures k !in cfgs ==> ConfigsNamed(metrics[..i + 1], k) == []
      {
        ConfigsNamedSnoc(metrics, i, k);
      }
      i := i + 1;
    }
    assert metrics[..i] == metrics;
    forall k
      ensures k in cfgs <==> exists j :: 0 <= j < |metrics| && metrics[j].mqttName == k
    {
      ConfigsNamedEmpty(metrics, k);
    }
    p := Parser(separator, cfgs);
  }

  /** The configurations under `key`; a missing key reads as Go's nil slice. */
  function ConfigsFor(p: Parser, key: string): seq<MetricConfig>
  {
    if key in p.metricConfigs then p.metricConfigs[key] else []
  }

  /** The sensor-name filter of `c` accepts `deviceId`. */
  predicate Accepts(c: MetricConfig, deviceId: string)
  {
    Match(Some(c.sensorNameFilter), deviceId)
  }

  /** The index of the first configuration whose filter accepts the device. */
  function FirstAccepting(cfgs: seq<MetricConfig>, deviceId: string): (r: Option<nat>)
    ensures r.Some? ==> r.value < |cfgs| && Accepts(cfgs[r.value], deviceId)
    ensures r.Some? ==> forall j :: 0 <= j < r.value ==> !Accepts(cfgs[j], deviceId)
    ensures r.None? ==> forall j :: 0 <= j < |cfgs| ==> !Accepts(cfgs[j], deviceId)
    decreases |cfgs|
  {
    if cfgs == [] then None
    else if Accepts(cfgs[0], deviceId) then Some(0)
    else
      var rest := FirstAccepting(cfgs[1..], deviceId);
      if rest.None? then None else Some(rest.value + 1)
  }

  /**
   * validMetric: the first configuration under `metric` whose sensor-name
   * filter accepts the device, or None when there is none.
   */
  function ValidMetric(p: Parser, metric: string, deviceId: string): (r: Option<MetricConfig>)
    ensures r.None? <==> forall j :: 0 <= j < |ConfigsFor(p, metric)| ==> !Accepts(ConfigsFor(p, metric)[j], deviceId)
    ensures r.Some? ==> exists i :: 0 <= i < |ConfigsFor(p, metric)| && ConfigsFor(p, metric)[i] == r.value
                          && Accepts(r.value, deviceId)
                          && forall j :: 0 <= j < i ==> !Accepts(ConfigsFor(p, metric)[j], deviceId)
  {
    var cfgs := ConfigsFor(p, metric);
    var i := FirstAccepting(cfgs, deviceId);
    if i.None? then None else Some(cfgs[i.value])
  }

  /** Why a decoded value could not be turned into a number. */
  datatype CoerceError =
    | UnexpectedString(s: string)   // a string the value mapping does not know, with no error value
    | UnparsableString(s: string)   // a string that is not a float, with no value mapping
    | UnexpectedType(v: Json)       // neither a bool, a string nor a number

  /**
   * The number a decoded value stands for under `cfg`: a bool is 1 or 0, a
   * number is itself, a string goes through the value mapping (a miss
   * falling back to the error value) or, without a mapping, through
   * `parseFloat` (strconv.ParseFloat, whose grammar is not modelled).
   */
  function Coerce(cfg: MetricConfig, value: Json, parseFloat: string -> Option<real>): (r: Result<real, CoerceError>)
    ensures value.Bool? ==> r == Ok(if value.b then 1.0 else 0.0)
    ensures value.Number? ==> r == Ok(value.n)
    ensures !(value.Bool? || value.Number? || value.Str?) ==> r == Err(UnexpectedType(value))
    ensures value.Str? && cfg.stringValueMapping.Some? ==>
              var svm := cfg.stringValueMapping.value;
              if value.s in svm.mapping then r == Ok(svm.mapping[value.s])
              else if svm.errorValue.Some? then r == Ok(svm.errorValue.value)
              else r == Err(UnexpectedString(value.s))
    ensures value.Str? && cfg.stringValueMapping.None? ==>
              if parseFloat(value.s).Some? then r == Ok(parseFloat(value.s).value)
              else r == Err(UnparsableString(value.s))
  {
    match value
    case Bool(b) => Ok(if b then 1.0 else 0.0)
    case Str(s) =>
      if cfg.stringValueMapping.Some? then
        var svm := cfg.stringValueMapping.value;
        if s in svm.mapping then Ok(svm.mapping[s])
        else if svm.errorValue.Some? then Ok(svm.errorValue.value)
        else Err(UnexpectedString(s))
      else
        var f := parseFloat(s);
        if f.Some? then Ok(f.value) else Err(UnparsableString(s))
    case Number(n) => Ok(n)
    case _ => Err(UnexpectedType(value))
  }

  /** Coercion fails exactly for values that are not bools, numbers or strings, and for strings nothing maps. */
  lemma CoerceFails(cfg: MetricConfig, value: Json, parseFloat: string -> Option<real>)
    ensures Coerce(cfg, value, parseFloat).Err? <==>
              !(value.Bool? || value.Number? || value.Str?)
              || (value.Str? && cfg.stringValueMapping.Some? && value.s !in cfg.stringValueMapping.value.mapping
                  && cfg.stringValueMapping.value.errorValue.None?)
              || (value.Str? && cfg.stringValueMapping.None? && parseFloat(value.s).None?)
  {
  }

  /** The configured scale applied to a coerced value: a zero scale means "unscaled". */
  function Scaled(v: real, scale: real): (r: real)
    ensures scale == 0.0 ==> r == v
    ensures scale != 0.0 ==> r == v * scale
  {
    if scale != 0.0 then v * scale else v
  }

  /** The parser's errors: the metricNotConfigured sentinel, or a failed coercion. */
  datatype ParseError = MetricNotConfigured | CoercionFailed(e: CoerceError)

  /**
   * parseMetric: the sample for `value` under the configuration that
   * applies to the device, stamped with the clock reading `now` and no topic.
   */
  function ParseMetric(p: Parser, metricPath: string, deviceId: string, value: Json, now: Time,
                       parseFloat: string -> Option<real>): (r: Result<Metric, ParseError>)
    ensures r == Err(MetricNotConfigured) <==> ValidMetric(p, metricPath, deviceId).None?
    ensures ValidMetric(p, metricPath, deviceId).Some? ==>
              var cfg := ValidMetric(p, metricPath, deviceId).value;
              var c := Coerce(cfg, value, parseFloat);
              (r.Ok? <==> c.Ok?)
              && (c.Err? ==> r == Err(CoercionFailed(c.error)))
              && (c.Ok? ==> r == Ok(Metric(PrometheusDescription(cfg), Scaled(c.value, cfg.mqttValueScale),
                                           PrometheusValueType(cfg), now, "")))
  {
    var found := ValidMetric(p, metricPath, deviceId);
    if found.None? then Err(MetricNotConfigured)
    else
      var cfg := found.value;
      var c := Coerce(cfg, value, parseFloat);
      if c.Err? then Err(CoercionFailed(c.error))
      else Ok(Metric(PrometheusDescription(cfg), Scaled(c.value, cfg.mqttValueScale), PrometheusValueType(cfg), now, ""))
  }

  /** A parsed bool is exactly 1 or 0 before scaling, and a parsed number is itself. */
  lemma ParseBoolAndNumber(p: Parser, metricPath: string, deviceId: string, value: Json, now: Time,
                           parseFloat: string -> Option<real>)
    requires ValidMetric(p, metricPath, deviceId).Some?
    requires value.Bool? || value.Number?
    ensures var cfg := ValidMetric(p, metricPath, deviceId).value;
            var r := ParseMetric(p, metricPath, deviceId, value, now, parseFloat);
            r.Ok? && r.value.value == Scaled(if value.Bool? then (if value.b then 1.0 else 0.0) else value.n, cfg.mqttValueScale)
  {
  }

  /**
   * A negative scale flips the sign: under a configuration for `humidity`
   * with no sensor-name filter and scale -2, the number 12.6 from device
   * `dht22` parses to -25.2, stamped with `now` and no topic.
   */
  lemma NegativeScale(cfg: MetricConfig, separator: string, now: Time, parseFloat: string -> Option<real>)
    requires cfg.sensorNameFilter.r.None? && cfg.mqttValueScale == -2.0
    ensures var p := Parser(separator, map["humidity" := [cfg]]);
            ParseMetric(p, "humidity", "dht22", Number(12.6), now, parseFloat)
              == Ok(Metric(PrometheusDescription(cfg), -25.2, PrometheusValueType(cfg), now, ""))
  {
    var p := Parser(separator, map["humidity" := [cfg]]);
    assert ConfigsFor(p, "humidity") == [cfg];
    assert FirstAccepting([cfg], "dht22") == Some(0);
  }
}
