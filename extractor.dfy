/**
 * The two ways of turning one MQTT message into samples: a JSON object
 * whose configured paths hold the values, or a topic that names the metric
 * and a payload that is its value.
 */
module Extractor {
  import opened Wrappers
  import opened Config
  import opened Json
  import opened Collector
  import opened Parser
  import Strings

  /** Why a message yielded no samples. */
  datatype ExtractError =
    | NoMetricInTopic           // the metricname group of the topic is empty
    | ParseFailed(e: ParseError)

  /**
   * What `Find(path)` returns on the query built from the payload: nothing
   * when the payload did not decode (gojsonq then answers nil to every query).
   */
  function Lookup(doc: Option<Json>, path: string, separator: string): Option<Json>
  {
    if doc.None? then None else Find(doc.value, path, separator)
  }

  /** What the JSON-object extractor does with one configured path. */
  datatype Step =
    | Skip                 // nothing to record for this path
    | Keep(m: Metric)      // the parsed sample, carrying the message's topic
    | Abort(e: ParseError) // the whole message is discarded with this error

  /**
   * The step for `path` in a message whose payload decoded to `doc`.
   * `skipUnaccepted` says whether a path none of whose configurations
   * accepts the device is skipped (the behaviour the extractor's test
   * expects) or aborts the message (the code as written).
   */
  function PathStep(p: Parser, doc: Option<Json>, path: string, deviceId: string, now: Time,
                    parseFloat: string -> Option<real>, topic: string, skipUnaccepted: bool): Step
  {
    var v := Lookup(doc, path, p.separator);
    if v.None? then Skip
    else
      var r := ParseMetric(p, path, deviceId, v.value, now, parseFloat);
      if r.Ok? then Keep(r.value.(topic := topic))
      else if skipUnaccepted && r.error == MetricNotConfigured then Skip
      else Abort(r.error)
  }

  /**
   * A path yields a sample exactly when it holds a non-null value, some
   * configuration under it accepts the device, and the value coerces under
   * the first such configuration; the sample is the coerced value, scaled,
   * stamped with `now` and the topic. A path holding a value aborts the
   * message when its value does not coerce and, unless skipping, when no
   * configuration accepts the device.
   */
  lemma PathStepMeaning(p: Parser, doc: Option<Json>, path: string, deviceId: string, now: Time,
                        parseFloat: string -> Option<real>, topic: string, skipUnaccepted: bool)
    ensures var s := PathStep(p, doc, path, deviceId, now, parseFloat, topic, skipUnaccepted);
            var v := Lookup(doc, path, p.separator);
            var cfg := ValidMetric(p, path, deviceId);
            (s.Keep? <==> v.Some? && cfg.Some? && Coerce(cfg.value, v.value, parseFloat).Ok?)
            && (s.Keep? ==>
                  s.m == Metric(PrometheusDescription(cfg.value),
                                Scaled(Coerce(cfg.value, v.value, parseFloat).value, cfg.value.mqttValueScale),
                                PrometheusValueType(cfg.value), now, topic))
            && (s.Abort? <==> v.Some? && (if cfg.None? then !skipUnaccepted else Coerce(cfg.value, v.value, parseFloat).Err?))
            && (s.Abort? && cfg.None? ==> s.e == MetricNotConfigured)
            && (s.Abort? && cfg.Some? ==> s.e == CoercionFailed(Coerce(cfg.value, v.value, parseFloat).error))
  {
  }

  /**
   * The JSON-object extractor as written: every configured path is looked
   * up in the map's unspecified order, and the paths that yield a sample
   * are recorded in `visited` in that order; absent and null paths are
   * skipped; the first value the parser rejects, including a
   * path whose configurations all filter the device out, discards the whole
   * message.
   */
  method ExtractJSON(p: Parser, topic: string, payload: string, deviceId: string, now: Time,
                     parseFloat: string -> Option<real>, decode: string -> Option<Json>)
    returns (mc: seq<Metric>, err: Option<ExtractError>, ghost visited: seq<string>)
    ensures err.Some? ==> mc == []
    ensures err.Some? <==>
              exists path :: path in p.metricConfigs && PathStep(p, decode(payload), path, deviceId, now, parseFloat, topic, false).Abort?
    ensures err.Some? ==>
              exists path :: path in p.metricConfigs && err.value.ParseFailed?
                && PathStep(p, decode(payload), path, deviceId, now, parseFloat, topic, false) == Abort(err.value.e)
    ensures err.None? ==> forall path :: path in visited <==>
              path in p.metricConfigs && PathStep(p, decode(payload), path, deviceId, now, parseFloat, topic, false).Keep?
    ensures forall i, j :: 0 <= i < j < |visited| ==> visited[i] != visited[j]
    ensures err.None? ==> |mc| == |visited|
    ensures err.None? ==> forall j :: 0 <= j < |visited| ==>
              PathStep(p, decode(payload), visited[j], deviceId, now, parseFloat, topic, false) == Keep(mc[j])
  {
    var parsed := decode(payload);
    mc, err, visited := [], None, [];
    var remaining := p.metricConfigs.Keys;
    while remaining != {}
      invariant remaining <= p.metricConfigs.Keys
      invariant forall path :: path in visited ==> path in p.metricConfigs && path !in remaining
      invariant forall path :: path in p.metricConfigs && path !in remaining ==>
                  match PathStep(p, parsed, path, deviceId, now, parseFloat, topic, false)
                  case Skip => true
                  case Keep(_) => path in visited
                  case Abort(_) => false
      invariant forall i, j :: 0 <= i < j < |visited| ==> visited[i] != visited[j]
      invariant |mc| == |visited|
      invariant forall j :: 0 <= j < |visited| ==> PathStep(p, parsed, visited[j], deviceId, now, parseFloat, topic, false) == Keep(mc[j])
      decreases remaining
    {
      var path :| path in remaining;
      remaining := remaining - {path};
      var rawValue := Lookup(parsed, path, p.separator);
      if rawValue.None? {
        continue;
      }
      var m := ParseMetric(p, path, deviceId, rawValue.value, now, parseFloat);
      if m.Err? {
        return [], Some(ParseFailed(m.error)), visited;
      }
      mc := mc + [m.value.(topic := topic)];
      visited := visited + [path];
    }
  }

  /**
   * The JSON-object extractor as its test expects it to behave: a path
   * whose configurations all filter the device out is skipped like an
   * absent one, and only a value that does not coerce discards the message.
   */
  method ExtractJSONSkipping(p: Parser, topic: string, payload: string, deviceId: string, now: Time,
                             parseFloat: string -> Option<real>, decode: string -> Option<Json>)
    returns (mc: seq<Metric>, err: Option<ExtractError>, ghost visited: seq<string>)
    ensures err.Some? ==> mc == []
    ensures err.Some? <==>
              exists path :: path in p.metricConfigs && PathStep(p, decode(payload), path, deviceId, now, parseFloat, topic, true).Abort?
    ensures err.Some? ==>
              exists path :: path in p.metricConfigs && err.value.ParseFailed?
                && PathStep(p, decode(payload), path, deviceId, now, parseFloat, topic, true) == Abort(err.value.e)
    ensures err.None? ==> forall path :: path in visited <==>
              path in p.metricConfigs && PathStep(p, decode(payload), path, deviceId, now, parseFloat, topic, true).Keep?
    ensures forall i, j :: 0 <= i < j < |visited| ==> visited[i] != visited[j]
    ensures err.None? ==> |mc| == |visited|
    ensures err.None? ==> forall j :: 0 <= j < |visited| ==>
              PathStep(p, decode(payload), visited[j], deviceId, now, parseFloat, topic, true) == Keep(mc[j])
  {
    var parsed := decode(payload);
    mc, err, visited := [], None, [];
    var remaining := p.metricConfigs.Keys;
    while remaining != {}
      invariant remaining <= p.metricConfigs.Keys
      invariant forall path :: path in visited ==> path in p.metricConfigs && path !in remaining
      invariant forall path :: path in p.metricConfigs && path !in remaining ==>
                  match PathStep(p, parsed, path, deviceId, now, parseFloat, topic, true)
                  case Skip => true
                  case Keep(_) => path in visited
                  case Abort(_) => false
      invariant forall i, j :: 0 <= i < j < |visited| ==> visited[i] != visited[j]
      invariant |mc| == |visited|
      invariant forall j :: 0 <= j < |visited| ==> PathStep(p, parsed, visited[j], deviceId, now, parseFloat, topic, true) == Keep(mc[j])
      decreases remaining
    {
      var path :| path in remaining;
      remaining := remaining - {path};
      var rawValue := Lookup(parsed, path, p.separator);
      if rawValue.None? {
        continue;
      }
      var m := ParseMetric(p, path, deviceId, rawValue.value, now, parseFloat);
      if m == Err(MetricNotConfigured) {
        continue;
      }
      if m.Err? {
        return [], Some(ParseFailed(m.error)), visited;
      }
      mc := mc + [m.value.(topic := topic)];
      visited := visited + [path];
    }
  }

  /**
   * A path holding a value whose every configuration filters the device
   * out makes the extractor as written discard the message, while the
   * skipping extractor passes over it.
   */
  lemma FilteredOutPathFails(p: Parser, doc: Option<Json>, path: string, deviceId: string, now: Time,
                             parseFloat: string -> Option<real>, topic: string)
    requires Lookup(doc, path, p.separator).Some?
    requires forall c :: c in ConfigsFor(p, path) ==> !Accepts(c, deviceId)
    ensures PathStep(p, doc, path, deviceId, now, parseFloat, topic, false) == Abort(MetricNotConfigured)
    ensures PathStep(p, doc, path, deviceId, now, parseFloat, topic, true) == Skip
  {
    assert ValidMetric(p, path, deviceId).None?;
  }

  /**
   * The metric-per-topic extractor: the metricname group of the topic names
   * the metric and the whole payload, as a string, is its value. An
   * unconfigured metric yields nothing and no error. The expression must be
   * compiled: Go dereferences it.
   */
  function ExtractPerTopic(p: Parser, metricName: Regexp, topic: string, payload: string, deviceId: string, now: Time,
                           parseFloat: string -> Option<real>): (res: (seq<Metric>, Option<ExtractError>))
    requires metricName.r.Some?
    ensures res.1.Some? ==> res.0 == []
    ensures |res.0| <= 1
    ensures GroupValue(metricName, topic, MetricNameRegexGroup) == "" ==> res.1 == Some(NoMetricInTopic)
    ensures var name := GroupValue(metricName, topic, MetricNameRegexGroup);
            var r := ParseMetric(p, name, deviceId, Str(payload), now, parseFloat);
            name != "" ==>
              (res.1.Some? <==> r.Err? && r != Err(MetricNotConfigured))
              && (res.1.Some? ==> res.1.value == ParseFailed(r.error))
              && (|res.0| == 1 <==> r.Ok?)
              && (r.Ok? ==> res.0[0] == r.value.(topic := topic))
  {
    var mName := GroupValue(metricName, topic, MetricNameRegexGroup);
    if mName == "" then ([], Some(NoMetricInTopic))
    else
      var m := ParseMetric(p, mName, deviceId, Str(payload), now, parseFloat);
      if m.Err? then
        if m.error == MetricNotConfigured then ([], None) else ([], Some(ParseFailed(m.error)))
      else ([m.value.(topic := topic)], None)
  }

  /**
   * The per-topic extractor yields neither a sample nor an error exactly
   * when the topic names a metric no configuration accepts for the device.
   */
  lemma PerTopicSilent(p: Parser, metricName: Regexp, topic: string, payload: string, deviceId: string, now: Time,
                       parseFloat: string -> Option<real>)
    requires metricName.r.Some?
    ensures var name := GroupValue(metricName, topic, MetricNameRegexGroup);
            ExtractPerTopic(p, metricName, topic, payload, deviceId, now, parseFloat) == ([], None)
            <==> name != "" && ValidMetric(p, name, deviceId).None?
  {
  }

  /** The strategy chosen at start-up: JSON objects, or one metric per topic. */
  datatype Strategy =
    | JSONObject(parser: Parser)
    | MetricPerTopic(parser: Parser, metricName: Option<Regexp>)

  /** Why no strategy could be chosen. */
  datatype SetupError = UnsupportedObjectFormat(encoding: string) | NoExtractorConfigured

  /**
   * setupExtractor: an object-per-topic section selects the JSON extractor
   * (any encoding other than JSON is refused) and takes precedence over a
   * metric-per-topic section; with neither there is no extractor.
   */
  function SetupExtractor(mqtt: MQTTConfig, parser: Parser): (r: Result<Strategy, SetupError>)
    ensures r.Ok? && r.value.JSONObject? <==> mqtt.objectPerTopic.Some? && mqtt.objectPerTopic.value.encoding == EncodingJSON
    ensures r.Ok? && r.value.MetricPerTopic? <==> mqtt.objectPerTopic.None? && mqtt.metricPerTopic.Some?
    ensures r.Ok? ==> r.value.parser == parser
    ensures r.Ok? && r.value.MetricPerTopic? ==> r.value.metricName == mqtt.metricPerTopic.value.metricNameRegex
    ensures r == Err(NoExtractorConfigured) <==> mqtt.objectPerTopic.None? && mqtt.metricPerTopic.None?
  {
    if mqtt.objectPerTopic.Some? then
      if mqtt.objectPerTopic.value.encoding == EncodingJSON then Ok(JSONObject(parser))
      else Err(UnsupportedObjectFormat(mqtt.objectPerTopic.value.encoding))
    else if mqtt.metricPerTopic.Some? then Ok(MetricPerTopic(parser, mqtt.metricPerTopic.value.metricNameRegex))
    else Err(NoExtractorConfigured)
  }

  /** The expression a metric-per-topic strategy reads is present and compiled. */
  predicate Runnable(s: Strategy)
  {
    s.MetricPerTopic? ==> s.metricName.Some? && s.metricName.value.r.Some?
  }

  /**
   * A configuration LoadConfig accepts always yields a strategy that can
   * run, unless its object-per-topic section names an encoding other than
   * JSON.
   */
  lemma SetupAfterLoad(decoded: Config, parser: Parser)
    requires Decoded(decoded) && Valid(WithDefaults(decoded))
    ensures var mqtt := WithDefaults(decoded).mqtt.value;
            var r := SetupExtractor(mqtt, parser);
            (r.Ok? <==> mqtt.objectPerTopic.None? || mqtt.objectPerTopic.value.encoding == EncodingJSON)
            && (r.Ok? ==> Runnable(r.value))
  {
  }

  /**
   * Runs the chosen strategy on one message; in both modes an error comes
   * with no samples. The JSON mode runs the corrected extractor, and
   * `visited` records the paths it kept, in the map order it took.
   */
  method Extract(s: Strategy, topic: string, payload: string, deviceId: string, now: Time,
                 parseFloat: string -> Option<real>, decode: string -> Option<Json>)
    returns (mc: seq<Metric>, err: Option<ExtractError>, ghost visited: seq<string>)
    requires Runnable(s)
    ensures err.Some? ==> mc == []
    ensures s.MetricPerTopic? ==> (mc, err) == ExtractPerTopic(s.parser, s.metricName.value, topic, payload, deviceId, now, parseFloat)
    ensures s.JSONObject? ==>
              (err.Some? <==>
                 exists path :: path in s.parser.metricConfigs
                   && PathStep(s.parser, decode(payload), path, deviceId, now, parseFloat, topic, true).Abort?)
    ensures s.JSONObject? && err.Some? ==>
              exists path :: path in s.parser.metricConfigs && err.value.ParseFailed?
                && PathStep(s.parser, decode(payload), path, deviceId, now, parseFloat, topic, true) == Abort(err.value.e)
    ensures s.JSONObject? && err.None? ==> forall path :: path in visited <==>
              path in s.parser.metricConfigs && PathStep(s.parser, decode(payload), path, deviceId, now, parseFloat, topic, true).Keep?
    ensures s.JSONObject? ==> forall i, j :: 0 <= i < j < |visited| ==> visited[i] != visited[j]
    ensures s.JSONObject? && err.None? ==> |mc| == |visited|
    ensures s.JSONObject? && err.None? ==> forall j :: 0 <= j < |visited| ==>
              PathStep(s.parser, decode(payload), visited[j], deviceId, now, parseFloat, topic, true) == Keep(mc[j])
  {
    if s.JSONObject? {
      mc, err, visited := ExtractJSONSkipping(s.parser, topic, payload, deviceId, now, parseFloat, decode);
    } else {
      var res := ExtractPerTopic(s.parser, s.metricName.value, topic, payload, deviceId, now, parseFloat);
      mc, err, visited := res.0, res.1, [];
    }
  }

  /**
   * A nested path: with a separator whose first character occurs in none of
   * the keys, the path SDS0X1, PM2, 5 joined by it finds 4.9 in
   * {"SDS0X1":{"PM2":{"5":4.9}}}.
   */
  lemma NestedPath(sep: string)
    requires sep != [] && sep[0] !in "SDS0X1" + "PM2" + "5"
    ensures var doc := Object(map["SDS0X1" := Object(map["PM2" := Object(map["5" := Number(4.9)])])]);
            Find(doc, Strings.Join(["SDS0X1", "PM2", "5"], sep), sep) == Some(Number(4.9))
  {
    var keys := ["SDS0X1", "PM2", "5"];
    var doc := Object(map["SDS0X1" := Object(map["PM2" := Object(map["5" := Number(4.9)])])]);
    assert forall k :: k in keys ==> sep[0] !in k;
    FindJoinedPath(doc, keys, sep);
    assert Walk(doc, keys) == Some(Number(4.9));
  }

  /**
   * A dot inside a key is part of the key under another separator: the path
   * SDS0X1, PM2.5 finds 4.9 in {"SDS0X1":{"PM2.5":4.9,"PM10":8.5}}.
   */
  lemma DottedKeyPath(sep: string)
    requires sep != [] && sep[0] !in "SDS0X1" + "PM2.5"
    ensures var doc := Object(map["SDS0X1" := Object(map["PM2.5" := Number(4.9), "PM10" := Number(8.5)])]);
            Find(doc, Strings.Join(["SDS0X1", "PM2.5"], sep), sep) == Some(Number(4.9))
  {
    var keys := ["SDS0X1", "PM2.5"];
    var doc := Object(map["SDS0X1" := Object(map["PM2.5" := Number(4.9), "PM10" := Number(8.5)])]);
    assert forall k :: k in keys ==> sep[0] !in k;
    FindJoinedPath(doc, keys, sep);
    assert Walk(doc, keys) == Some(Number(4.9));
  }
}
