/**
 * The single-map ingestion path: a decoded payload maps metric names to
 * values; every configured name is coerced and the whole batch reaches the
 * collector in one Observe, or nothing does.
 */
module Ingest {
  import opened Wrappers
  import opened Config
  import opened Json
  import opened Collector
  import opened Parser

  /** The last configuration of `metrics` with MQTT name `key`. */
  function LastNamed(metrics: seq<MetricConfig>, key: string): (r: Option<nat>)
    ensures r.Some? ==> r.value < |metrics| && metrics[r.value].mqttName == key
    ensures r.Some? ==> forall j :: r.value < j < |metrics| ==> metrics[j].mqttName != key
    ensures r.None? ==> forall j :: 0 <= j < |metrics| ==> metrics[j].mqttName != key
    decreases |metrics|
  {
    if metrics == [] then None
    else if metrics[|metrics| - 1].mqttName == key then Some(|metrics| - 1)
    else LastNamed(metrics[..|metrics| - 1], key)
  }

  /**
   * The configuration the ingest path keeps for a name is the last one the
   * parser groups under that name.
   */
  lemma {:induction false} LastNamedIsLastOfGroup(metrics: seq<MetricConfig>, key: string)
    requires LastNamed(metrics, key).Some?
    ensures var group := ConfigsNamed(metrics, key);
            group != [] && group[|group| - 1] == metrics[LastNamed(metrics, key).value]
    decreases |metrics|
  {
    var n := |metrics| - 1;
    if metrics[n].mqttName != key {
      LastNamedIsLastOfGroup(metrics[..n], key);
    }
  }

  /** The sample the ingest path stores for a coerced value: no scaling, zero ingest time, no topic. */
  function Stored(cfg: MetricConfig, value: real): (m: Metric)
    ensures m.description == PrometheusDescription(cfg) && m.valueType == PrometheusValueType(cfg)
    ensures m.value == value && m.ingestTime == 0 && m.topic == ""
  {
    Metric(PrometheusDescription(cfg), value, PrometheusValueType(cfg), 0, "")
  }

  class Ingest {
    const validMetrics: map<string, MetricConfig>
    const collector: MemoryCachedCollector

    /** NewIngest: configurations keyed by MQTT name, a later one replacing an earlier one. */
    constructor (collector: MemoryCachedCollector, metrics: seq<MetricConfig>)
      ensures this.collector == collector
      ensures forall k :: k in validMetrics <==> LastNamed(metrics, k).Some?
      ensures forall k :: k in validMetrics ==> validMetrics[k] == metrics[LastNamed(metrics, k).value]
    {
      var valid: map<string, MetricConfig> := map[];
      var i := 0;
      while i < |metrics|
        invariant 0 <= i <= |metrics|
        invariant forall k :: k in valid <==> LastNamed(metrics[..i], k).Some?
        invariant forall k :: k in valid ==> valid[k] == metrics[LastNamed(metrics[..i], k).value]
      {
        var key := metrics[i].mqttName;
        valid := valid[key := metrics[i]];
        assert metrics[..i + 1][..i] == metrics[..i];
        i := i + 1;
      }
      assert metrics[..i] == metrics;
      validMetrics := valid;
      this.collector := collector;
    }

    /** A payload entry that has a configuration and whose value does not coerce under it. */
    predicate Rejects(rawMetrics: map<string, Json>, k: string, parseFloat: string -> Option<real>)
    {
      k in rawMetrics && k in validMetrics && Coerce(validMetrics[k], rawMetrics[k], parseFloat).Err?
    }

    /**
     * store: coerces every configured entry of the payload (in the map's
     * unspecified order, recorded in `keys`) and hands the batch to the
     * collector once; the first value that does not coerce returns its
     * error before anything is observed.
     */
    method Store(deviceId: string, rawMetrics: map<string, Json>, now: Time, parseFloat: string -> Option<real>)
      returns (err: Option<CoerceError>, ghost keys: seq<string>, ghost batch: seq<Metric>)
      modifies collector
      ensures err.Some? <==> exists k :: k in rawMetrics && Rejects(rawMetrics, k, parseFloat)
      ensures err.Some? ==> exists k :: k in rawMetrics && Rejects(rawMetrics, k, parseFloat)
                              && err.value == Coerce(validMetrics[k], rawMetrics[k], parseFloat).error
      ensures err.Some? ==> collector.cache == old(collector.cache)
      ensures err.None? ==> forall k :: k in keys <==> k in rawMetrics && k in validMetrics
      ensures forall i, j :: 0 <= i < j < |keys| ==> keys[i] != keys[j]
      ensures err.None? ==> |batch| == |keys|
      ensures err.None? ==> forall j :: 0 <= j < |keys| ==>
                keys[j] in rawMetrics && keys[j] in validMetrics
                && Coerce(validMetrics[keys[j]], rawMetrics[keys[j]], parseFloat).Ok?
                && batch[j] == Stored(validMetrics[keys[j]], Coerce(validMetrics[keys[j]], rawMetrics[keys[j]], parseFloat).value)
      ensures err.None? ==> collector.cache == Observed(collector.render, old(collector.cache), deviceId, batch, collector.Expiration(now))
    {
      var mc: seq<Metric> := [];
      err, keys := None, [];
      var remaining := rawMetrics.Keys;
      while remaining != {}
        invariant remaining <= rawMetrics.Keys
        invariant forall k :: k in keys ==> k !in remaining && k in rawMetrics && k in validMetrics
        invariant forall k :: k in rawMetrics && k in validMetrics && k !in remaining ==> k in keys
        invariant forall k :: k in rawMetrics && k !in remaining ==> !Rejects(rawMetrics, k, parseFloat)
        invariant forall i, j :: 0 <= i < j < |keys| ==> keys[i] != keys[j]
        invariant |mc| == |keys|
        invariant forall j :: 0 <= j < |keys| ==>
                    Coerce(validMetrics[keys[j]], rawMetrics[keys[j]], parseFloat).Ok?
                    && mc[j] == Stored(validMetrics[keys[j]], Coerce(validMetrics[keys[j]], rawMetrics[keys[j]], parseFloat).value)
        decreases remaining
      {
        var metricName :| metricName in remaining;
        remaining := remaining - {metricName};
        if metricName !in validMetrics {
          continue;
        }
        var cfg := validMetrics[metricName];
        var value := rawMetrics[metricName];
        var metricValue: real;
        if value.Bool? {
          metricValue := if value.b then 1.0 else 0.0;
        } else if value.Str? {
          if cfg.stringValueMapping.Some? {
            var svm := cfg.stringValueMapping.value;
            if value.s in svm.mapping {
              metricValue := svm.mapping[value.s];
            } else if svm.errorValue.Some? {
              metricValue := svm.errorValue.value;
            } else {
              return Some(UnexpectedString(value.s)), keys, mc;
            }
          } else {
            var floatValue := parseFloat(value.s);
            if floatValue.None? {
              return Some(UnparsableString(value.s)), keys, mc;
            }
            metricValue := floatValue.value;
          }
        } else if value.Number? {
          metricValue := value.n;
        } else {
          return Some(UnexpectedType(value)), keys, mc;
        }
        assert Coerce(cfg, value, parseFloat) == Ok(metricValue);
        mc := mc + [Stored(cfg, metricValue)];
        keys := keys + [metricName];
      }
      batch := mc;
      collector.Observe(deviceId, mc, now);
    }
  }
}
