/**
 * The latest-value cache between ingestion and scrapes. Every observed
 * metric is stored under "<device>-<description>" with the cache's default
 * expiration; a scrape emits one constant metric per entry not yet expired.
 */
module Collector {
  import opened Wrappers
  import opened Config

  /** An instant in nanoseconds; 0 is Go's zero time.Time. */
  type Time = int

  /** One observation, owned by the call that produced it until it is cached. */
  datatype Metric = Metric(description: Desc, value: real, valueType: ValueType, ingestTime: Time, topic: string)

  datatype CacheItem = CacheItem(deviceId: string, metric: Metric)

  /** A cache entry with the instant it expires; None never expires. */
  datatype Entry = Entry(item: CacheItem, expiration: Option<Time>)

  /** A constant Prometheus metric as a scrape receives it, with its optional timestamp. */
  datatype ConstMetric = ConstMetric(desc: Desc, valueType: ValueType, value: real, labelValues: seq<string>, timestamp: Option<Time>)

  /** An entry a read at `now` still sees: one that never expires or whose expiration is not past. */
  predicate Live(e: Entry, now: Time)
  {
    e.expiration.None? || now <= e.expiration.value
  }

  /**
   * The metric emitted for a cached item: label values device then topic,
   * and a timestamp exactly when the ingest time is not the zero time.
   */
  function Emit(item: CacheItem): (m: ConstMetric)
    ensures m.labelValues == [item.deviceId, item.metric.topic]
    ensures m.timestamp.Some? <==> item.metric.ingestTime != 0
    ensures m.timestamp.Some? ==> m.timestamp.value == item.metric.ingestTime
    ensures m.desc == item.metric.description && m.valueType == item.metric.valueType && m.value == item.metric.value
  {
    ConstMetric(item.metric.description, item.metric.valueType, item.metric.value,
                [item.deviceId, item.metric.topic],
                if item.metric.ingestTime == 0 then None else Some(item.metric.ingestTime))
  }

  /** The cache key of a device's metric; `render` is the description's String() form. */
  function Key(render: Desc -> string, deviceId: string, d: Desc): string
  {
    deviceId + "-" + render(d)
  }

  /** The cache after storing every metric of `ms` for `deviceId`, one after another. */
  function Observed(render: Desc -> string, c: map<string, Entry>, deviceId: string, ms: seq<Metric>, expiration: Option<Time>): map<string, Entry>
    decreases |ms|
  {
    if ms == [] then c
    else
      var n := |ms| - 1;
      Observed(render, c, deviceId, ms[..n], expiration)[Key(render, deviceId, ms[n].description) := Entry(CacheItem(deviceId, ms[n]), expiration)]
  }

  /** The last metric of `ms` stored under key `k`. */
  function LastWithKey(render: Desc -> string, deviceId: string, ms: seq<Metric>, k: string): (r: Option<nat>)
    ensures r.Some? ==> r.value < |ms| && Key(render, deviceId, ms[r.value].description) == k
    ensures r.Some? ==> forall j :: r.value < j < |ms| ==> Key(render, deviceId, ms[j].description) != k
    ensures r.None? ==> forall j :: 0 <= j < |ms| ==> Key(render, deviceId, ms[j].description) != k
    decreases |ms|
  {
    if ms == [] then None
    else if Key(render, deviceId, ms[|ms| - 1].description) == k then Some(|ms| - 1)
    else LastWithKey(render, deviceId, ms[..|ms| - 1], k)
  }

  /**
   * Storing a collection sets each key derived from it to the LAST metric
   * with that key, stamped with the device and the expiration, and leaves
   * every other key as it was.
   */
  lemma {:induction false} ObservedAt(render: Desc -> string, c: map<string, Entry>, deviceId: string, ms: seq<Metric>, expiration: Option<Time>, k: string)
    ensures var after := Observed(render, c, deviceId, ms, expiration);
            match LastWithKey(render, deviceId, ms, k)
            case Some(j) => k in after && after[k] == Entry(CacheItem(deviceId, ms[j]), expiration)
            case None => (k in after <==> k in c) && (k in c ==> after[k] == c[k])
    decreases |ms|
  {
    if ms != [] {
      ObservedAt(render, c, deviceId, ms[..|ms| - 1], expiration, k);
    }
  }

  class MemoryCachedCollector {
    var cache: map<string, Entry>
    const descriptions: seq<Desc>
    const defaultExpiration: Duration
    const cleanupInterval: Duration
    const render: Desc -> string

    /**
     * NewCollector: the description of every configured metric in
     * configuration order, an empty cache, the given default expiration and
     * a cleanup interval of ten times that.
     */
    constructor (defaultTimeout: Duration, possibleMetrics: seq<MetricConfig>, render: Desc -> string)
      ensures |descriptions| == |possibleMetrics|
      ensures forall i :: 0 <= i < |possibleMetrics| ==> descriptions[i] == PrometheusDescription(possibleMetrics[i])
      ensures defaultExpiration == defaultTimeout && cleanupInterval == 10 * defaultTimeout
      ensures this.render == render && cache == map[]
    {
      var descs := [];
      var i := 0;
      while i < |possibleMetrics|
        invariant 0 <= i <= |possibleMetrics|
        invariant |descs| == i
        invariant forall j :: 0 <= j < i ==> descs[j] == PrometheusDescription(possibleMetrics[j])
      {
        descs := descs + [PrometheusDescription(possibleMetrics[i])];
        i := i + 1;
      }
      descriptions := descs;
      defaultExpiration := defaultTimeout;
      cleanupInterval := 10 * defaultTimeout;
      this.render := render;
      cache := map[];
    }

    /** When an entry stored at `now` expires: go-cache applies its default expiration only when it is positive. */
    function Expiration(now: Time): (e: Option<Time>)
      ensures e.Some? <==> defaultExpiration > 0
      ensures e.Some? ==> e.value == now + defaultExpiration
    {
      if defaultExpiration > 0 then Some(now + defaultExpiration) else None
    }

    /** Stores every metric of the collection under its device-and-description key, at clock reading `now`. */
    method Observe(deviceId: string, collection: seq<Metric>, now: Time)
      modifies this
      ensures cache == Observed(render, old(cache), deviceId, collection, Expiration(now))
    {
      var i := 0;
      while i < |collection|
        invariant 0 <= i <= |collection|
        invariant cache == Observed(render, old(cache), deviceId, collection[..i], Expiration(now))
      {
        var m := collection[i];
        var item := CacheItem(deviceId, m);
        cache := cache[Key(render, deviceId, m.description) := Entry(item, Expiration(now))];
        assert collection[..i + 1][..i] == collection[..i];
        i := i + 1;
      }
      assert collection[..i] == collection;
    }

    /** Sends every configured description, in configuration order. */
    method Describe() returns (sent: seq<Desc>)
      ensures sent == descriptions
    {
      sent := [];
      var i := 0;
      while i < |descriptions|
        invariant 0 <= i <= |descriptions|
        invariant sent == descriptions[..i]
      {
        sent := sent + [descriptions[i]];
        i := i + 1;
      }
    }

    /**
     * Sends one metric per entry that a read at `now` still sees, in the
     * cache's (unspecified) iteration order, recorded in `keys`.
     */
    method Collect(now: Time) returns (sent: seq<ConstMetric>, ghost keys: seq<string>)
      ensures forall j :: 0 <= j < |keys| ==> keys[j] in cache && Live(cache[keys[j]], now)
      ensures forall k :: k in cache && Live(cache[k], now) ==> k in keys
      ensures forall i, j :: 0 <= i < j < |keys| ==> keys[i] != keys[j]
      ensures |sent| == |keys|
      ensures forall j :: 0 <= j < |keys| ==> sent[j] == Emit(cache[keys[j]].item)
      ensures forall m :: m in sent ==> exists k :: k in cache && Live(cache[k], now) && m == Emit(cache[k].item)
      ensures forall k :: k in cache && Live(cache[k], now) ==> Emit(cache[k].item) in sent
    {
      sent, keys := [], [];
      var remaining := cache.Keys;
      while remaining != {}
        invariant remaining <= cache.Keys
        invariant forall j :: 0 <= j < |keys| ==> keys[j] in cache && keys[j] !in remaining && Live(cache[keys[j]], now)
        invariant forall k :: k in cache && k !in remaining && Live(cache[k], now) ==> k in keys
        invariant forall i, j :: 0 <= i < j < |keys| ==> keys[i] != keys[j]
        invariant |sent| == |keys|
        invariant forall j :: 0 <= j < |keys| ==> sent[j] == Emit(cache[keys[j]].item)
        decreases remaining
      {
        var k :| k in remaining;
        remaining := remaining - {k};
        var entry := cache[k];
        if Live(entry, now) {
          sent := sent + [Emit(entry.item)];
          keys := keys + [k];
        }
      }
      forall k | k in cache && Live(cache[k], now)
        ensures Emit(cache[k].item) in sent
      {
        var j :| 0 <= j < |keys| && keys[j] == k;
        assert sent[j] == Emit(cache[k].item);
      }
    }
  }

  /**
   * With a positive timeout, a metric observed at `t` is seen by every read
   * up to `t + timeout` and by none after, unless a later observation
   * refreshes it.
   */
  lemma ExpiryWindow(render: Desc -> string, c: map<string, Entry>, deviceId: string, ms: seq<Metric>,
                     t: Time, timeout: Duration, j: nat, readAt: Time)
    requires timeout > 0 && j < |ms|
    ensures var k := Key(render, deviceId, ms[j].description);
            var after := Observed(render, c, deviceId, ms, Some(t + timeout));
            k in after && (Live(after[k], readAt) <==> readAt <= t + timeout)
  {
    var k := Key(render, deviceId, ms[j].description);
    ObservedAt(render, c, deviceId, ms, Some(t + timeout), k);
  }
}
