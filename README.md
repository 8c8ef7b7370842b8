# mqtt2prometheus metric pipeline, modelled in Dafny

mqtt2prometheus subscribes to MQTT topics, turns each message into
Prometheus samples and serves the latest sample of every device and metric
until it expires. This project models the part between a decoded message
and a scrape:

- **Config** (`config.dfy`): the nil-tolerant regular-expression wrapper
  (`Match`, `GroupValue`, YAML marshalling, `MustNewRegexp`), the default
  device-ID expression `(.*/)?(?P<deviceid>.*)`, the Prometheus description
  and value type of a metric configuration, and the part of `LoadConfig` that
  follows the YAML decode: it fills in defaults and checks the `deviceid` and
  `metricname` groups.
- **Parser** (`parser.dfy`): configurations grouped by MQTT name
  (`NewParser`). The first configuration whose sensor-name filter accepts
  the device wins (`validMetric`). A decoded value is coerced to a number,
  scaled, and stamped with the clock (`parseMetric`).
- **Extractor** (`extractor.dfy`): the JSON-object extractor walks every
  configured path through the decoded document. The metric-per-topic
  extractor takes the metric name from the topic. Also here: the start-up
  choice between the two.
- **Ingest** (`ingest.dfy`): the single-map ingestion path. It builds a
  map from MQTT name to configuration, coerces every configured entry of a
  payload, and makes exactly one `Observe` call, or none.
- **Collector** (`collector.dfy`): the latest-value cache. `Observe` writes
  entries under `<device>-<description>` with the default expiration;
  `Describe` lists the configured descriptions; `Collect` emits one constant
  metric per entry a read still sees.
- Support modules: `wrappers.dfy` (Option, Result), `strings.dfy` (the
  `strings.Split`/`Join`/`Index` behaviour the path lookup relies on) and
  `json.dfy` (decoded JSON values and gojsonq's path lookup).

Foreign behaviour is passed in as values:

- The regexp engine is a `Compiled` record holding the expression's match
  and submatch functions and its group names.
- `strconv.ParseFloat` is a `parseFloat` function parameter.
- gojsonq's decoding of the payload is a `decode` parameter; None means the
  payload did not decode.
- `time.Now()` is a `now` parameter, in nanoseconds; 0 is the zero time.
- `Desc.String()`, which the cache key uses, is the collector's `render`
  function.
- Map iteration, whose order Go leaves unspecified, picks an arbitrary
  remaining key at each step. Ghost outputs record the order taken, and the
  contracts state only properties that hold for every order.

## Model

| member | source | states |
|---|---|---|
| Config.Match | pkg/config/config.go:58-60 | a nil wrapper, or one without a compiled expression, matches every string; otherwise the result is the expression's match |
| Config.LastGroupIndex | pkg/config/config.go:66-70 | the last index that carries the group name and has a capture; none when the name is empty or absent |
| Config.GroupValuesAt | pkg/config/config.go:65-71 | the group map holds a name exactly when some capture carries it, and then the last such capture (later indices overwrite earlier ones) |
| Config.GroupValue | pkg/config/config.go:63-72 | "" when the expression does not match, the name is empty or no group has it; otherwise the capture of the last group of that name |
| Config.LastSegmentSubmatch | pkg/config/config.go:24 | three submatches of the default device-ID pattern: the whole match is the topic's first line; it splits into a prefix that is empty or ends in a slash, then a slash-free rest; the prefix is non-empty whenever the line holds a slash |
| Config.LastSegment | pkg/config/config.go:24 | the `deviceid` capture of the default pattern holds no slash, ends the first line, and follows a slash unless it is the whole line |
| Config.DefaultDeviceIdIsCapture | pkg/config/config.go:21-26 | GroupValue with the default expression returns its `deviceid` capture |
| Config.DefaultDeviceId | pkg/config/config.go:21-26 | the default device ID is the part of the topic's first line after its last slash |
| Config.DefaultDeviceIdOfTopic | pkg/config/config_test.go:19-45 | `prefix/name` yields `name` (`foo/bar` gives `bar`); a topic without a slash, including "", is its own device ID |
| Config.MarshalYAML | pkg/config/config.go:51-56 | nil marshals to "", a wrapper to its pattern |
| Config.UnmarshalYAML | pkg/config/config.go:37-49 | a non-string node or an uncompilable pattern leaves the receiver unchanged and reports the error; otherwise the wrapper holds the compiled expression and marshals back to the decoded pattern |
| Config.MustNewRegexp | pkg/config/config.go:78-83 | a wrapper built from a compilable pattern holds its compilation and marshals to the pattern |
| Config.MarshalThenUnmarshal | pkg/config/config.go:37-56 | unmarshalling the marshalled form of a compiled wrapper gives that wrapper back, whatever the receiver held |
| Config.PrometheusDescription | pkg/config/config.go:138-142 | the variable labels are exactly `sensor`, `topic`; name, help and constant labels come from the configuration |
| Config.PrometheusValueType | pkg/config/config.go:144-153 | `gauge` and `counter` select their kinds; every other string, and only those, gives untyped |
| Config.WithDefaults | pkg/config/config.go:164-186 | missing MQTT section, cache section (2 minutes) and device-ID expression take their defaults; with no extraction mode, JSON object-per-topic is chosen; every other field is kept |
| Config.DeclaresGroup | pkg/config/config.go:173-178 | the scan over the group names finds the group exactly when it is among them |
| Config.LoadConfig | pkg/config/config.go:164-200 | succeeds exactly when the defaulted device-ID expression declares `deviceid` and, in metric-per-topic mode, the metric-name expression declares `metricname`; returns the defaulted configuration, or the error for the first missing group |
| Strings.JoinSplit | pkg/metrics/extractor.go:16-19 | joining the pieces of a path split at the separator gives the path back |
| Strings.SplitPiecesAvoidSeparator | pkg/metrics/extractor.go:16-19 | no piece of a path split at a non-empty separator contains that separator |
| Strings.SplitJoin | pkg/metrics/extractor.go:16-19 | splitting keys joined by a separator gives the keys back when no key holds the separator's first character |
| Json.Find | pkg/metrics/extractor.go:19-23 | the value at the path split at the separator; nothing when the path is absent or holds null |
| Json.FindJoinedPath | pkg/metrics/extractor.go:16-19 | a path written as keys joined by the separator finds what walking those keys finds |
| Parser.ConfigsNamed | pkg/metrics/parser.go:23-33 | (specification) the configurations carrying one MQTT name, in input order |
| Parser.ConfigsNamedIndex | pkg/metrics/parser.go:25-28 | every configuration sits under its own name right after the earlier ones of that name: order kept, none dropped |
| Parser.ConfigsNamedSnoc | pkg/metrics/parser.go:25-28 | one more configuration is appended to its own name's group and changes no other group |
| Parser.ConfigsNamedEmpty | pkg/metrics/parser.go:23-33 | a name has configurations exactly when some configuration carries it |
| Parser.NewParser | pkg/metrics/parser.go:23-33 | the keys are exactly the MQTT names present, and each key holds ConfigsNamed of that name |
| Parser.FirstAccepting | pkg/metrics/parser.go:43-48 | the index of the first configuration whose filter accepts the device; none when no filter does |
| Parser.ValidMetric | pkg/metrics/parser.go:42-49 | the first configuration under the key that accepts the device, or none exactly when no configuration under it does |
| Parser.Coerce | pkg/metrics/parser.go:59-96 | bool gives 1 or 0; a number passes through; a string gives its mapped value, else the error value, else an error, or without a mapping its parsed float or an error; any other value is an error |
| Parser.CoerceFails | pkg/metrics/parser.go:59-96 | coercion fails exactly for non-bool/number/string values, unmapped strings without an error value, and unparsable strings without a mapping |
| Parser.Scaled | pkg/metrics/parser.go:98-100 | a non-zero scale multiplies; a zero scale leaves the value unchanged |
| Parser.ParseMetric | pkg/metrics/parser.go:53-108 | fails with metricNotConfigured exactly when ValidMetric finds nothing; otherwise succeeds exactly when coercion does, with the configuration's description and value type, the scaled value, ingest time `now` and an empty topic |
| Parser.ParseBoolAndNumber | pkg/metrics/parser.go:61-93 | a parsed bool is exactly 1 or 0, and a parsed number is itself, before scaling |
| Parser.NegativeScale | pkg/metrics/parser_test.go:183-208 | with one unfiltered `humidity` configuration of scale -2, parseMetric on 12.6 from `dht22` gives -25.2 with that configuration's description and value type, ingest time `now` and no topic |
| Extractor.PathStepMeaning | pkg/metrics/extractor.go:16-30 | a path yields a sample exactly when it holds a non-null value, a configuration under it accepts the device and the value coerces; the sample is the scaled value with `now` and the topic; a present path aborts on a value that does not coerce and, unless skipping, when no configuration accepts the device |
| Extractor.ExtractJSON | pkg/metrics/extractor.go:13-33 | an error comes with no samples, and occurs exactly when some configured path aborts (any parse error, as written), carrying that path's error; otherwise exactly the kept paths are visited, once each, and sample `j` is the one kept for visited path `j` |
| Extractor.ExtractJSONSkipping | pkg/metrics/extractor_test.go:110-131 | as ExtractJSON, but a path with no configuration for the device is skipped; only a value that does not coerce is an error |
| Extractor.FilteredOutPathFails | pkg/metrics/extractor.go:24-27 | a present path whose configurations all reject the device aborts the message with metricNotConfigured in the extractor as written, and is skipped by the corrected one |
| Extractor.ExtractPerTopic | pkg/metrics/extractor.go:35-51 | an empty `metricname` group is an error; metricNotConfigured yields nothing and no error; any other parse error is returned with no samples; success is exactly one sample with the topic |
| Extractor.PerTopicSilent | pkg/metrics/extractor.go:41-45 | no sample and no error exactly when the topic names a metric that no configuration accepts for the device |
| Extractor.SetupExtractor | cmd/mqtt2prometheus.go:236-250 | object-per-topic with JSON encoding selects the JSON extractor and takes precedence; metric-per-topic alone selects the per-topic one; neither is an error |
| Extractor.SetupAfterLoad | cmd/mqtt2prometheus.go:236-250 | a configuration LoadConfig accepts yields a runnable strategy unless its object encoding is not JSON |
| Extractor.Extract | pkg/metrics/extractor_test.go:110-131 | in both modes an error comes with no samples; per-topic mode is ExtractPerTopic; JSON mode errs exactly when some path aborts under the skipping policy, with that path's error, and otherwise returns one sample per kept path, once each |
| Extractor.NestedPath | pkg/metrics/extractor_test.go:30-56 | keys SDS0X1, PM2, 5 joined by the separator find 4.9 in the nested document |
| Extractor.DottedKeyPath | pkg/metrics/extractor_test.go:57-82 | the dot in PM2.5 is part of the key: the path finds 4.9 |
| Ingest.LastNamed | pkg/metrics/ingest.go:25-29 | the last configuration carrying an MQTT name |
| Ingest.LastNamedIsLastOfGroup | pkg/metrics/ingest.go:25-29 | the configuration the ingest map keeps for a name is the last one the parser groups under it |
| Ingest.Stored | pkg/metrics/ingest.go:92-96 | a stored sample carries description, value and value type only: no scaling, zero ingest time, empty topic |
| Ingest.Ingest.constructor | pkg/metrics/ingest.go:24-40 | keys are the MQTT names present; a later configuration with the same name replaces an earlier one |
| Ingest.Ingest.Store | pkg/metrics/ingest.go:44-100 | unconfigured entries are skipped; an error occurs exactly when some configured entry does not coerce, and then the cache is unchanged; otherwise one sample per configured entry is observed in one Observe call |
| Collector.Emit | pkg/metrics/collector.go:75-87 | label values are device then topic; a timestamp is attached exactly when the ingest time is not the zero time |
| Collector.LastWithKey | pkg/metrics/collector.go:53-59 | the last metric of a collection stored under a key |
| Collector.ObservedAt | pkg/metrics/collector.go:52-60 | after Observe, each derived key holds the last metric with that key, with the device and the expiration; every other key is unchanged |
| Collector.ExpiryWindow | pkg/metrics/collector.go:46-58 | with a positive timeout, an entry observed at t is seen by reads up to t + timeout and by none after |
| Collector.MemoryCachedCollector.constructor | pkg/metrics/collector.go:40-50 | one description per configured metric in configuration order, an empty cache, the timeout as default expiration and ten times it as cleanup interval |
| Collector.MemoryCachedCollector.Expiration | pkg/metrics/collector.go:46-58 | a positive default expiration makes an entry expire that long after it is set; any other never expires |
| Collector.MemoryCachedCollector.Observe | pkg/metrics/collector.go:52-60 | the new cache is the old one with each metric stored in turn under `<device>-<description>` |
| Collector.MemoryCachedCollector.Describe | pkg/metrics/collector.go:62-66 | sends exactly the configured descriptions, in order |
| Collector.MemoryCachedCollector.Collect | pkg/metrics/collector.go:68-90 | sends exactly one metric per entry not yet expired, each keyed once, built by Emit: every sent metric is the emission of a live entry and every live entry is emitted |

## Findings

| source | as written | input that shows it | evidently intended | confidence | as-written member | corrected member |
|---|---|---|---|---|---|---|
| pkg/metrics/extractor.go:24-27 | the JSON extractor returns an error for any parse failure, including metricNotConfigured when every configuration of a present path filters the device out | filter `.*fail$` on `temperature`, device `dht22`, payload `{"temperature": 8.5}` (the case at pkg/metrics/extractor_test.go:110-131, which expects no samples and no error) | skip such a path as if it were absent, as the metric-per-topic extractor does | high; not executed | Extractor.ExtractJSON, Extractor.FilteredOutPathFails | Extractor.ExtractJSONSkipping |

The start-up choice `Extractor.Extract` runs the corrected extractor.

## Left out

- I/O: reading the configuration file and decoding the YAML (pkg/config/config.go:155-163). The MQTT client, the HTTP server and command-line handling in cmd/mqtt2prometheus.go are also left out.
- Go's regexp engine (compilation and matching) is supplied as the `Compiled` record. Only the default device-ID pattern's behaviour is written out.
- `Config.LoadConfig`: requires what the decode and the source's dereferences assume. Every present expression is compiled, and a metric-per-topic section has its expression; the source dereferences nil otherwise.
- The aliasing of the global `MQTTConfigDefaults` at pkg/config/config.go:165 and :183 is not modelled. Configurations are values here. The wrong pattern printed in the error text at pkg/config/config.go:196 is not modelled either: errors are constructors without text.
- `Config.UnmarshalYAML`: the receiver update is modelled as a returned value.
- gojsonq itself is left out. Payload decoding is the `decode` parameter. Path segments written as `[n]` array indices are not modelled: a path step into an array finds nothing.
- `strconv.ParseFloat`'s grammar (for example the rejection of `12.6.5`) is the `parseFloat` parameter.
- Numbers are reals: float64 rounding, including that of the scale multiplication, is not modelled.
- Byte payloads are strings, and error messages are error constructors.
- go-cache's background janitor, its locking, and its use of the system clock inside `Set` and `Items` are left out. The clock is a `now` argument. The cleanup interval is recorded but nothing runs on it.
- Prometheus descriptions are records, and their validation is left out. `MustNewConstMetric`'s panic on an invalid description is not modelled. `Desc.String()` is the collector's `render` function.
- The `empty description` warning in Collect is left out, because it only logs.
- The `MessageMetric` counters (pkg/metrics/ingest.go:33-38, pkg/metrics/instrumentation.go) are left out. So is `Ingest.SetupSubscriptionHandler` (pkg/metrics/ingest.go:102-122): it is a message-bus callback with logging and an error channel.
- Concurrency between message callbacks and scrapes is left out.
- pkg/metrics/parser_test.go exercises functions absent from pkg/metrics/parser.go: monotonic counters, expressions and on-disk state. These are not modelled.
- The `MQTTValueScale` field that pkg/metrics/parser.go:98 reads is missing from the configuration record at pkg/config/config.go:121-129. The model adds it as `mqttValueScale`.
- Extractor.Extract: in JSON mode it runs the corrected `ExtractJSONSkipping`. A message with a present path that no configuration accepts for the device therefore yields no samples and no error, where pkg/metrics/extractor.go:24-27 as written returns an error. `ExtractJSON` models the code as written; see "## Findings".
- Config.GroupValue, Config.MustNewRegexp, Extractor.ExtractPerTopic: they require a compiled expression. Go panics there instead: GroupValue dereferences the nil expression at pkg/config/config.go:64, and MustNewRegexp calls `regexp.MustCompile` at pkg/config/config.go:81. The panics are not modelled. `Extractor.SetupAfterLoad` shows that a configuration `LoadConfig` accepts never reaches these cases.
- `Collector.MemoryCachedCollector.Collect`, `Extractor.ExtractJSON`, `Ingest.Ingest.Store`: the order of emitted samples and which error is reported depend on Go's map order. The contracts state only order-independent facts; the order taken is a ghost output.
