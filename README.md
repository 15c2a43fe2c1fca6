# MMM-RemoteTemperature: the node helper's temperature fetch

This project models `_fetchTemperatureData` in the MagicMirror module
MMM-RemoteTemperature, and proves properties of the model. One call of the
fetch walks the configured devices in order. For each device it sends a GET
to `http://{host}:{port}/temperature` and writes exactly one slot of a
results map keyed by the device's host:

- when nothing throws, a success record with temperature, humidity, battery
  and timestamp;
- when the request or its processing throws, the fixed record
  `{error: "Unavailable"}`.

The catch block first reads `error.message` of what was thrown. If a helper
threw `null` or `undefined`, that read itself throws. The exception then
leaves the loop, and no view model is stored and no notification is sent.

The temperature is converted to Fahrenheit when the units are `"imperial"`,
and is then rounded. Any field that ends up nullish is replaced by `"N/A"`.
The finished map becomes the view model. It is sent in an
`INDOOR_TEMPERATURE` notification, together with a timestamp, and then as the
`MMM-RemoteTemperature.VALUE_RECEIVED` notification.

Layout, one module per concept:

- `js_values.dfy` (`JsValues`): the JavaScript values a response body and a
  record carry, and the `??` operator.
- `decimal.dfy` (`Decimal`): the decimal text of the port, and reading it back.
- `devices.dfy` (`Devices`): a configured device, its request URL, and
  splitting a URL back into host and port.
- `readings.dfy` (`Readings`): the try/catch of one iteration.
  `ProcessResponse` is the step-by-step code. `DeviceOutcome` and
  `DeviceEntry` are its declarative specification.
- `cycle.dfy` (`Cycle`): the results map as a fold over the device list, and
  lemmas about keys, last-writer-wins, failure isolation and when the fetch
  runs to its end.
- `node_helper.dfy` (`NodeHelpers`): the helper object. It has fields for the
  devices, the units, the view model, the log of issued requests and the log
  of sent notifications. `FetchTemperatureData` is the loop.

What `_fetchTemperatureData` takes from outside itself is a parameter,
collected in `Cycle.World`:

- how the i-th GET of the cycle ends: `respond(i, url)`, either a rejection
  or a resolved body;
- the two helpers `_convertToFahrenheit` and `_roundToTwoDecimalPlaces`,
  left uninterpreted: each either returns a value or throws one;
- the clock: `clock(i)` is the reading `Date.now()` gives while device i is
  handled, and `clock(|devices|)` is the reading taken after the loop.

Failed requests are not retried, nothing is cached between fetches and no
average is computed.

## Model

| member | source | states |
|---|---|---|
| JsValues.Coalesce | node_helper.js:26-28 | `v ?? fallback` is `v` unless `v` is null or undefined, and the fallback when it is; so a field defaulted to `"N/A"` is never nullish |
| Decimal.Text | node_helper.js:7 | the port as the template literal writes it: a non-empty string of decimal digits, with a leading `0` only for port 0 |
| Decimal.ValueOfText | node_helper.js:7 | the decimal text a port takes in the URL reads back as that port |
| Devices.Url | node_helper.js:7 | the request URL is the scheme `http://`, the host, a colon, the port's decimal text and the path `/temperature`, in that order |
| Devices.UrlRoundTrip | node_helper.js:7 | host and port are recovered from the request URL, even when the host contains colons |
| Devices.UrlInjective | node_helper.js:7 | two devices get the same URL exactly when they share host and port |
| Readings.DeviceEntry | node_helper.js:9-35 | the slot is the error record exactly when some statement of the try block throws, and then it is exactly `{error: "Unavailable"}`; on success the timestamp is the clock reading, humidity and battery are the payload values when not null/undefined and `"N/A"` otherwise, and the temperature is `"N/A"` only when the processed value is nullish (or already the string `"N/A"`) |
| Readings.DeviceOutcome | node_helper.js:9-35 | an iteration lets an exception out exactly when a helper threw a nullish value, so that `error.message` throws in the catch block; a rejected request and a nullish body always store `{error: "Unavailable"}`; otherwise the stored slot is `DeviceEntry` |
| Readings.ProcessResponse | node_helper.js:15-35 | reassigning the temperature step by step (read, convert if imperial, round, default), with throws caught and the thrown value's message read, yields exactly `DeviceOutcome` |
| Readings.NoConversionUnlessImperial | node_helper.js:17-20 | under units other than `"imperial"` the outcome does not depend on the Fahrenheit helper |
| Readings.ConversionIffImperial | node_helper.js:17-23 | for any Fahrenheit helper that throws on the temperature and any rounding helper that succeeds on it, the device fails if and only if the units are `"imperial"` |
| Readings.RoundingAfterConversion | node_helper.js:15-26 | rounding is always applied, to the converted value under imperial units and to the raw value otherwise; its throw fails the device, and its result, defaulted to `"N/A"`, is the stored temperature |
| Cycle.RequestUrls | node_helper.js:6-12 | the requests of the first n iterations are the URLs of the first n devices, in configuration order, one per device |
| Cycle.Results | node_helper.js:4-36 | after n iterations the keys of `results` are exactly the hosts of the first n devices |
| Cycle.LastWriterWins | node_helper.js:25-34 | a host's slot holds the entry of the last device with that host, so a later device with the same host overwrites an earlier one |
| Cycle.SlotOrigin | node_helper.js:25-34 | every slot was written by a device with that host, the last such device |
| Cycle.ResultsBefore | node_helper.js:6-36 | how request i ends does not affect the map built from the devices before it |
| Cycle.FailureIsolation | node_helper.js:6-36 | in the map the loop assembles, whatever slot request i gets, the set of keys is the same and every other host's slot is unchanged; this is the map published only when the fetch runs to its end (see `StoredKeepsCompleting`) |
| Cycle.StoredKeepsCompleting | node_helper.js:6-39 | for a fetch that runs to its end, changing how request i ends keeps it running to its end exactly when iteration i still stores a slot; an outcome that escapes its catch block aborts the fetch, and no host's fresh slot is published |
| Cycle.AllRejected | node_helper.js:32-35 | when every request is rejected, the loop runs to the end and every slot is `{error: "Unavailable"}` |
| NodeHelpers.NodeHelper.FetchTemperatureData | node_helper.js:1-49 | the fetch completes exactly when no iteration lets an exception out. When it completes, the view model is the fold of per-device entries in configuration order, the requests issued are the devices' URLs in that order, and exactly two notifications are appended: `INDOOR_TEMPERATURE` with the view model as `devices` and the final clock reading, then `MMM-RemoteTemperature.VALUE_RECEIVED` with the view model itself. When it does not, the requests stop at the first device whose catch block throws, and the view model and notifications are unchanged |

## Left out

- The HTTP call (`axios.get` with its 5-second timeout) is network I/O. It is replaced by the input `respond(i, url)`. A timeout is one of the ways a request is rejected.
- `Date.now()` is replaced by the clock input `clock`.
- The bodies of `_convertToFahrenheit` and `_roundToTwoDecimalPlaces` are not part of this model. They are uninterpreted parameters, so no numeric result (such as 20 °C to 68 °F) and no idempotence of rounding is asserted.
- Numbers are abstract reals. Floating-point behaviour (NaN, precision) is not modelled.
- `console.log` is left out, because it is logging only. `console.error` is left out except for the read of `error.message` in its argument, which is modelled: for a nullish thrown value it aborts the fetch.
- `sendSocketNotification` is modelled only as an appended record in the `sent` log.
- A response body that is a non-nullish primitive reads as a body whose three fields are undefined (the `Fields(Undefined, Undefined, Undefined)` case). Other getters on the body that might throw are not modelled.
- `NodeHelpers.NodeHelper.constructor`: the initialisation handler that sets `devices` and `units` is not part of this model. The constructor stands for the state it leaves.
- A device's host is a string and its port a non-negative integer. A missing host or port, which a template literal would render as `undefined`, is not modelled.
- The results map is a Dafny `map`, so the key order of the JavaScript object is not modelled. Neither is the special role of a host named `__proto__`.
- The device list and the unit setting are assumed not to change during a fetch. The source re-reads `this.units` after each `await`. Concurrent fetches are not modelled.
- A nullish thrown value is the only way the model's catch block throws. A thrown object whose `message` getter throws is not modelled.
- An object or array value is represented only by its identity (`JsValues.Value.Object`). Its contents are not modelled.
- Decimal.Text: this is the JavaScript rendering of the port only below 10^21, where JavaScript switches to exponent form, and only for safe integers. Real ports lie far below both limits.
- The display module (`MMM-RemoteTemperature.js`: `start`, `getDom`, `socketNotificationReceived`) is DOM rendering and message plumbing, and is left out.
