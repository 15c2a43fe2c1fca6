/**
 * The node helper's temperature fetch: walk the configured devices in order,
 * request each one's temperature, store one entry per host, keep the map as
 * the view model and push it out in two socket notifications.
 */
module NodeHelpers {

  import opened Devices
  import opened Readings
  import opened Cycle

  const IndoorTemperature: string := "INDOOR_TEMPERATURE"
  const ValueReceived: string := "MMM-RemoteTemperature.VALUE_RECEIVED"

  datatype Payload =
    | DevicesPayload(devices: map<string, Entry>, timestamp: int)
    | ViewModelPayload(viewModel: map<string, Entry>)

  /** One call of `sendSocketNotification`. */
  datatype Notification = Notification(name: string, payload: Payload)

  class NodeHelper {
    var devices: seq<Device>
    var units: string
    var viewModel: map<string, Entry>
    /** URLs of the GET requests issued so far, in the order they were issued. */
    var requests: seq<string>
    /** Socket notifications sent so far, in the order they were sent. */
    var sent: seq<Notification>

    /** The helper as its initialisation message leaves it: devices and units set. */
    constructor (devices: seq<Device>, units: string)
      ensures this.devices == devices && this.units == units
      ensures viewModel == map[] && requests == [] && sent == []
    {
      this.devices := devices;
      this.units := units;
      viewModel := map[];
      requests := [];
      sent := [];
    }

    /**
     * One fetch. It returns whether the fetch ran to its end; if an exception
     * escapes a catch block, the rest of the loop and everything after it are
     * skipped.
     */
    method FetchTemperatureData(w: World) returns (completed: bool)
      modifies this`viewModel, this`requests, this`sent
      ensures completed == Completes(devices, units, w, |devices|)
      ensures completed ==> viewModel == Results(devices, units, w, |devices|)
      ensures completed ==> requests == old(requests) + RequestUrls(devices, |devices|)
      ensures completed ==> sent == old(sent) + [Notification(IndoorTemperature, DevicesPayload(viewModel, w.clock(|devices|))),
                                                 Notification(ValueReceived, ViewModelPayload(viewModel))]
      ensures !completed ==> viewModel == old(viewModel) && sent == old(sent)
      ensures !completed ==> exists k :: 0 <= k < |devices| && Completes(devices, units, w, k)
                                         && OutcomeAt(devices, units, w, k).Escaped?
                                         && requests == old(requests) + RequestUrls(devices, k + 1)
    {
      var results: map<string, Entry> := map[];
      var i := 0;
      while i < |devices|
        invariant 0 <= i <= |devices|
        invariant Completes(devices, units, w, i)
        invariant results == Results(devices, units, w, i)
        invariant requests == old(requests) + RequestUrls(devices, i)
        invariant viewModel == old(viewModel) && sent == old(sent)
      {
        var device := devices[i];
        var url := Url(device);
        requests := requests + [url];
        var response := w.respond(i, url);
        var outcome := ProcessResponse(units, response, w.toFahrenheit, w.round, w.clock(i));
        if outcome.Escaped? {
          assert OutcomeAt(devices, units, w, i).Escaped?;
          assert requests == old(requests) + RequestUrls(devices, i + 1);
          return false;
        }
        results := results[device.host := outcome.entry];
        i := i + 1;
      }
      viewModel := results;
      sent := sent + [Notification(IndoorTemperature, DevicesPayload(results, w.clock(|devices|)))];
      sent := sent + [Notification(ValueReceived, ViewModelPayload(viewModel))];
      completed := true;
    }
  }
}
