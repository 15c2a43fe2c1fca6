/**
 * The results map one call of the fetch assembles, as a function of the
 * configured devices, the unit setting and everything the fetch consults
 * besides its own fields, and what can be said about it.
 */
module Cycle {

  import opened JsValues
  import opened Devices
  import opened Readings

  /**
   * What the loop consults beyond its own state: how each GET of the cycle ends
   * (the i-th request, with its URL), the two conversion helpers, and the clock
   * (`clock(i)` is the time read while device i is handled, `clock(|devices|)`
   * the time read after the loop).
   */
  datatype World = World(
    respond: (nat, string) -> Response,
    toFahrenheit: Value -> Completion,
    round: Value -> Completion,
    clock: nat -> int)

  /** The entry device i of the list produces. */
  function EntryAt(devices: seq<Device>, units: string, w: World, i: nat): Entry
    requires i < |devices|
  {
    DeviceEntry(units, w.respond(i, Url(devices[i])), w.toFahrenheit, w.round, w.clock(i))
  }

  /** How iteration i ends. */
  function OutcomeAt(devices: seq<Device>, units: string, w: World, i: nat): Outcome
    requires i < |devices|
  {
    DeviceOutcome(units, w.respond(i, Url(devices[i])), w.toFahrenheit, w.round, w.clock(i))
  }

  /** None of the first n iterations lets an exception out of its catch block. */
  ghost predicate Completes(devices: seq<Device>, units: string, w: World, n: nat)
    requires n <= |devices|
  {
    forall i :: 0 <= i < n ==> OutcomeAt(devices, units, w, i).Stored?
  }

  /**
   * The results map after the first n iterations: each one assigns its
   * device's host, so the keys are exactly the hosts handled so far.
   */
  function Results(devices: seq<Device>, units: string, w: World, n: nat): (r: map<string, Entry>)
    requires n <= |devices|
    ensures r.Keys == set d | d in devices[..n] :: d.host
  {
    if n == 0 then map[]
    else
      var before := Results(devices, units, w, n - 1);
      assert devices[..n] == devices[..n - 1] + [devices[n - 1]];
      assert (set d | d in devices[..n] :: d.host)
          == (set d | d in devices[..n - 1] :: d.host) + {devices[n - 1].host};
      before[devices[n - 1].host := EntryAt(devices, units, w, n - 1)]
  }

  /** The URLs of the first n devices, in list order. */
  function RequestUrls(devices: seq<Device>, n: nat): (urls: seq<string>)
    requires n <= |devices|
    ensures |urls| == n
    ensures forall i :: 0 <= i < n ==> urls[i] == Url(devices[i])
  {
    if n == 0 then [] else RequestUrls(devices, n - 1) + [Url(devices[n - 1])]
  }

  /** Device i is the last one in the first n whose host is `devices[i].host`. */
  ghost predicate LastWithHost(devices: seq<Device>, n: nat, i: nat)
    requires n <= |devices|
  {
    i < n && forall j :: i < j < n ==> devices[j].host != devices[i].host
  }

  /** Last writer wins: a host's slot holds the entry of the last device with that host. */
  lemma {:induction false} LastWriterWins(devices: seq<Device>, units: string, w: World, n: nat, i: nat)
    requires n <= |devices| && LastWithHost(devices, n, i)
    ensures devices[i].host in Results(devices, units, w, n)
    ensures Results(devices, units, w, n)[devices[i].host] == EntryAt(devices, units, w, i)
  {
    if i < n - 1 {
      LastWriterWins(devices, units, w, n - 1, i);
    }
  }

  /** Every slot was written by some device with that host, the last one with it: device `i`. */
  lemma {:induction false} SlotOrigin(devices: seq<Device>, units: string, w: World, n: nat, host: string)
    returns (i: nat)
    requires n <= |devices| && host in Results(devices, units, w, n)
    ensures i < n && devices[i].host == host && LastWithHost(devices, n, i)
    ensures Results(devices, units, w, n)[host] == EntryAt(devices, units, w, i)
  {
    if devices[n - 1].host == host {
      i := n - 1;
    } else {
      assert host in Results(devices, units, w, n - 1);
      i := SlotOrigin(devices, units, w, n - 1, host);
    }
  }

  /** The same world, except that request i ends with `r`. */
  function WithResponse(w: World, i: nat, r: Response): World {
    w.(respond := (j: nat, url: string) => if j == i then r else w.respond(j, url))
  }

  /** Changing how request i ends changes nothing handled before device i. */
  lemma {:induction false} ResultsBefore(devices: seq<Device>, units: string, w: World,
                                         i: nat, r: Response, n: nat)
    requires n <= i && n <= |devices|
    ensures Results(devices, units, w, n) == Results(devices, units, WithResponse(w, i, r), n)
  {
    if n > 0 {
      ResultsBefore(devices, units, w, i, r, n - 1);
    }
  }

  /**
   * Failure isolation: whatever request i ends with (a rejection included),
   * the same hosts are present and every other host's slot is unchanged.
   */
  lemma {:induction false} FailureIsolation(devices: seq<Device>, units: string, w: World,
                                            i: nat, r: Response, n: nat)
    requires i < n <= |devices|
    ensures var a, b := Results(devices, units, w, n), Results(devices, units, WithResponse(w, i, r), n);
            && a.Keys == b.Keys
            && forall host :: host in a && host != devices[i].host ==> a[host] == b[host]
  {
    if i == n - 1 {
      ResultsBefore(devices, units, w, i, r, n - 1);
    } else {
      FailureIsolation(devices, units, w, i, r, n - 1);
    }
  }

  /**
   * Whether the fetch still runs to its end when request i ends with `r`
   * instead: given that it did, it does exactly when iteration i then stores a
   * slot; an iteration whose catch block throws aborts the whole fetch.
   */
  lemma StoredKeepsCompleting(devices: seq<Device>, units: string, w: World,
                              i: nat, r: Response, n: nat)
    requires i < n <= |devices| && Completes(devices, units, w, n)
    ensures Completes(devices, units, WithResponse(w, i, r), n)
            <==> OutcomeAt(devices, units, WithResponse(w, i, r), i).Stored?
  {
    forall j | 0 <= j < n && j != i
      ensures OutcomeAt(devices, units, WithResponse(w, i, r), j) == OutcomeAt(devices, units, w, j)
    {
    }
  }

  /**
   * When every request is rejected, the loop runs to the end and every slot
   * holds the fixed error record.
   */
  lemma {:induction false} AllRejected(devices: seq<Device>, units: string, w: World, n: nat)
    requires n <= |devices|
    requires forall i :: 0 <= i < n ==> w.respond(i, Url(devices[i])).Rejected?
    ensures Completes(devices, units, w, n)
    ensures forall host :: host in Results(devices, units, w, n) ==>
              Results(devices, units, w, n)[host] == Failed(Unavailable)
  {
    if n > 0 {
      AllRejected(devices, units, w, n - 1);
    }
  }
}
