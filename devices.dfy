/**
 * A configured device and the URL its temperature is requested from
 * (`http://{host}:{port}/temperature`).
 */
module Devices {

  import opened Wrappers
  import Decimal

  /** One entry of the configured device list. Its display name plays no part in fetching. */
  datatype Device = Device(host: string, port: nat)

  const Scheme: string := "http://"
  const Path: string := "/temperature"

  /** Scheme, host, a colon, the port's decimal text, and the path, in that order. */
  function Url(d: Device): (u: string)
    ensures |u| == |Scheme| + |d.host| + 1 + |Decimal.Text(d.port)| + |Path|
    ensures u[..|Scheme|] == Scheme && u[|u| - |Path|..] == Path
    ensures u[|Scheme|..|Scheme| + |d.host|] == d.host && u[|Scheme| + |d.host|] == ':'
    ensures u[|Scheme| + |d.host| + 1..|u| - |Path|] == Decimal.Text(d.port)
  {
    Scheme + d.host + ":" + Decimal.Text(d.port) + Path
  }

  /** The last position of `c` in `s`, if any. */
  function LastIndexOf(s: string, c: char): (r: Option<nat>)
    ensures r.Some? ==> r.value < |s| && s[r.value] == c
    ensures r.Some? ==> forall j :: r.value < j < |s| ==> s[j] != c
    ensures r.None? ==> forall j :: 0 <= j < |s| ==> s[j] != c
    decreases |s|
  {
    if s == [] then None
    else if s[|s| - 1] == c then Some(|s| - 1)
    else LastIndexOf(s[..|s| - 1], c)
  }

  /**
   * Reads host and port back out of a temperature URL: strips the scheme and
   * the path and splits what remains at its last colon.
   */
  function SplitUrl(u: string): Option<(string, nat)> {
    if |u| < |Scheme| + |Path| || u[..|Scheme|] != Scheme || u[|u| - |Path|..] != Path then None
    else
      var authority := u[|Scheme|..|u| - |Path|];
      match LastIndexOf(authority, ':')
      case None => None
      case Some(k) =>
        var port := authority[k + 1..];
        if port != [] && Decimal.AllDigits(port) then Some((authority[..k], Decimal.Value(port)))
        else None
  }

  /** The URL of a device determines its host and port. */
  lemma UrlRoundTrip(d: Device)
    ensures SplitUrl(Url(d)) == Some((d.host, d.port))
  {
    var u := Url(d);
    var digits := Decimal.Text(d.port);
    var authority := d.host + ":" + digits;
    assert u == Scheme + authority + Path;
    assert u[..|Scheme|] == Scheme;
    assert u[|u| - |Path|..] == Path;
    assert u[|Scheme|..|u| - |Path|] == authority;
    var k := |d.host|;
    assert authority[k] == ':';
    var r := LastIndexOf(authority, ':');
    assert r.Some? && r.value == k;
    assert authority[k + 1..] == digits;
    assert authority[..k] == d.host;
    Decimal.ValueOfText(d.port);
  }

  /** Two devices are sent to the same URL exactly when they share host and port. */
  lemma UrlInjective(a: Device, b: Device)
    ensures Url(a) == Url(b) <==> a == b
  {
    UrlRoundTrip(a);
    UrlRoundTrip(b);
  }
}
