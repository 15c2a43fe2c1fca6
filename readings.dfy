/**
 * What one iteration of the device loop stores for its device: the success
 * record built from the response body, or the fixed error record written by
 * the catch block; or, when the catch block itself throws, nothing at all.
 */
module Readings {

  import opened JsValues

  /** The unit setting that switches on the Fahrenheit conversion. */
  const Imperial: string := "imperial"

  /** Sentinel for a missing field of a success record. */
  const NotAvailable: Value := Str("N/A")

  /** The error text of the failure record. */
  const Unavailable: string := "Unavailable"

  /** One slot of the results map. */
  datatype Entry =
    | Reading(temperature: Value, humidity: Value, battery: Value, timestamp: int)
    | Failed(error: string)

  /**
   * `response.data`. A nullish body makes reading `.temperature` throw; any
   * other non-object body reads as a body whose three fields are undefined.
   */
  datatype Body =
    | NullishBody
    | Fields(temperature: Value, humidity: Value, battery: Value)

  /** How the GET request ends: rejected (transport error, timeout, non-2xx) or resolved. */
  datatype Response = Rejected | Resolved(data: Body)

  /**
   * How a call to one of the conversion helpers ends: with a value, or by
   * throwing one.
   */
  datatype Completion = Returned(value: Value) | Threw(thrown: Value)

  /**
   * How one iteration ends: a slot is stored, or the catch block throws while
   * reading `error.message` and the exception leaves the loop.
   */
  datatype Outcome = Stored(entry: Entry) | Escaped

  /** Statements of the try block that can throw, given the response. */
  predicate TryThrows(units: string, response: Response,
                      toFahrenheit: Value -> Completion, round: Value -> Completion)
  {
    || response.Rejected?
    || response.data.NullishBody?
    || (units == Imperial && toFahrenheit(response.data.temperature).Threw?)
    || (units == Imperial && round(toFahrenheit(response.data.temperature).value).Threw?)
    || (units != Imperial && round(response.data.temperature).Threw?)
  }

  /**
   * The temperature the try block holds after conversion and rounding, or the
   * value the first throwing helper threw.
   */
  function ProcessedTemperature(units: string, t: Value,
                                toFahrenheit: Value -> Completion, round: Value -> Completion): Completion
  {
    if units != Imperial then round(t)
    else match toFahrenheit(t)
      case Threw(x) => Threw(x)
      case Returned(f) => round(f)
  }

  /**
   * The catch block throws: what reached it is a nullish value thrown by a
   * helper, so `error.message` is a TypeError. A rejected request and a
   * nullish body both throw error objects, which have a message.
   */
  predicate CatchThrows(units: string, response: Response,
                        toFahrenheit: Value -> Completion, round: Value -> Completion)
  {
    && response.Resolved?
    && response.data.Fields?
    && var c := ProcessedTemperature(units, response.data.temperature, toFahrenheit, round);
       c.Threw? && IsNullish(c.thrown)
  }

  /** The slot one device gets when its try/catch completes. */
  function DeviceEntry(units: string, response: Response,
                       toFahrenheit: Value -> Completion, round: Value -> Completion,
                       now: int): (e: Entry)
    ensures e.Failed? <==> TryThrows(units, response, toFahrenheit, round)
    ensures e.Failed? ==> e == Failed(Unavailable)
    ensures e.Reading? ==> e.timestamp == now
    ensures e.Reading? && !IsNullish(response.data.humidity) ==> e.humidity == response.data.humidity
    ensures e.Reading? && IsNullish(response.data.humidity) ==> e.humidity == NotAvailable
    ensures e.Reading? && !IsNullish(response.data.battery) ==> e.battery == response.data.battery
    ensures e.Reading? && IsNullish(response.data.battery) ==> e.battery == NotAvailable
    ensures e.Reading? && e.temperature == NotAvailable ==>
              var t := ProcessedTemperature(units, response.data.temperature, toFahrenheit, round).value;
              IsNullish(t) || t == NotAvailable
  {
    if response.Rejected? || response.data.NullishBody? then Failed(Unavailable)
    else
      var data := response.data;
      match ProcessedTemperature(units, data.temperature, toFahrenheit, round)
      case Threw(_) => Failed(Unavailable)
      case Returned(t) =>
        Reading(Coalesce(t, NotAvailable), Coalesce(data.humidity, NotAvailable),
                Coalesce(data.battery, NotAvailable), now)
  }

  /** How one iteration ends for a device whose request ended with `response`. */
  function DeviceOutcome(units: string, response: Response,
                         toFahrenheit: Value -> Completion, round: Value -> Completion,
                         now: int): (o: Outcome)
    ensures o.Escaped? <==> CatchThrows(units, response, toFahrenheit, round)
    ensures o.Escaped? ==> TryThrows(units, response, toFahrenheit, round)
    ensures response.Rejected? || response.data.NullishBody? ==> o == Stored(Failed(Unavailable))
    ensures o.Stored? ==> o.entry == DeviceEntry(units, response, toFahrenheit, round, now)
  {
    if CatchThrows(units, response, toFahrenheit, round) then Escaped
    else Stored(DeviceEntry(units, response, toFahrenheit, round, now))
  }

  /**
   * The try/catch of one iteration, step by step: read the body, convert the
   * temperature when the units are imperial, round it, then build the record;
   * any throw lands in the catch block, which reads the message of what was
   * thrown before it stores the error record.
   */
  method ProcessResponse(units: string, response: Response,
                         toFahrenheit: Value -> Completion, round: Value -> Completion,
                         now: int) returns (outcome: Outcome)
    ensures outcome == DeviceOutcome(units, response, toFahrenheit, round, now)
  {
    var threw := false;
    var error: Value := Undefined;
    var temperature: Value := Undefined;
    if response.Rejected? || response.data.NullishBody? {
      threw, error := true, Object(0);
    } else {
      temperature := response.data.temperature;
      if units == Imperial {
        var c := toFahrenheit(temperature);
        if c.Threw? {
          threw, error := true, c.thrown;
        } else {
          temperature := c.value;
        }
      }
      if !threw {
        var c := round(temperature);
        if c.Threw? {
          threw, error := true, c.thrown;
        } else {
          temperature := c.value;
        }
      }
    }
    if threw && IsNullish(error) {
      outcome := Escaped;
    } else if threw {
      outcome := Stored(Failed(Unavailable));
    } else {
      outcome := Stored(Reading(Coalesce(temperature, NotAvailable),
                                Coalesce(response.data.humidity, NotAvailable),
                                Coalesce(response.data.battery, NotAvailable),
                                now));
    }
  }

  /** Under any units other than imperial the conversion helper is never consulted. */
  lemma NoConversionUnlessImperial(units: string, response: Response,
                                   f: Value -> Completion, g: Value -> Completion,
                                   round: Value -> Completion, now: int)
    requires units != Imperial
    ensures DeviceOutcome(units, response, f, round, now) == DeviceOutcome(units, response, g, round, now)
  {
  }

  /**
   * Under imperial units the conversion helper is consulted: when it throws on
   * the temperature and rounding the raw temperature would succeed, the device
   * fails exactly when the units are imperial.
   */
  lemma ConversionIffImperial(units: string, t: Value, h: Value, b: Value,
                              f: Value -> Completion, round: Value -> Completion, now: int)
    requires f(t).Threw? && round(t).Returned?
    ensures DeviceEntry(units, Resolved(Fields(t, h, b)), f, round, now).Failed? <==> units == Imperial
  {
  }

  /** Rounding follows conversion: its input is the Fahrenheit value when imperial, the raw value otherwise. */
  lemma RoundingAfterConversion(units: string, t: Value, h: Value, b: Value,
                                toFahrenheit: Value -> Completion, round: Value -> Completion, now: int)
    requires units == Imperial ==> toFahrenheit(t).Returned?
    ensures var input := if units == Imperial then toFahrenheit(t).value else t;
            var e := DeviceEntry(units, Resolved(Fields(t, h, b)), toFahrenheit, round, now);
            && (round(input).Threw? <==> e.Failed?)
            && (round(input).Returned? ==> e.temperature == Coalesce(round(input).value, NotAvailable))
  {
  }
}
