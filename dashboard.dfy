/** The sensor status badge of the Dashboard page
    (src/components/Dashboard.jsx): the timestamp the realtime listener
    keeps and the liveness test the interval applies to it. */
module SensorStatus {

  /** A reading older than this many seconds means the sensor is offline. */
  const SENSOR_TIMEOUT_SECONDS := 90

  /** `rawTimestamp` before the first reading arrives. */
  const INITIAL_RAW_TIMESTAMP := 0

  /** `Math.floor(Date.now() / 1000)`: the whole seconds of a clock
      reading in milliseconds. */
  function NowSeconds(ms: int): (s: int)
    ensures s * 1000 <= ms < s * 1000 + 1000
  {
    ms / 1000
  }

  /** What `parseInt` makes of the stored timestamp: NaN, or an integer. */
  datatype ParsedInt = NaN | Int(value: int)

  /** `parseInt(d.timestamp) || 0`: NaN and 0 are falsy and both give 0;
      every other integer is kept. */
  function TimestampOrZero(p: ParsedInt): (ts: int)
    ensures p.Int? && p.value != 0 ==> ts == p.value
    ensures ts == 0 <==> p.NaN? || p.value == 0
  {
    match p
    case NaN => 0
    case Int(n) => if n == 0 then 0 else n
  }

  /** The interval's test: `rawTimestamp && now - rawTimestamp <= 90`,
      with `now` taken from the clock reading `nowMs`. */
  predicate IsOnline(nowMs: int, rawTimestamp: int) {
    rawTimestamp != 0 && NowSeconds(nowMs) - rawTimestamp <= SENSOR_TIMEOUT_SECONDS
  }

  /** A zero timestamp is offline at every time: before any reading, and
      after a reading whose timestamp does not parse or is 0. */
  lemma ZeroTimestampIsOffline(nowMs: int, p: ParsedInt)
    ensures !IsOnline(nowMs, INITIAL_RAW_TIMESTAMP)
    ensures p.NaN? ==> !IsOnline(nowMs, TimestampOrZero(p))
  {
  }

  /** In terms of the clock itself: a non-zero timestamp `ts` is online
      exactly until the millisecond `(ts + 91) * 1000`. */
  lemma {:induction false} OnlineWindow(nowMs: int, ts: int)
    requires ts != 0
    ensures IsOnline(nowMs, ts) <==> nowMs < (ts + SENSOR_TIMEOUT_SECONDS + 1) * 1000
  {
    var s := NowSeconds(nowMs);
    if s <= ts + SENSOR_TIMEOUT_SECONDS {
      assert nowMs < (s + 1) * 1000;
    } else {
      assert (ts + SENSOR_TIMEOUT_SECONDS + 1) * 1000 <= s * 1000;
    }
  }

  /** At the boundary: 90 whole seconds after the reading the sensor is
      still online, and 91 seconds after it is offline, whatever the
      milliseconds within that second. */
  lemma {:induction false} TimeoutBoundary(ts: int, ms: int)
    requires ts != 0 && 0 <= ms < 1000
    ensures IsOnline((ts + 90) * 1000 + ms, ts)
    ensures !IsOnline((ts + 91) * 1000 + ms, ts)
  {
    OnlineWindow((ts + 90) * 1000 + ms, ts);
    OnlineWindow((ts + 91) * 1000 + ms, ts);
  }

  /** A reading stamped later than the clock counts as online, since the
      difference is negative. */
  lemma {:induction false} FutureTimestampIsOnline(nowMs: int, ts: int)
    requires ts != 0 && ts > NowSeconds(nowMs)
    ensures IsOnline(nowMs, ts)
  {
  }
}
