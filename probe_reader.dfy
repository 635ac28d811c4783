/**
 * One probe read of the SMtc thermocouple reader: the channel lookup, the
 * Celsius-to-Fahrenheit conversion, the zero sentinel for a bad index or a
 * driver fault, and the simulated value used when a family has no board.
 */
module ProbeReader {
  import opened Wrappers

  /** The two probe families: cylinder-head (board at stack level 1) and exhaust-gas (stack level 0). */
  datatype Family = CHT | EGT

  /** What the driver's get_temp(channel) does: return degrees Celsius, or raise. */
  datatype Reading = Celsius(degrees: real) | Raises

  /**
   * One SMtc board as its driver presents it: whether set_sensor_type(channel, code)
   * completes (false: it raises), and what get_temp(channel) gives.
   */
  datatype Board = Board(setSensorType: (int, int) -> bool, getTemp: int -> Reading)

  const PROBE_COUNT: nat := 6
  /** Channels on a board are numbered 1 to 8. */
  const CHANNEL_COUNT: nat := 8
  /** The value returned when a reading cannot be obtained. */
  const SENTINEL: real := 0.0

  /** Probe index to board channel; both families use channels 1-4 and 7-8. */
  function ChannelMap(family: Family): (map_: seq<int>)
    ensures |map_| == PROBE_COUNT
    ensures forall i :: 0 <= i < PROBE_COUNT ==> 1 <= map_[i] <= CHANNEL_COUNT
    ensures forall i, j :: 0 <= i < j < PROBE_COUNT ==> map_[i] < map_[j]
  {
    match family
    case CHT => [1, 2, 3, 4, 7, 8]
    case EGT => [1, 2, 3, 4, 7, 8]
  }

  /** Lower end of the simulated range: 300.0 + random.uniform(0, 100) for CHT, 1200.0 + random.uniform(0, 300) for EGT. */
  function SimBase(family: Family): real {
    match family
    case CHT => 300.0
    case EGT => 1200.0
  }

  /** Width of the simulated range, the upper argument of random.uniform. */
  function SimSpan(family: Family): real {
    match family
    case CHT => 100.0
    case EGT => 300.0
  }

  function Fahrenheit(celsius: real): real {
    celsius * 9.0 / 5.0 + 32.0
  }

  /** One probe read: the value returned, and the channel get_temp was called on (None: the board was not touched). */
  datatype ProbeRead = ProbeRead(value: real, channel: Option<int>)

  /**
   * read_cht_probe / read_egt_probe for the board of `family` (None: no board).
   * `uniform` is the value random.uniform(0, SimSpan(family)) returns; it is used
   * only when there is no board.
   */
  function ReadProbe(family: Family, board: Option<Board>, probe: int, uniform: real): (r: ProbeRead)
    requires 0.0 <= uniform <= SimSpan(family)
    ensures r.channel.Some? <==> board.Some? && 0 <= probe < PROBE_COUNT
    ensures board.Some? && !(0 <= probe < PROBE_COUNT) ==> r.value == SENTINEL
    ensures r.channel.Some? ==> r.channel.value == ChannelMap(family)[probe] && r.channel.value in {1, 2, 3, 4, 7, 8}
    ensures r.channel.Some? && board.value.getTemp(r.channel.value).Raises? ==> r.value == SENTINEL
    ensures r.channel.Some? && board.value.getTemp(r.channel.value).Celsius? ==>
              (r.value - 32.0) * 5.0 == board.value.getTemp(r.channel.value).degrees * 9.0
    ensures board.None? && family == CHT ==> 300.0 <= r.value <= 400.0
    ensures board.None? && family == EGT ==> 1200.0 <= r.value <= 1500.0
  {
    match board
    case None => ProbeRead(SimBase(family) + uniform, None)
    case Some(b) =>
      if probe < 0 || probe >= |ChannelMap(family)| then ProbeRead(SENTINEL, None)
      else
        var channel := ChannelMap(family)[probe];
        match b.getTemp(channel)
        case Raises => ProbeRead(SENTINEL, Some(channel))
        case Celsius(c) => ProbeRead(Fahrenheit(c), Some(channel))
  }

  /** With a board present, the probe read is the reading of channel ChannelMap[probe], and distinct probes read distinct channels. */
  lemma ProbesReadDistinctChannels(family: Family, board: Board, p: int, q: int, u: real, v: real)
    requires 0.0 <= u <= SimSpan(family) && 0.0 <= v <= SimSpan(family)
    requires 0 <= p < PROBE_COUNT && 0 <= q < PROBE_COUNT && p != q
    ensures ReadProbe(family, Some(board), p, u).channel != ReadProbe(family, Some(board), q, v).channel
  {
    var m := ChannelMap(family);
    if p < q { assert m[p] < m[q]; } else { assert m[q] < m[p]; }
  }
}
