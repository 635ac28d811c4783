/**
 * The SMtc reader: construction of the two boards (EGT at stack level 0, CHT at
 * stack level 1), configuration of every channel as a K-type thermocouple, and
 * the two probe reads bound to the boards that came up.
 */
module SensorBank {
  import opened Wrappers
  import opened ProbeReader

  const EGT_STACK_LEVEL: nat := 0
  const CHT_STACK_LEVEL: nat := 1
  /** The driver's sensor-type code for a K-type thermocouple. */
  const THERMOCOUPLE_K: int := 3

  /** One set_sensor_type(channel, code) call made on the board at stack level `stack`. */
  datatype ConfigCall = SetSensorType(stack: nat, channel: int, code: int)

  /**
   * The calls made for one channel inside its single try: the EGT board first;
   * if that call raises, the CHT call for this channel is skipped.
   */
  function ChannelCalls(egt: Option<Board>, cht: Option<Board>, channel: int): seq<ConfigCall> {
    var egtCalls := if egt.Some? then [SetSensorType(EGT_STACK_LEVEL, channel, THERMOCOUPLE_K)] else [];
    var egtRaised := egt.Some? && !egt.value.setSensorType(channel, THERMOCOUPLE_K);
    var chtCalls := if cht.Some? && !egtRaised then [SetSensorType(CHT_STACK_LEVEL, channel, THERMOCOUPLE_K)] else [];
    egtCalls + chtCalls
  }

  /** The calls made for channels 1 to `upTo`, in the order the loop makes them. */
  function ConfigureCalls(egt: Option<Board>, cht: Option<Board>, upTo: nat): seq<ConfigCall> {
    if upTo == 0 then [] else ConfigureCalls(egt, cht, upTo - 1) + ChannelCalls(egt, cht, upTo)
  }

  /** Which configuration calls are made: every channel of a present EGT board; a channel of a present CHT board unless the EGT call on it raised. */
  lemma {:induction false} ConfigureCallsMade(egt: Option<Board>, cht: Option<Board>, upTo: nat, call: ConfigCall)
    ensures call in ConfigureCalls(egt, cht, upTo) <==>
              && call.code == THERMOCOUPLE_K
              && 1 <= call.channel <= upTo
              && ((call.stack == EGT_STACK_LEVEL && egt.Some?)
                  || (call.stack == CHT_STACK_LEVEL && cht.Some?
                      && (egt.None? || egt.value.setSensorType(call.channel, THERMOCOUPLE_K))))
  {
    if upTo > 0 {
      ConfigureCallsMade(egt, cht, upTo - 1, call);
    }
  }

  /** Calls in ascending channel order, and within one channel the EGT board before the CHT board. */
  predicate InChannelOrder(calls: seq<ConfigCall>) {
    forall i, j :: 0 <= i < j < |calls| ==>
      calls[i].channel < calls[j].channel
      || (calls[i].channel == calls[j].channel && calls[i].stack == EGT_STACK_LEVEL && calls[j].stack == CHT_STACK_LEVEL)
  }

  /** One channel's calls are on that channel, and the EGT board's comes first. */
  lemma ChannelCallsOrdered(egt: Option<Board>, cht: Option<Board>, channel: int)
    ensures InChannelOrder(ChannelCalls(egt, cht, channel))
    ensures forall k :: 0 <= k < |ChannelCalls(egt, cht, channel)| ==> ChannelCalls(egt, cht, channel)[k].channel == channel
  {
  }

  /** The configuration loop goes through the channels in ascending order, the EGT board first within a channel. */
  lemma {:induction false} ConfigureCallsOrdered(egt: Option<Board>, cht: Option<Board>, upTo: nat)
    ensures InChannelOrder(ConfigureCalls(egt, cht, upTo))
  {
    if upTo > 0 {
      var prefix, last := ConfigureCalls(egt, cht, upTo - 1), ChannelCalls(egt, cht, upTo);
      ConfigureCallsOrdered(egt, cht, upTo - 1);
      ChannelCallsOrdered(egt, cht, upTo);
      forall call | call in prefix ensures call.channel <= upTo - 1 {
        ConfigureCallsMade(egt, cht, upTo - 1, call);
      }
      var calls := prefix + last;
      forall i, j | 0 <= i < j < |calls|
        ensures calls[i].channel < calls[j].channel
                || (calls[i].channel == calls[j].channel && calls[i].stack == EGT_STACK_LEVEL && calls[j].stack == CHT_STACK_LEVEL)
      {
        if j < |prefix| {
          assert calls[i] == prefix[i] && calls[j] == prefix[j];
        } else if i < |prefix| {
          assert calls[i] in prefix && calls[j] == last[j - |prefix|];
        } else {
          assert calls[i] == last[i - |prefix|] && calls[j] == last[j - |prefix|];
        }
      }
    }
  }

  /** A raising EGT call on one channel does not stop the EGT calls on any later channel. */
  lemma EgtFailureDoesNotStopLaterChannels(egt: Board, cht: Option<Board>, failed: int, later: int)
    requires 1 <= failed < later <= CHANNEL_COUNT
    requires !egt.setSensorType(failed, THERMOCOUPLE_K)
    ensures SetSensorType(EGT_STACK_LEVEL, later, THERMOCOUPLE_K) in ConfigureCalls(Some(egt), cht, CHANNEL_COUNT)
    ensures SetSensorType(CHT_STACK_LEVEL, failed, THERMOCOUPLE_K) !in ConfigureCalls(Some(egt), cht, CHANNEL_COUNT)
  {
    ConfigureCallsMade(Some(egt), cht, CHANNEL_COUNT, SetSensorType(EGT_STACK_LEVEL, later, THERMOCOUPLE_K));
    ConfigureCallsMade(Some(egt), cht, CHANNEL_COUNT, SetSensorType(CHT_STACK_LEVEL, failed, THERMOCOUPLE_K));
  }

  /** SMTCReader: the boards that came up, and the reads bound to them. */
  class SmtcReader {
    var egtSensor: Option<Board>
    var chtSensor: Option<Board>
    var hardwareAvailable: bool
    /** The set_sensor_type calls made on the boards during construction, in order. */
    ghost var configCalls: seq<ConfigCall>

    /**
     * `smtcAvailable`: whether the sm_tc driver could be imported; `construct(level)`:
     * the board SMtc(level) builds, or None where construction raises.
     */
    constructor (smtcAvailable: bool, construct: nat -> Option<Board>)
      ensures egtSensor == (if smtcAvailable then construct(EGT_STACK_LEVEL) else None)
      ensures chtSensor == (if smtcAvailable then construct(CHT_STACK_LEVEL) else None)
      ensures hardwareAvailable <==> egtSensor.Some? || chtSensor.Some?
      ensures configCalls == ConfigureCalls(egtSensor, chtSensor, CHANNEL_COUNT)
    {
      egtSensor, chtSensor := None, None;
      hardwareAvailable := false;
      configCalls := [];
      new;
      if !smtcAvailable {
        return;
      }
      egtSensor := construct(EGT_STACK_LEVEL);
      chtSensor := construct(CHT_STACK_LEVEL);
      hardwareAvailable := egtSensor.Some? || chtSensor.Some?;
      if hardwareAvailable {
        var channel := 1;
        while channel <= CHANNEL_COUNT
          invariant 1 <= channel <= CHANNEL_COUNT + 1
          invariant configCalls == ConfigureCalls(egtSensor, chtSensor, channel - 1)
          invariant egtSensor == construct(EGT_STACK_LEVEL) && chtSensor == construct(CHT_STACK_LEVEL)
          invariant hardwareAvailable
        {
          // One try covers both boards: a raise on the EGT board skips the CHT call.
          var raised := false;
          if egtSensor.Some? {
            configCalls := configCalls + [SetSensorType(EGT_STACK_LEVEL, channel, THERMOCOUPLE_K)];
            raised := !egtSensor.value.setSensorType(channel, THERMOCOUPLE_K);
          }
          if !raised && chtSensor.Some? {
            configCalls := configCalls + [SetSensorType(CHT_STACK_LEVEL, channel, THERMOCOUPLE_K)];
          }
          channel := channel + 1;
        }
      }
    }

    /** read_cht_probe: the Fahrenheit value of CHT probe `probe` (0-5). */
    function ReadChtProbe(probe: int, uniform: real): (t: real)
      reads this
      requires 0.0 <= uniform <= SimSpan(CHT)
      ensures chtSensor.None? ==> 300.0 <= t <= 400.0
      ensures chtSensor.Some? && !(0 <= probe < PROBE_COUNT) ==> t == SENTINEL
    {
      ReadProbe(CHT, chtSensor, probe, uniform).value
    }

    /** read_egt_probe: the Fahrenheit value of EGT probe `probe` (0-5). */
    function ReadEgtProbe(probe: int, uniform: real): (t: real)
      reads this
      requires 0.0 <= uniform <= SimSpan(EGT)
      ensures egtSensor.None? ==> 1200.0 <= t <= 1500.0
      ensures egtSensor.Some? && !(0 <= probe < PROBE_COUNT) ==> t == SENTINEL
    {
      ReadProbe(EGT, egtSensor, probe, uniform).value
    }
  }
}
