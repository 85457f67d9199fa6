/**
 * The ESP-NOW data processor: a lifecycle flag and two uint32_t counters,
 * and the per-packet pipeline that validates a received payload, counts it,
 * decodes the two clutch readings and forwards them to the HID report sink.
 *
 * The module-level statics become the fields of class `Processor`; each of
 * its methods is proved against a function on `ProcessorState` values
 * (`InitStep`, `DeinitStep`, `ProcessStep`), and the lemmas below state the
 * processor's rules about those functions.
 */
module DataProcessor {
  import opened Types
  import opened Packet
  import opened UsbComm

  /** The values of s_is_initialized, s_total_packets and s_total_bytes. */
  datatype ProcessorState = ProcessorState(initialized: bool, totalPackets: uint32, totalBytes: uint32)

  /** The statics as the program image defines them, before any call. */
  const PowerOn: ProcessorState := ProcessorState(false, 0, 0)

  /** New state and return code of init or deinit. */
  datatype Transition = Transition(state: ProcessorState, status: EspErr)

  /** New state, return code and the pair handed to the sink, if any, of one
      call to the packet handler. */
  datatype Outcome = Outcome(state: ProcessorState, status: EspErr, report: Option<Report>)

  /** The reports an outcome hands to the sink, as a sequence. */
  function Reported(o: Outcome): seq<Report> {
    if o.report.Some? then [o.report.value] else []
  }

  // ---------------------------------------------------------------------
  // Lifecycle

  function InitStep(s: ProcessorState): (t: Transition)
    ensures t.status == EspOk && t.state.initialized
    ensures s.initialized ==> t.state == s
    ensures !s.initialized ==> t.state.totalPackets == 0 && t.state.totalBytes == 0
  {
    if s.initialized then Transition(s, EspOk)
    else Transition(ProcessorState(true, 0, 0), EspOk)
  }

  function DeinitStep(s: ProcessorState): (t: Transition)
    ensures !t.state.initialized
    ensures t.status == EspOk <==> s.initialized
    ensures !s.initialized ==> t.status == EspErrInvalidState
    ensures t.state.totalPackets == s.totalPackets && t.state.totalBytes == s.totalBytes
  {
    if !s.initialized then Transition(s, EspErrInvalidState)
    else Transition(s.(initialized := false), EspOk)
  }

  /** Calling init twice is the same as calling it once. */
  lemma InitIdempotent(s: ProcessorState)
    ensures InitStep(InitStep(s).state) == InitStep(s)
  {
  }

  /** Counters survive deinit and are zeroed only by the init that follows. */
  lemma ReinitResetsCounters(s: ProcessorState)
    requires s.initialized
    ensures DeinitStep(s).state == s.(initialized := false)
    ensures InitStep(DeinitStep(s).state).state == ProcessorState(true, 0, 0)
  {
  }

  // ---------------------------------------------------------------------
  // Packet handling

  /** The caller's side of the C contract: a non-NULL `data` points to at
      least `len` readable bytes. */
  predicate BufferHolds(data: Option<seq<byte>>, len: int32) {
    data.Some? ==> len as int <= |data.value|
  }

  /** The argument check: both pointers non-NULL and a positive length. */
  predicate ArgsValid(macAddr: Option<seq<byte>>, data: Option<seq<byte>>, len: int32) {
    macAddr.Some? && data.Some? && len > 0
  }

  /** Counting one accepted packet of `len` bytes, in uint32_t arithmetic. */
  function Count(s: ProcessorState, len: nat): (c: ProcessorState)
    ensures c.initialized == s.initialized
    ensures c.totalPackets as int == (s.totalPackets as int + 1) % Uint32Modulus
    ensures c.totalBytes as int == (s.totalBytes as int + len) % Uint32Modulus
  {
    s.(totalPackets := WrapAdd32(s.totalPackets, 1), totalBytes := WrapAdd32(s.totalBytes, len))
  }

  /** One call of the packet handler on state `s`. The sender address is
      only checked for NULL; its bytes are never read. */
  function ProcessStep(s: ProcessorState, macAddr: Option<seq<byte>>, data: Option<seq<byte>>, len: int32): (o: Outcome)
    requires BufferHolds(data, len)
    ensures o.state.initialized == s.initialized
    ensures o.report.Some? <==> o.status == EspOk
    ensures o.report.Some? ==> InRange(o.report.value)
  {
    if !s.initialized then Outcome(s, EspErrInvalidState, None)
    else if !ArgsValid(macAddr, data, len) then Outcome(s, EspErrInvalidArg, None)
    else
      var counted := Count(s, len as nat);
      if len as int < PayloadSize then Outcome(counted, EspErrInvalidSize, None)
      else Outcome(counted, EspOk, Some(Decode(data.value)))
  }

  /** The checks run in a fixed order: lifecycle, then arguments, then size;
      the first that fails decides the return code. */
  lemma ErrorPrecedence(s: ProcessorState, macAddr: Option<seq<byte>>, data: Option<seq<byte>>, len: int32)
    requires BufferHolds(data, len)
    ensures var o := ProcessStep(s, macAddr, data, len);
      && (o.status == EspErrInvalidState <==> !s.initialized)
      && (o.status == EspErrInvalidArg <==> s.initialized && !ArgsValid(macAddr, data, len))
      && (o.status == EspErrInvalidSize <==> s.initialized && ArgsValid(macAddr, data, len) && len as int < PayloadSize)
      && (o.status == EspOk <==> s.initialized && ArgsValid(macAddr, data, len) && len as int >= PayloadSize)
  {
  }

  /** A call leaves the counters untouched exactly when it is rejected by the
      lifecycle or argument check; such a call sends nothing. */
  lemma RejectedCallsChangeNothing(s: ProcessorState, macAddr: Option<seq<byte>>, data: Option<seq<byte>>, len: int32)
    requires BufferHolds(data, len)
    ensures var o := ProcessStep(s, macAddr, data, len);
      (o.state == s <==> o.status in {EspErrInvalidState, EspErrInvalidArg})
      && (o.state == s ==> o.report.None?)
  {
    var o := ProcessStep(s, macAddr, data, len);
    if s.initialized && ArgsValid(macAddr, data, len) {
      WrapAdd32Moves(s.totalPackets);
    }
  }

  /** Adding one modulo 2^32 always gives a different counter value. */
  lemma WrapAdd32Moves(a: uint32)
    ensures WrapAdd32(a, 1) != a
  {
    if a as int + 1 < Uint32Modulus {
    } else {
      assert WrapAdd32(a, 1) == 0;
    }
  }

  /** Every call that passes the lifecycle and argument checks adds one packet
      and `len` bytes, wrapping modulo 2^32, even when the size check then
      rejects it. */
  lemma CountedBeforeSizeCheck(s: ProcessorState, macAddr: Option<seq<byte>>, data: Option<seq<byte>>, len: int32)
    requires BufferHolds(data, len)
    requires s.initialized && ArgsValid(macAddr, data, len)
    ensures var o := ProcessStep(s, macAddr, data, len);
      && o.state.totalPackets as int == (s.totalPackets as int + 1) % Uint32Modulus
      && o.state.totalBytes as int == (s.totalBytes as int + len as int) % Uint32Modulus
      && (len as int < PayloadSize ==> o.status == EspErrInvalidSize && o.report.None?)
  {
  }

  /** A forwarded pair is the clamped little-endian reading of bytes 0-3;
      the call then reports success, whatever the sink answers. */
  lemma ForwardedPair(s: ProcessorState, macAddr: Option<seq<byte>>, data: Option<seq<byte>>, len: int32)
    requires BufferHolds(data, len)
    requires s.initialized && ArgsValid(macAddr, data, len) && len as int >= PayloadSize
    ensures var o := ProcessStep(s, macAddr, data, len);
      var d := data.value;
      && o.status == EspOk
      && o.report.Some?
      && o.report.value.left as int == Min(d[0] as int + 256 * d[1] as int, MaxRaw as int)
      && o.report.value.right as int == Min(d[2] as int + 256 * d[3] as int, MaxRaw as int)
  {
  }

  function Min(a: int, b: int): int {
    if a <= b then a else b
  }

  /** Two calls whose payloads agree on bytes 0-3 forward the same pair. */
  lemma ForwardIgnoresTail(s: ProcessorState, macAddr: Option<seq<byte>>, p: seq<byte>, q: seq<byte>, len: int32)
    requires len as int <= |p| && len as int <= |q|
    requires |p| >= PayloadSize && |q| >= PayloadSize && p[..PayloadSize] == q[..PayloadSize]
    ensures ProcessStep(s, macAddr, Some(p), len) == ProcessStep(s, macAddr, Some(q), len)
  {
    DecodeIgnoresTail(p, q);
  }

  /** After deinit, every packet is rejected until init is called again. */
  lemma DeinitStopsProcessing(s: ProcessorState, macAddr: Option<seq<byte>>, data: Option<seq<byte>>, len: int32)
    requires BufferHolds(data, len)
    ensures var d := DeinitStep(s).state;
      ProcessStep(d, macAddr, data, len) == Outcome(d, EspErrInvalidState, None)
  {
  }

  // ---------------------------------------------------------------------
  // A sequence of received packets

  datatype Call = Call(macAddr: Option<seq<byte>>, data: Option<seq<byte>>, len: int32)

  predicate WellFormed(calls: seq<Call>) {
    forall i :: 0 <= i < |calls| ==> BufferHolds(calls[i].data, calls[i].len)
  }

  /** The state and the reports sent after handling `calls` in order. */
  function Run(s: ProcessorState, calls: seq<Call>): (r: (ProcessorState, seq<Report>))
    requires WellFormed(calls)
    ensures r.0.initialized == s.initialized
    ensures |r.1| <= |calls|
    decreases |calls|
  {
    if calls == [] then (s, [])
    else
      var c := calls[0];
      var o := ProcessStep(s, c.macAddr, c.data, c.len);
      var rest := Run(o.state, calls[1..]);
      (rest.0, Reported(o) + rest.1)
  }

  /** 1 when a call passes the argument check, else 0. */
  function Accepted(c: Call): nat {
    if ArgsValid(c.macAddr, c.data, c.len) then 1 else 0
  }

  /** The bytes a call adds to the byte counter. */
  function AcceptedLen(c: Call): nat {
    if ArgsValid(c.macAddr, c.data, c.len) then c.len as nat else 0
  }

  /** The pair a call forwards, if it passes every check. */
  function ForwardedBy(c: Call): seq<Report>
    requires BufferHolds(c.data, c.len)
  {
    if ArgsValid(c.macAddr, c.data, c.len) && c.len as int >= PayloadSize then [Decode(c.data.value)] else []
  }

  /** How many of `calls` pass the argument check. */
  function AcceptedCount(calls: seq<Call>): nat {
    if calls == [] then 0 else Accepted(calls[0]) + AcceptedCount(calls[1..])
  }

  /** The total length of the calls that pass the argument check. */
  function AcceptedBytes(calls: seq<Call>): nat {
    if calls == [] then 0 else AcceptedLen(calls[0]) + AcceptedBytes(calls[1..])
  }

  /** The decoded pairs of the calls that pass every check, in order. */
  function Forwarded(calls: seq<Call>): seq<Report>
    requires WellFormed(calls)
  {
    if calls == [] then [] else ForwardedBy(calls[0]) + Forwarded(calls[1..])
  }

  lemma WellFormedTail(calls: seq<Call>)
    requires WellFormed(calls) && calls != []
    ensures WellFormed(calls[1..])
  {
    forall i | 0 <= i < |calls[1..]| ensures BufferHolds(calls[1..][i].data, calls[1..][i].len) {
      assert calls[1..][i] == calls[i + 1];
    }
  }

  /** One call of an initialised processor, in terms of the per-call totals. */
  lemma StepTotals(s: ProcessorState, c: Call)
    requires s.initialized && BufferHolds(c.data, c.len)
    ensures var o := ProcessStep(s, c.macAddr, c.data, c.len);
      && o.state.initialized
      && o.state.totalPackets as int == (s.totalPackets as int + Accepted(c)) % Uint32Modulus
      && o.state.totalBytes as int == (s.totalBytes as int + AcceptedLen(c)) % Uint32Modulus
      && Reported(o) == ForwardedBy(c)
  {
  }

  /** While initialised, the packet counter is the number of accepted calls
      added to its starting value, modulo 2^32. */
  lemma {:induction false} RunCountsPackets(s: ProcessorState, calls: seq<Call>)
    requires WellFormed(calls) && s.initialized
    ensures Run(s, calls).0.totalPackets as int == (s.totalPackets as int + AcceptedCount(calls)) % Uint32Modulus
    decreases |calls|
  {
    if calls != [] {
      var c, tail := calls[0], calls[1..];
      var o := ProcessStep(s, c.macAddr, c.data, c.len);
      WellFormedTail(calls);
      StepTotals(s, c);
      RunCountsPackets(o.state, tail);
      assert Run(s, calls).0 == Run(o.state, tail).0;
      ModAddAssoc(s.totalPackets as int + Accepted(c), AcceptedCount(tail));
    }
  }

  /** While initialised, the byte counter is the total length of the accepted
      calls added to its starting value, modulo 2^32. */
  lemma {:induction false} RunCountsBytes(s: ProcessorState, calls: seq<Call>)
    requires WellFormed(calls) && s.initialized
    ensures Run(s, calls).0.totalBytes as int == (s.totalBytes as int + AcceptedBytes(calls)) % Uint32Modulus
    decreases |calls|
  {
    if calls != [] {
      var c, tail := calls[0], calls[1..];
      var o := ProcessStep(s, c.macAddr, c.data, c.len);
      WellFormedTail(calls);
      StepTotals(s, c);
      RunCountsBytes(o.state, tail);
      assert Run(s, calls).0 == Run(o.state, tail).0;
      ModAddAssoc(s.totalBytes as int + AcceptedLen(c), AcceptedBytes(tail));
    }
  }

  /** While initialised, the sink receives exactly the decoded pairs of the
      calls that pass every check, in arrival order. */
  lemma {:induction false} RunForwards(s: ProcessorState, calls: seq<Call>)
    requires WellFormed(calls) && s.initialized
    ensures Run(s, calls).1 == Forwarded(calls)
    decreases |calls|
  {
    if calls != [] {
      var c, tail := calls[0], calls[1..];
      var o := ProcessStep(s, c.macAddr, c.data, c.len);
      WellFormedTail(calls);
      StepTotals(s, c);
      RunForwards(o.state, tail);
    }
  }

  /** `((a % m) + b) % m == (a + b) % m` for m = 2^32. */
  lemma ModAddAssoc(a: nat, b: nat)
    ensures (a % Uint32Modulus + b) % Uint32Modulus == (a + b) % Uint32Modulus
  {
  }

  /** Before init, or after deinit, no sequence of packets changes anything. */
  lemma {:induction false} RunUninitialised(s: ProcessorState, calls: seq<Call>)
    requires WellFormed(calls) && !s.initialized
    ensures Run(s, calls) == (s, [])
    decreases |calls|
  {
    if calls != [] {
      WellFormedTail(calls);
      RunUninitialised(s, calls[1..]);
    }
  }

  // ---------------------------------------------------------------------
  // The module statics and the functions over them

  class Processor {
    var isInitialized: bool
    var totalPackets: uint32
    var totalBytes: uint32

    /** The statics' initial values. */
    constructor ()
      ensures State() == PowerOn
    {
      isInitialized, totalPackets, totalBytes := false, 0, 0;
    }

    function State(): ProcessorState
      reads this
    {
      ProcessorState(isInitialized, totalPackets, totalBytes)
    }

    /** data_processor_init */
    method Init() returns (status: EspErr)
      modifies this
      ensures Transition(State(), status) == InitStep(old(State()))
    {
      if isInitialized {
        return EspOk;
      }
      totalPackets := 0;
      totalBytes := 0;
      isInitialized := true;
      return EspOk;
    }

    /** data_processor_deinit */
    method Deinit() returns (status: EspErr)
      modifies this
      ensures Transition(State(), status) == DeinitStep(old(State()))
    {
      if !isInitialized {
        return EspErrInvalidState;
      }
      isInitialized := false;
      return EspOk;
    }

    /** data_processor_process_espnow_data: the report sink is passed in. */
    method ProcessEspnowData(macAddr: Option<seq<byte>>, data: Option<seq<byte>>, len: int32, sink: ReportSink)
      returns (status: EspErr)
      requires BufferHolds(data, len)
      modifies this, sink
      ensures var o := ProcessStep(old(State()), macAddr, data, len);
        State() == o.state && status == o.status && sink.sent == old(sink.sent) + Reported(o)
    {
      if !isInitialized {
        return EspErrInvalidState;
      }
      if macAddr.None? || data.None? || len <= 0 {
        return EspErrInvalidArg;
      }
      totalPackets := WrapAdd32(totalPackets, 1);
      totalBytes := WrapAdd32(totalBytes, len as nat);
      if len < 4 {
        return EspErrInvalidSize;
      }
      var buf := data.value;
      var leftClutch := Le16(buf[0], buf[1]);
      var rightClutch := Le16(buf[2], buf[3]);
      leftClutch := Clamp12(leftClutch);
      rightClutch := Clamp12(rightClutch);
      var ret := sink.SendReport(leftClutch, rightClutch);
      // A failed send is only logged: the packet still counts as handled.
      return EspOk;
    }

    /** data_processor_get_stats: a NULL out-pointer (`false` here) is not written. */
    method GetStats(wantPackets: bool, wantBytes: bool) returns (packets: Option<uint32>, bytes: Option<uint32>)
      ensures packets.Some? <==> wantPackets
      ensures bytes.Some? <==> wantBytes
      ensures packets.Some? ==> packets.value == State().totalPackets
      ensures bytes.Some? ==> bytes.value == State().totalBytes
    {
      packets, bytes := None, None;
      if wantPackets {
        packets := Some(totalPackets);
      }
      if wantBytes {
        bytes := Some(totalBytes);
      }
    }
  }

  /** Client sessions driven through the class alone, using only the
      methods' contracts. First: what is rejected, and what is still counted. */
  method ExampleRejections() {
    var p := new Processor();
    var sink := new ReportSink();
    var mac: Option<seq<byte>> := Some([0x24, 0x6F, 0x28, 0x01, 0x02, 0x03]);

    var st := p.ProcessEspnowData(mac, Some([1, 0, 0, 0]), 4, sink);
    assert st == EspErrInvalidState && sink.sent == [];

    st := p.Init();
    st := p.ProcessEspnowData(mac, Some([1, 0, 0]), 3, sink);
    assert st == EspErrInvalidSize && p.totalPackets == 1 && p.totalBytes == 3 && sink.sent == [];

    st := p.ProcessEspnowData(None, Some([1, 0, 0, 0]), 4, sink);
    assert st == EspErrInvalidArg && p.totalPackets == 1 && sink.sent == [];
  }

  /** Forwarded pairs: an in-range reading passes, an out-of-range one is
      clamped, and trailing bytes are ignored. */
  method ExampleForwarding() {
    var p := new Processor();
    var sink := new ReportSink();
    var mac: Option<seq<byte>> := Some([0x24, 0x6F, 0x28, 0x01, 0x02, 0x03]);
    var st := p.Init();

    st := p.ProcessEspnowData(mac, Some([0x01, 0x00, 0xFF, 0x0F]), 4, sink);
    assert st == EspOk && sink.sent == [Report(1, 4095)];

    st := p.ProcessEspnowData(mac, Some([0xFF, 0xFF, 0x00, 0x10, 0x7F]), 5, sink);
    assert st == EspOk && sink.Last() == Some(Report(4095, 4095));
    assert p.totalPackets == 2 && p.totalBytes == 9;
  }

  /** Deinit stops processing but keeps the totals; only a new init clears them. */
  method ExampleLifecycle() {
    var p := new Processor();
    var sink := new ReportSink();
    var st := p.Init();
    st := p.ProcessEspnowData(Some([0]), Some([7]), 1, sink);
    st := p.Deinit();
    assert st == EspOk && p.State() == ProcessorState(false, 1, 1);

    st := p.ProcessEspnowData(Some([0]), Some([7]), 1, sink);
    assert st == EspErrInvalidState && p.totalPackets == 1;

    st := p.Deinit();
    assert st == EspErrInvalidState;
    st := p.Init();
    assert p.State() == ProcessorState(true, 0, 0);
    st := p.Init();
    assert st == EspOk && p.State() == ProcessorState(true, 0, 0);
  }
}
