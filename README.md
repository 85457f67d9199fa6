# ESP-NOW HID server: data processor model

This project models the packet-processing module of an ESP32 firmware. The firmware receives ESP-NOW packets from a clutch-paddle controller and turns them into USB HID gamepad reports. The module, `main/data_processor.c`, has four parts:

- **Module state.** A lifecycle flag `s_is_initialized` and two `uint32_t` counters, `s_total_packets` and `s_total_bytes`.
- **`data_processor_init` and `data_processor_deinit`.** These raise and lower the flag. Init zeroes the counters only when it starts from the uninitialised state.
- **`data_processor_process_espnow_data`.** It checks the lifecycle, then the arguments, then counts the packet, then checks the size. It then decodes bytes 0-3 as two little-endian 16-bit clutch readings and clamps each to 0..4095. Finally it hands the pair to the HID report sink. A sink failure is ignored, and the call still returns `ESP_OK`.
- **`data_processor_get_stats`.** It reads both counters.

Files:

- `types.dfy` (module `Types`): `uint8_t`, `uint16_t`, `uint32_t` and C `int` as newtypes; the (left, right) report pair; `uint32_t` addition with explicit wrap-around modulo 2^32; the `esp_err_t` codes used on these paths; `Option` for pointers that may be NULL.
- `packet.dfy` (module `Packet`): the payload decoder. It computes `(hi << 8) | lo` on bit-vectors, as the C code does, and proves that this equals `lo + 256 * hi`. It also holds the 12-bit clamp, the matching encoder the sending client uses, and the round-trip lemmas.
- `usb_comm.dfy` (module `UsbComm`): the report sink as a class. Each send records the pair it was given. Whether the send succeeds depends on the host link, which is not modelled, so the returned status is left unconstrained.
- `data_processor.dfy` (module `DataProcessor`):
  - The statics become the fields of class `Processor`.
  - Each method is proved against a pure step function on `ProcessorState` values: `InitStep`, `DeinitStep` or `ProcessStep`.
  - Lemmas state the module's rules about these step functions: error precedence, which paths change the counters, and what is forwarded.
  - `Run` folds `ProcessStep` over a sequence of received packets. Lemmas about it give the counter totals and the exact sequence of reports the sink receives.
  - Three small client methods drive the class through sessions using only the method contracts.

Facts about the code that shape the model:

- **No calibration.** The module has no calibration step. Decoded readings are only clamped to 0..4095 and then forwarded.
- **Argument check.** Besides a NULL sender address, the check also rejects a NULL `data` pointer and any `len <= 0`.
- **Counters wrap.** Both counters are `uint32_t` and wrap modulo 2^32; the model wraps them too.
- **Sink signature.** The call and its declaration (`main/include/usb_comm.h:48`) take two values, but the definition in `main/usb_comm.c:84` takes three. The sink is outside this model, which uses the two-argument declaration.

## Model

| member | source | states |
|---|---|---|
| Types.WrapAdd32 | main/data_processor.c:60-61 | uint32_t addition: equal to the exact sum when that is below 2^32, and always congruent to it modulo 2^32 |
| Packet.Le16 | main/data_processor.c:73-74 | `hi` shifted left by 8 and OR-ed with `lo`, computed on bits, has the value `lo + 256 * hi` |
| Packet.Le16Value | main/data_processor.c:73-74 | the bitwise shift-or of two bytes, read as an integer, is `lo + 256 * hi` |
| Packet.Clamp12 | main/data_processor.c:77-78 | the result is at most 4095 and at most the input; values up to 4095 pass unchanged; larger values become exactly 4095 |
| Packet.ClampIsNearest | main/data_processor.c:77-78 | every in-range value not above the input is at most the clamped value, so the clamp gives the largest such value |
| Packet.DecodeRaw | main/data_processor.c:72-74 | left is `data[0] + 256*data[1]`, right is `data[2] + 256*data[3]` |
| Packet.Decode | main/data_processor.c:72-78 | both forwarded values are at most 4095 |
| Packet.Encode | main/data_processor.c:63-65 | the little-endian wire image of a pair is exactly four bytes |
| Packet.DecodeRawEncode | main/data_processor.c:63-74 | decoding the four-byte wire image of any 16-bit pair, followed by any trailing bytes, gives the pair back |
| Packet.DecodeEncode | main/data_processor.c:63-78 | for pairs within 0..4095, decode-and-clamp inverts the encoder whatever trails the four bytes |
| Packet.EncodeDecodeRaw | main/data_processor.c:63-74 | re-encoding the decoded raw pair reproduces bytes 0-3 of the payload |
| Packet.DecodeIgnoresTail | main/data_processor.c:67-78 | two payloads that agree on bytes 0-3 decode to the same pair: bytes at index 4 and above never matter |
| UsbComm.ReportSink.SendReport | main/include/usb_comm.h:41-48 | the sink records exactly the pair it was given, which becomes its last report; the returned status is unconstrained |
| DataProcessor.InitStep | main/data_processor.c:17-30 | init always returns OK and leaves the module initialised; when already initialised it changes nothing, otherwise it zeroes both counters |
| DataProcessor.DeinitStep | main/data_processor.c:32-43 | deinit always leaves the module uninitialised and keeps both counters; it returns OK exactly when the module was initialised, else ESP_ERR_INVALID_STATE |
| DataProcessor.InitIdempotent | main/data_processor.c:19-22 | a second init has no further effect on state or return code |
| DataProcessor.ReinitResetsCounters | main/data_processor.c:17-43 | deinit only lowers the flag, keeping both counters, and the init after it zeroes them |
| DataProcessor.Count | main/data_processor.c:59-61 | counting a packet adds 1 to the packet counter and `len` to the byte counter, both modulo 2^32, and leaves the flag alone |
| DataProcessor.ProcessStep | main/data_processor.c:45-90 | a packet call never changes the lifecycle flag; a report is sent exactly when the call returns OK; any report sent is within 0..4095 on both channels |
| DataProcessor.ErrorPrecedence | main/data_processor.c:49-70 | the return code is INVALID_STATE iff uninitialised, INVALID_ARG iff initialised with a NULL pointer or `len <= 0`, INVALID_SIZE iff those pass and `len < 4`, OK iff all checks pass |
| DataProcessor.RejectedCallsChangeNothing | main/data_processor.c:49-61 | the state is left unchanged exactly when the call fails the lifecycle or argument check, and such a call sends nothing |
| DataProcessor.CountedBeforeSizeCheck | main/data_processor.c:59-70 | a call that passes the lifecycle and argument checks adds 1 packet and `len` bytes (mod 2^32); when `len < 4` it still counts, returns INVALID_SIZE and sends nothing |
| DataProcessor.ForwardedPair | main/data_processor.c:72-89 | with `len >= 4`, the call returns OK and forwards `min(d[0]+256*d[1], 4095)` and `min(d[2]+256*d[3], 4095)` |
| DataProcessor.ForwardIgnoresTail | main/data_processor.c:72-74 | two calls whose payloads agree on bytes 0-3 have the same outcome |
| DataProcessor.DeinitStopsProcessing | main/data_processor.c:39-52 | after deinit, any packet call returns INVALID_STATE, changes nothing and sends nothing |
| DataProcessor.Run | main/data_processor.c:45-90 | handling a sequence of packets never changes the lifecycle flag and sends at most one report per packet |
| DataProcessor.StepTotals | main/data_processor.c:59-81 | one call on an initialised module adds its accepted count and length to the counters and sends exactly the pair it forwards |
| DataProcessor.RunCountsPackets | main/data_processor.c:59-60 | while initialised, after any sequence of packets the packet counter equals its start plus the number of packets that passed the argument check, modulo 2^32 |
| DataProcessor.RunCountsBytes | main/data_processor.c:59-61 | while initialised, the byte counter equals its start plus the total `len` of the packets that passed the argument check, modulo 2^32 |
| DataProcessor.RunForwards | main/data_processor.c:67-81 | while initialised, the sink receives exactly the decoded pairs of the packets that pass every check, in arrival order |
| DataProcessor.RunUninitialised | main/data_processor.c:49-52 | before init or after deinit, no sequence of packets changes the state or sends a report |
| DataProcessor.Processor.constructor | main/data_processor.c:13-15 | the statics start uninitialised with both counters at zero |
| DataProcessor.Processor.Init | main/data_processor.c:17-30 | the new fields and return code are those of `InitStep` on the old fields |
| DataProcessor.Processor.Deinit | main/data_processor.c:32-43 | the new fields and return code are those of `DeinitStep` on the old fields |
| DataProcessor.Processor.ProcessEspnowData | main/data_processor.c:45-90 | the new fields and return code are those of `ProcessStep`; the sink's record grows by exactly the report `ProcessStep` sends, whatever status the sink returns |
| DataProcessor.Processor.GetStats | main/data_processor.c:92-101 | each requested counter is returned with its current value; a NULL out-pointer gets nothing; no state changes |

## Left out

- Logging: all `ESP_LOG*` calls are omitted. They have no effect on state or return codes.
- The sender MAC address: `process` only tests it for NULL and never reads its bytes, so the model treats it as an opaque optional value.
- Memory safety of `data`: callers must pass a buffer that holds at least `len` bytes, as the C contract requires. The model states this as a precondition, `BufferHolds`, and does not model reads past the buffer.
- UsbComm.ReportSink.SendReport: does not model how the status is chosen (USB mount state, `tud_hid_ready`). That logic is TinyUSB code in `main/usb_comm.c`, and the sink's three-argument definition there does not match the two-argument call.
- `main/usb_comm.c` (descriptors, mount callbacks, HID transmission) is not part of this model. It consists of foreign TinyUSB calls.
- `main/espnow_handler.c` (Wi-Fi, NVS and ESP-NOW bring-up, peer management, callback registration) is not part of this model. It is thin wrappers over ESP-IDF.
- `main/main.c` is not part of this model: system start-up, MAC printing, and the `status_task` that reads the counters from another FreeRTOS task. The unsynchronised cross-task read is a concurrency concern outside this sequential model.
- `data_processor_parse_simracing_data` and `data_processor_get_last_packet_info`, declared in `main/include/data_processor.h`, have no implementation, so there is nothing to model.
- The packed `espnow_simracing_data_t` layout and `DATA_PROCESSOR_BUFFER_SIZE` are never used by the processing code.
- Calibration (capture window, min/max ranges, linear rescale, calibrated flag) does not exist in the code. Readings are only clamped.
