# Modbus TCP client engine, modelled in Dafny

This project models the engine behind a Modbus TCP tool server (`modbus_tcp_mcp.py`). It covers five parts.

- **Register value codec** (`codec.dfy`, module `Codec`). It converts between a typed value (uint16, int16, uint32, int32, bool) and 16-bit register words. 32-bit types use big-endian word order, high word first. The model proves both round trips over each type's range, and that out-of-range integers wrap modulo 2^16 or 2^32.
- **Request rules** (`requests.dfy`, module `Requests`).
  - The bounds the input models check before a tool runs, including the 125-register and 2000-bit read limits of the Modbus Application Protocol Specification V1.1b3.
  - The function code each read uses (Read Coils, Read Discrete Inputs, Read Holding Registers, Read Input Registers).
  - The write each write tool issues, and how write values become register words.
- **Read-result segmentation** (`segmentation.dfy`, module `Segmentation`). This is the loop that turns raw bits or words into `{address, raw, decoded}` entries. It is an imperative method proved against a quantified specification. A lemma shows that words written with Write Multiple Registers and read back decode to the values written.
- **Connection pool** (`pool.dfy`, module `Pool`). A class holds the map from `host:port` keys to clients.
  - Acquire reuses a connected client, drops a dead one, and registers a new client only when its handshake succeeds.
  - Disconnect removes the entry.
  - The model proves the key is unique per (host, port), even for hosts that contain colons.
- **Protocol adapter and diagnostics** (`protocol.dfy`, `diagnostics.dfy`).
  - The read and write tools as methods: validation, then the pool, then the request, then the reply.
  - The diagnostics test sequence.

The device is abstract. Whether a handshake succeeds, and what the device replies, are parameters. Each tool method returns the request it put on the wire (`sent`), so "no network call" is stated as `sent == None` with the pool left unchanged. The shared pool is an object that callers hold, not a global.

Behaviour of the code worth knowing:

- `modbus_write_multiple_registers` always sends Write Multiple Coils (function code 15) or Write Multiple Registers (function code 16), even for one value or one word (modbus_tcp_mcp.py:530-535). Only `modbus_write_register` picks Write Single Register (function code 6) when the encoding is one word.
- No check ensures that the registers a request touches stay within 0..65535. A read checks only `start_address` and `count`. A write checks only the address, whatever the type's width: an int32 or uint32 written at 65535 is accepted and covers registers 65535 and 65536 (`Requests.SingleWriteOverrunExample`).
- The 123 limit applies to the number of logical values, not to the number of words sent. A valid request of 123 32-bit values sends 246 words (`Requests.MultipleWriteWordCountExample`).

## Model

| member | source | states |
|---|---|---|
| Codec.Encode | modbus_tcp_mcp.py:309-330 | one word for 16-bit types and bool, two words for 32-bit types; bool encodes as 1 or 0 |
| Codec.Decode | modbus_tcp_mcp.py:286-306 | a decoded integer lies in its type's range (threshold 2^15 / 2^31 for signed types); bool is "word is nonzero"; float32 yields its 32-bit pattern |
| Codec.EncodeWraps | modbus_tcp_mcp.py:313-323 | for any integer, decode(encode(n)) is the number of the type's range congruent to n modulo 2^16 (or 2^32) |
| Codec.DecodeEncode | modbus_tcp_mcp.py:286-330 | decode(encode(v)) == v for every value the type can carry; for bool it gives bool(v) |
| Codec.EncodeDecode | modbus_tcp_mcp.py:286-330 | encode(decode(ws)) == ws for every word pattern of a numeric type, and for bool words 0 and 1 |
| Codec.SpanIsDecodeWidth | modbus_tcp_mcp.py:424 | `regs_needed` is the decoder's width: decoding reads only the first span words, and the second word of a 32-bit type changes the result |
| Codec.CodecExamples | modbus_tcp_mcp.py:290-299 | encode(-1, int16) == [0xFFFF], decode([0xFFFF], int16) == -1, decode([1, 2], uint32) == 65538 |
| Requests.ValidateRead | modbus_tcp_mcp.py:114-143 | a read is accepted iff 0 <= start_address <= 65535 and 1 <= count <= the protocol limit of its space (125 registers, 2000 bits); a holding/input count of 126..2000 fails with the register-count error |
| Requests.ReadCall | modbus_tcp_mcp.py:394-401 | the read carries the request's address and count; its function code is 1..4, a bit read (1, 2) exactly for coils and discrete inputs, and even (2, 4) exactly for the read-only spaces |
| Requests.SingleWriteCall | modbus_tcp_mcp.py:475-483 | coils get Write Single Coil with bool(value); holding registers get the value's encoding, with Write Single Register exactly when the type spans one word |
| Requests.EncodeAll | modbus_tcp_mcp.py:534 | the concatenated encoding of n values has n * span words (`BlockStart(n, span)`, which `Codec.SpanTimes` equates with the product) |
| Requests.EncodeAllChunk | modbus_tcp_mcp.py:534 | the k-th value's encoding sits at words k * span .. k * span + span of the concatenation |
| Requests.MultipleWriteCall | modbus_tcp_mcp.py:530-535 | coils get Write Multiple Coils with bool(v) of each value in order; holding registers get Write Multiple Registers whose k-th chunk is the k-th value's encoding |
| Requests.MultipleWriteWordCountExample | modbus_tcp_mcp.py:191-196 | a valid multiple write of 123 uint32 values carries 246 words |
| Requests.AcceptedSingleWrite | modbus_tcp_mcp.py:154-159 | an address the input model accepts (0..65535) yields a holding-register write at that address carrying span words; its last register stays within 0..65535 exactly for one-word types or addresses below 65535 |
| Requests.SingleWriteOverrunExample | modbus_tcp_mcp.py:154-159 | a uint32 written at 65535 is accepted and sent as Write Multiple Registers covering registers 65535 and 65536 |
| Requests.AcceptedMultipleWrite | modbus_tcp_mcp.py:185-196 | a multiple write the input model accepts (start 0..65535, 1..123 values) yields a holding-register write at that start with \|values\| * span words, between 1 and 123 * span; the words stay within 123 exactly for one-word types or at most 61 values |
| Segmentation.TakeBits | modbus_tcp_mcp.py:410 | `bits[:count]` keeps the first min(count, len) bits, each as word 1 or 0, for every count that is not negative |
| Segmentation.Segment | modbus_tcp_mcp.py:412-434 | bit spaces give one entry per bit at start + k, decoded as the bit; register spaces give floor(len / span) entries at start + k * span, each holding and decoding the k-th whole chunk, with a trailing partial chunk dropped |
| Segmentation.BitReadEntries | modbus_tcp_mcp.py:410-422 | a coil/discrete read yields min(count, len(bits)) entries, the k-th at start + k holding bits[k], whatever the data type |
| Segmentation.WriteThenRead | modbus_tcp_mcp.py:424-434 | segmenting the words of a multiple write gives one entry per value, at start + k * span, decoding to the value written |
| Segmentation.CoilReadExample | modbus_tcp_mcp.py:415-422 | eight alternating coil bits read from 0 give eight entries at 0..7 holding those bits |
| Pool.IntToDecimal | modbus_tcp_mcp.py:243 | the decimal form of the port contains no colon |
| Pool.KeyLastColon | modbus_tcp_mcp.py:241-243 | in the key `host:port` the colon written after the host is the key's last colon, since the port's decimal form has none |
| Pool.KeyInjective | modbus_tcp_mcp.py:241-243 | equal keys come from equal (host, port) pairs |
| Pool.ConnectionPool.EntryMatchesEndpoint | modbus_tcp_mcp.py:248-253 | the client found under an endpoint's key was created for that endpoint |
| Pool.ConnectionPool.constructor | modbus_tcp_mcp.py:35 | the pool starts empty |
| Pool.Client.constructor | modbus_tcp_mcp.py:259-263 | a new client records its host, port and timeout and is not connected |
| Pool.Client.Connect | modbus_tcp_mcp.py:265-268 | after the handshake the client is connected exactly when the handshake succeeded |
| Pool.Client.Close | modbus_tcp_mcp.py:682-683 | a closed client is not connected |
| Pool.ConnectionPool.Acquire | modbus_tcp_mcp.py:246-272 | a connected entry is returned unchanged with no handshake; otherwise one handshake is attempted, the dead entry is dropped, and the new client is registered iff the handshake succeeds (else null and no entry for the key); the pool invariant is kept |
| Pool.ConnectionPool.Disconnect | modbus_tcp_mcp.py:675-685 | the key's entry is removed and its client is left closed; reports whether there was one; otherwise nothing changes |
| Pool.AcquireTwice | modbus_tcp_mcp.py:246-253 | the first acquisition returns a client iff the endpoint was live or its handshake succeeds; then the next returns the same client, and the two together log no handshake for a live endpoint and exactly one otherwise |
| Pool.ReconnectAfterDisconnect | modbus_tcp_mcp.py:675-685 | after a disconnect, the next acquisition performs a fresh handshake and, on failure, leaves no entry |
| Protocol.RawValues | modbus_tcp_mcp.py:410 | a register reply gives its registers unchanged; a bit reply gives its first min(count, len) bits as words 1 and 0 |
| Protocol.WriteOutcome | modbus_tcp_mcp.py:485-488 | a write succeeds, echoing its request, exactly when the device acknowledges it; an exception response reports its code, any other error reply a device error, a raised failure that failure |
| Protocol.Read | modbus_tcp_mcp.py:386-451 | invalid reads fail with the pool unchanged; otherwise the pool changes exactly as one acquisition does (no change for a live endpoint; else one handshake, and the key then maps to the new connected client or to nothing); a failed connection sends nothing; otherwise the space's read is sent, exception and error replies are reported, and data replies give the segmentation of `bits[:count]` or the registers |
| Protocol.WriteSingle | modbus_tcp_mcp.py:464-506 | invalid addresses and read-only spaces fail with the pool unchanged; otherwise the pool changes exactly as one acquisition does; a failed connection sends nothing; otherwise the single-write request is sent and the reply decides the result |
| Protocol.WriteMultiple | modbus_tcp_mcp.py:519-560 | as WriteSingle, sending the multiple-write request with all values in order |
| Protocol.WriteThenReadBack | modbus_tcp_mcp.py:519-535 | against a device that accepts both requests, the write succeeds iff the start is in 0..65535 and there are 1..123 values, and the read-back succeeds iff moreover the words fit in one 125-register read; then the values read back decode to the values written, at start + k * span |
| Diagnostics.TestReadResult | modbus_tcp_mcp.py:638-651 | PASS with the first register iff the reply has registers, PARTIAL with the code iff it is an exception response, FAIL otherwise; a result is named "Test Read (Address 0)" when a response came back (exception, error or PASS) and "Test Read" when the read raised |
| Diagnostics.Run | modbus_tcp_mcp.py:619-651 | the pool changes exactly as one acquisition does; a failed connection gives exactly one FAIL "Connection Test" and no read; otherwise a PASS connection test, followed, when asked for, by the test read of holding register 0 |

## Left out

- Codec.Encode: float32 is not encoded, because IEEE-754 single-precision packing through `struct` is out of scope. The function requires a non-float type.
- Protocol.WriteSingle: a holding-register write of a float32 value is excluded by its precondition, for the same reason.
- Protocol.WriteMultiple: a holding-register write of float32 values is excluded by its precondition, for the same reason.
- Codec.Decode: a float32 is returned as its 32-bit big-endian pattern. Reading that pattern as an IEEE-754 float is not modelled.
- Segmentation.TakeBits: a negative count, which in Python drops bits from the end, is excluded by the precondition. Every count that reaches it has passed the 1..2000 check.
- Float write values: `int(value)` of a Python float (truncation toward zero) is not modelled. Values are Python ints or bools.
- pymodbus is not modelled: the client's handshake, the read and write calls, `isError` and `ExceptionResponse`. Their outcomes are parameters.
- The unit id (`slave=`) sent with every request is not part of the modelled requests. The pool key never includes it.
- async/await and interleaving: every call is sequential.
- A live transport dropping on its own is outside the model. Only `Close` makes a registered client not connected. `Acquire` still handles a dead entry for any state it is given.
- Timing and latency in diagnostics, and the latency and detail strings of each test.
- Result rendering is not modelled: markdown and JSON output, `_handle_modbus_error`'s messages, and the success messages of the tools.
- `modbus_connect`: its probe read only chooses a status message. Its pool behaviour is `Acquire` with the given timeout.
- `modbus_device_info`: the library performs the identification read and decodes the bytes.
- Pydantic string, port, unit id and timeout constraints are library-enforced and not modelled. The address and count bounds are modelled.
- The `else` branches for an unknown register or data type cannot be reached with the enumerations.
- `examples.py` and `test_installation.py`: example strings, and environment checks done through I/O.
