/**
 * The protocol adapter: the bodies of `modbus_read_registers`, `modbus_write_register`
 * and `modbus_write_multiple_registers` (modbus_tcp_mcp.py) with their input
 * validation, the pool, the request they issue and the classification of the reply.
 * The device is abstract: whether the handshake succeeds and what the device
 * replies are parameters.
 */
module Protocol {
  import opened Results
  import opened Codec
  import opened Requests
  import opened Segmentation
  import opened Pool

  /** An exception the client library raises while a request is in flight. */
  datatype Failure = Timeout | TransportFailure | ModbusFailure | OtherFailure

  /** What a read request comes back with. */
  datatype ReadReply =
    | Registers(words: seq<Word>)     // a register response (`result.registers`)
    | Bits(bits: seq<bool>)           // a bit response (`result.bits`)
    | ReadException(code: int)        // an `ExceptionResponse`
    | ReadError                       // any other response with `isError()`
    | ReadRaised(failure: Failure)

  /** What a write request comes back with. */
  datatype WriteReply =
    | WriteAck
    | WriteException(code: int)
    | WriteError
    | WriteRaised(failure: Failure)

  /** Why an operation did not complete. */
  datatype Error =
    | Invalid(reason: ValidationError)
    | ReadOnlySpace(space: RegisterSpace)
    | ConnectionFailed
    | DeviceException(code: int)
    | DeviceError
    | Raised(failure: Failure)

  /**
   * The raw values a data reply carries: `result.bits[:count]` for a bit response,
   * as words 1 and 0; `result.registers` for a register response.
   */
  function RawValues(reply: ReadReply, count: int): (ws: seq<Word>)
    requires reply.Registers? || reply.Bits?
    requires count >= 0
    ensures reply.Registers? ==> ws == reply.words
    ensures reply.Bits? ==>
      && |ws| == (if count < |reply.bits| then count else |reply.bits|)
      && forall k :: 0 <= k < |ws| ==> ws[k] == BitWord(reply.bits[k])
  {
    if reply.Bits? then TakeBits(reply.bits, count) else reply.words
  }

  /** The result of a write once its reply is in: the request echoed, or the reason it failed. */
  function WriteOutcome(call: Call, reply: WriteReply): (r: Result<Call, Error>)
    ensures r.Ok? <==> reply.WriteAck?
    ensures r.Ok? ==> r.value == call
    ensures reply.WriteException? ==> r == Err(DeviceException(reply.code))
    ensures reply.WriteError? ==> r == Err(DeviceError)
    ensures reply.WriteRaised? ==> r == Err(Raised(reply.failure))
  {
    match reply
    case WriteAck => Ok(call)
    case WriteException(code) => Err(DeviceException(code))
    case WriteError => Err(DeviceError)
    case WriteRaised(f) => Err(Raised(f))
  }

  /**
   * `modbus_read_registers`. An invalid request is rejected before the pool is
   * touched; a failed connection sends nothing; otherwise the read for the space
   * goes out, an exception or error reply is reported as such, and data is
   * segmented into entries.
   */
  method Read(pool: ConnectionPool, host: string, port: int, space: RegisterSpace, start: int,
               count: int, dataType: DataType, handshakeSucceeds: bool, reply: ReadReply)
    returns (sent: Option<Call>, r: Result<seq<Entry>, Error>)
    requires pool.Valid()
    modifies pool
    ensures pool.Valid()
    ensures var v := ValidateRead(space, start, count, dataType);
      v.Err? ==>
        && r == Err(Invalid(v.error)) && sent == None
        && pool.entries == old(pool.entries) && pool.Handshakes == old(pool.Handshakes)
    ensures ValidateRead(space, start, count, dataType).Ok? ==>
      pool.Acquired(host, port, DefaultTimeout, handshakeSucceeds, old(pool.Live(host, port)), old(pool.entries), old(pool.Handshakes))
    ensures var v := ValidateRead(space, start, count, dataType);
      v.Ok? && !old(pool.Live(host, port)) && !handshakeSucceeds ==> r == Err(ConnectionFailed) && sent == None
    ensures var v := ValidateRead(space, start, count, dataType);
      v.Ok? && (old(pool.Live(host, port)) || handshakeSucceeds) ==>
        && sent == Some(ReadCall(v.value))
        && (reply.ReadException? ==> r == Err(DeviceException(reply.code)))
        && (reply.ReadError? ==> r == Err(DeviceError))
        && (reply.ReadRaised? ==> r == Err(Raised(reply.failure)))
        && (reply.Registers? || reply.Bits? ==>
              r.Ok? && IsSegmentation(space, dataType, start, RawValues(reply, count), r.value))
  {
    var v := ValidateRead(space, start, count, dataType);
    if v.Err? {
      return None, Err(Invalid(v.error));
    }
    var client := pool.Acquire(host, port, DefaultTimeout, handshakeSucceeds);
    if client == null {
      return None, Err(ConnectionFailed);
    }
    sent := Some(ReadCall(v.value));
    match reply
    case ReadException(code) =>
      r := Err(DeviceException(code));
    case ReadError =>
      r := Err(DeviceError);
    case ReadRaised(f) =>
      r := Err(Raised(f));
    case Registers(_) =>
      var entries := Segment(space, dataType, start, RawValues(reply, count));
      r := Ok(entries);
    case Bits(_) =>
      var entries := Segment(space, dataType, start, RawValues(reply, count));
      r := Ok(entries);
  }

  /**
   * `modbus_write_register`. An invalid address or a read-only space is rejected
   * before the pool is touched; a failed connection sends nothing; otherwise the
   * single write for the space and value goes out and its reply decides the result.
   */
  method WriteSingle(pool: ConnectionPool, host: string, port: int, space: RegisterSpace, address: int,
                      value: Value, dataType: DataType, handshakeSucceeds: bool, reply: WriteReply)
    returns (sent: Option<Call>, r: Result<Call, Error>)
    requires pool.Valid()
    requires space == Holding ==> dataType != Float32
    modifies pool
    ensures pool.Valid()
    ensures ValidateWriteSingle(address).Some? ==>
      && r == Err(Invalid(ValidateWriteSingle(address).value)) && sent == None
      && pool.entries == old(pool.entries) && pool.Handshakes == old(pool.Handshakes)
    ensures ValidateWriteSingle(address).None? && IsReadOnly(space) ==>
      && r == Err(ReadOnlySpace(space)) && sent == None
      && pool.entries == old(pool.entries) && pool.Handshakes == old(pool.Handshakes)
    ensures ValidateWriteSingle(address).None? && !IsReadOnly(space) ==>
      pool.Acquired(host, port, DefaultTimeout, handshakeSucceeds, old(pool.Live(host, port)), old(pool.entries), old(pool.Handshakes))
    ensures (ValidateWriteSingle(address).None? && !IsReadOnly(space)
      && !old(pool.Live(host, port)) && !handshakeSucceeds) ==> r == Err(ConnectionFailed) && sent == None
    ensures (ValidateWriteSingle(address).None? && !IsReadOnly(space)
      && (old(pool.Live(host, port)) || handshakeSucceeds)) ==>
        && sent == Some(SingleWriteCall(space, address, value, dataType))
        && r == WriteOutcome(sent.value, reply)
  {
    var invalid := ValidateWriteSingle(address);
    if invalid.Some? {
      return None, Err(Invalid(invalid.value));
    }
    if IsReadOnly(space) {
      return None, Err(ReadOnlySpace(space));
    }
    var client := pool.Acquire(host, port, DefaultTimeout, handshakeSucceeds);
    if client == null {
      return None, Err(ConnectionFailed);
    }
    var call := SingleWriteCall(space, address, value, dataType);
    sent := Some(call);
    r := WriteOutcome(call, reply);
  }

  /**
   * `modbus_write_multiple_registers`: as `WriteSingle`, with the multiple write
   * for the space carrying every value in order.
   */
  method WriteMultiple(pool: ConnectionPool, host: string, port: int, space: RegisterSpace,
                        start: int, values: seq<Value>, dataType: DataType,
                        handshakeSucceeds: bool, reply: WriteReply)
    returns (sent: Option<Call>, r: Result<Call, Error>)
    requires pool.Valid()
    requires space == Holding ==> dataType != Float32
    modifies pool
    ensures pool.Valid()
    ensures ValidateWriteMultiple(start, values).Some? ==>
      && r == Err(Invalid(ValidateWriteMultiple(start, values).value)) && sent == None
      && pool.entries == old(pool.entries) && pool.Handshakes == old(pool.Handshakes)
    ensures ValidateWriteMultiple(start, values).None? && IsReadOnly(space) ==>
      && r == Err(ReadOnlySpace(space)) && sent == None
      && pool.entries == old(pool.entries) && pool.Handshakes == old(pool.Handshakes)
    ensures ValidateWriteMultiple(start, values).None? && !IsReadOnly(space) ==>
      pool.Acquired(host, port, DefaultTimeout, handshakeSucceeds, old(pool.Live(host, port)), old(pool.entries), old(pool.Handshakes))
    ensures (ValidateWriteMultiple(start, values).None? && !IsReadOnly(space)
      && !old(pool.Live(host, port)) && !handshakeSucceeds) ==> r == Err(ConnectionFailed) && sent == None
    ensures (ValidateWriteMultiple(start, values).None? && !IsReadOnly(space)
      && (old(pool.Live(host, port)) || handshakeSucceeds)) ==>
        && sent == Some(MultipleWriteCall(space, start, values, dataType))
        && r == WriteOutcome(sent.value, reply)
  {
    var invalid := ValidateWriteMultiple(start, values);
    if invalid.Some? {
      return None, Err(Invalid(invalid.value));
    }
    if IsReadOnly(space) {
      return None, Err(ReadOnlySpace(space));
    }
    var client := pool.Acquire(host, port, DefaultTimeout, handshakeSucceeds);
    if client == null {
      return None, Err(ConnectionFailed);
    }
    var call := MultipleWriteCall(space, start, values, dataType);
    sent := Some(call);
    r := WriteOutcome(call, reply);
  }

  /**
   * Values written with the multiple write and read back from the same holding
   * registers decode to the values written, at addresses `start + k * span`.
   */
  method WriteThenReadBack(pool: ConnectionPool, host: string, port: int, start: int, values: seq<Value>,
                           dataType: DataType)
    returns (written: Result<Call, Error>, read: Result<seq<Entry>, Error>)
    requires pool.Valid()
    requires dataType != Float32
    requires forall k :: 0 <= k < |values| ==> Representable(values[k], dataType)
    modifies pool
    ensures pool.Valid()
    ensures written.Ok? <==> 0 <= start <= 0xFFFF && 1 <= |values| <= 123
    ensures read.Ok? <==> written.Ok? && |values| * Span(dataType) <= 125
    ensures written.Ok? && read.Ok? ==>
      && |read.value| == |values|
      && forall k :: 0 <= k < |values| ==>
           read.value[k].address == start + k * Span(dataType) && read.value[k].decoded == Meaning(values[k], dataType)
  {
    var sent;
    sent, written := WriteMultiple(pool, host, port, Holding, start, values, dataType, true, WriteAck);
    if written.Err? {
      return written, Err(written.error);
    }
    var words := EncodeAll(values, dataType);
    var count := |words|;
    sent, read := Read(pool, host, port, Holding, start, count, dataType, true, Registers(words));
    if read.Ok? {
      WriteThenRead(dataType, start, values, read.value);
    }
  }
}
