/**
 * Request rules: the register spaces, the bounds the input models enforce before a
 * tool runs, the Modbus request each tool puts on the wire, and how write values
 * become register words (modbus_tcp_mcp.py).
 */
module Requests {
  import opened Results
  import opened Codec

  /** The four addressable spaces of a Modbus device. */
  datatype RegisterSpace = Holding | Input | Coil | Discrete

  /** Coils and discrete inputs hold single bits; the other two hold 16-bit words. */
  predicate IsBitSpace(s: RegisterSpace) {
    s == Coil || s == Discrete
  }

  /** Input registers and discrete inputs cannot be written. */
  predicate IsReadOnly(s: RegisterSpace) {
    s == Input || s == Discrete
  }

  const MaxAddress: int := 65535
  /** `count` bounds of `ReadRegistersInput` (ge=1, le=2000). */
  const MaxReadCount: int := 2000
  /** The extra bound of `validate_count` for holding and input registers. */
  const MaxRegisterReadCount: int := 125
  /** `values` length bound of `WriteMultipleRegistersInput` (max_length=123). */
  const MaxWriteValues: int := 123

  /**
   * The largest quantity one read may request under the Modbus Application Protocol
   * Specification V1.1b3: 2000 bits for Read Coils and Read Discrete Inputs
   * (sections 6.1 and 6.2), 125 registers for Read Holding Registers and Read Input
   * Registers (sections 6.3 and 6.4).
   */
  function ProtocolReadLimit(s: RegisterSpace): nat {
    if IsBitSpace(s) then 0x7D0 else 0x7D
  }

  /** Why an input model rejected a request. */
  datatype ValidationError =
    | AddressOutOfRange     // start_address / address outside 0..65535
    | CountOutOfRange       // count outside 1..2000
    | RegisterCountTooLarge // count above 125 for holding/input registers
    | ValueCountOutOfRange  // values list empty or longer than 123

  datatype ReadRequest = ReadRequest(space: RegisterSpace, start: int, count: int, dataType: DataType)

  /**
   * The checks `ReadRegistersInput` makes, in the order the field constraints and
   * then `validate_count` apply them. A request passes exactly when its start
   * address is a 16-bit address and its count lies within the protocol's limit
   * for the space read.
   */
  function ValidateRead(space: RegisterSpace, start: int, count: int, dataType: DataType)
    : (r: Result<ReadRequest, ValidationError>)
    ensures r.Ok? <==> 0 <= start <= 0xFFFF && 1 <= count <= ProtocolReadLimit(space)
    ensures r.Ok? ==> r.value == ReadRequest(space, start, count, dataType)
    ensures (r.Err? && !IsBitSpace(space) && 0 <= start <= 0xFFFF && 1 <= count <= MaxReadCount)
      ==> r.error == RegisterCountTooLarge
  {
    if !(0 <= start <= MaxAddress) then Err(AddressOutOfRange)
    else if !(1 <= count <= MaxReadCount) then Err(CountOutOfRange)
    else if (space == Holding || space == Input) && count > MaxRegisterReadCount then Err(RegisterCountTooLarge)
    else Ok(ReadRequest(space, start, count, dataType))
  }

  /** The address check of `WriteRegisterInput`; `None` when the address is valid. */
  function ValidateWriteSingle(address: int): (r: Option<ValidationError>)
    ensures r.None? <==> 0 <= address <= 0xFFFF
  {
    if 0 <= address <= MaxAddress then None else Some(AddressOutOfRange)
  }

  /** The checks of `WriteMultipleRegistersInput`; `None` when the request is valid. */
  function ValidateWriteMultiple(start: int, values: seq<Value>): (r: Option<ValidationError>)
    ensures r.None? <==> 0 <= start <= 0xFFFF && 1 <= |values| <= 123
  {
    if !(0 <= start <= MaxAddress) then Some(AddressOutOfRange)
    else if !(1 <= |values| <= MaxWriteValues) then Some(ValueCountOutOfRange)
    else None
  }

  /** A Modbus request as it goes on the wire, one constructor per function code used. */
  datatype Call =
    | ReadCoils(address: int, count: int)
    | ReadDiscreteInputs(address: int, count: int)
    | ReadHoldingRegisters(address: int, count: int)
    | ReadInputRegisters(address: int, count: int)
    | WriteSingleCoil(address: int, on: bool)
    | WriteSingleRegister(address: int, word: Word)
    | WriteMultipleCoils(address: int, bits: seq<bool>)
    | WriteMultipleRegisters(address: int, words: seq<Word>)
  {
    function FunctionCode(): nat {
      match this
      case ReadCoils(_, _) => 1
      case ReadDiscreteInputs(_, _) => 2
      case ReadHoldingRegisters(_, _) => 3
      case ReadInputRegisters(_, _) => 4
      case WriteSingleCoil(_, _) => 5
      case WriteSingleRegister(_, _) => 6
      case WriteMultipleCoils(_, _) => 15
      case WriteMultipleRegisters(_, _) => 16
    }

    /** The register words a register write carries. */
    function RegisterWords(): seq<Word>
      requires WriteSingleRegister? || WriteMultipleRegisters?
    {
      if WriteSingleRegister? then [word] else words
    }
  }

  /**
   * The read `modbus_read_registers` issues for a request. Its function code reads
   * bits (1 or 2) exactly for the bit spaces, and is even (2 or 4) exactly for the
   * read-only spaces; these two facts fix the code for each space.
   */
  function ReadCall(req: ReadRequest): (c: Call)
    ensures 1 <= c.FunctionCode() <= 4
    ensures c.address == req.start && c.count == req.count
    ensures c.FunctionCode() <= 2 <==> IsBitSpace(req.space)
    ensures c.FunctionCode() % 2 == 0 <==> IsReadOnly(req.space)
  {
    match req.space
    case Holding => ReadHoldingRegisters(req.start, req.count)
    case Input => ReadInputRegisters(req.start, req.count)
    case Coil => ReadCoils(req.start, req.count)
    case Discrete => ReadDiscreteInputs(req.start, req.count)
  }

  /**
   * The write `modbus_write_register` issues once the space is known to be writable:
   * Write Single Coil with `bool(value)` for a coil; for a holding register the
   * value's encoding, sent with Write Single Register exactly when it is one word
   * and with Write Multiple Registers otherwise.
   */
  function SingleWriteCall(space: RegisterSpace, address: int, v: Value, dataType: DataType): (c: Call)
    requires !IsReadOnly(space)
    requires space == Holding ==> dataType != Float32
    ensures space == Coil ==> c == WriteSingleCoil(address, Truthy(v))
    ensures space == Holding ==>
      && (c.WriteSingleRegister? || c.WriteMultipleRegisters?)
      && c.address == address
      && c.RegisterWords() == Encode(v, dataType)
      && (c.FunctionCode() == 6 <==> Span(dataType) == 1)
  {
    if space == Coil then WriteSingleCoil(address, Truthy(v))
    else
      var ws := Encode(v, dataType);
      if |ws| == 1 then WriteSingleRegister(address, ws[0]) else WriteMultipleRegisters(address, ws)
  }

  /** The register words of a list of values: every value's encoding, concatenated in order. */
  function EncodeAll(values: seq<Value>, dataType: DataType): (ws: seq<Word>)
    requires dataType != Float32
    ensures |ws| == BlockStart(|values|, Span(dataType))
  {
    if values == [] then [] else Encode(values[0], dataType) + EncodeAll(values[1..], dataType)
  }

  /** The k-th value's words sit at offset k * span of the concatenation. */
  lemma {:induction false} EncodeAllChunk(values: seq<Value>, dataType: DataType, k: nat)
    requires dataType != Float32 && k < |values|
    ensures var s := Span(dataType);
      EncodeAll(values, dataType)[BlockStart(k, s) .. BlockStart(k, s) + s] == Encode(values[k], dataType)
  {
    if k > 0 {
      EncodeAllChunk(values[1..], dataType, k - 1);
      ChunkStep(values, dataType, k);
    } else {
      var head := Encode(values[0], dataType);
      assert EncodeAll(values, dataType) == head + EncodeAll(values[1..], dataType);
      assert (head + EncodeAll(values[1..], dataType))[0 .. Span(dataType)] == head;
    }
  }

  /** One step of `EncodeAllChunk`: a value's words found in the tail are one chunk further in the whole. */
  lemma ChunkStep(values: seq<Value>, dataType: DataType, k: nat)
    requires dataType != Float32 && 0 < k < |values|
    requires var s := Span(dataType);
      EncodeAll(values[1..], dataType)[BlockStart(k - 1, s) .. BlockStart(k - 1, s) + s]
        == Encode(values[1..][k - 1], dataType)
    ensures var s := Span(dataType);
      EncodeAll(values, dataType)[BlockStart(k, s) .. BlockStart(k, s) + s] == Encode(values[k], dataType)
  {
    var s := Span(dataType);
    var head := Encode(values[0], dataType);
    var rest := EncodeAll(values[1..], dataType);
    var o := BlockStart(k - 1, s);
    assert EncodeAll(values, dataType) == head + rest;
    assert |head| == s && BlockStart(k, s) == o + s;
    SliceAfterHead(head, rest, o);
  }

  /** Past a prefix, a slice of the concatenation is a slice of the rest. */
  lemma SliceAfterHead<T>(head: seq<T>, rest: seq<T>, o: nat)
    requires o + |head| <= |rest|
    ensures (head + rest)[o + |head| .. o + |head| + |head|] == rest[o .. o + |head|]
  {
  }

  /**
   * The write `modbus_write_multiple_registers` issues once the space is known to
   * be writable: Write Multiple Coils with `bool(v)` of every value for coils, Write
   * Multiple Registers with every value's encoding in order for holding registers
   * (also when there is only one word).
   */
  function MultipleWriteCall(space: RegisterSpace, start: int, values: seq<Value>, dataType: DataType): (c: Call)
    requires !IsReadOnly(space)
    requires space == Holding ==> dataType != Float32
    ensures c.address == start
    ensures space == Coil ==>
      && c.WriteMultipleCoils?
      && |c.bits| == |values|
      && forall k :: 0 <= k < |values| ==> c.bits[k] == Truthy(values[k])
    ensures space == Holding ==>
      && c.WriteMultipleRegisters?
      && |c.words| == BlockStart(|values|, Span(dataType))
      && forall k: nat :: k < |values| ==>
           c.words[BlockStart(k, Span(dataType)) .. BlockStart(k, Span(dataType)) + Span(dataType)]
             == Encode(values[k], dataType)
  {
    if space == Coil then
      WriteMultipleCoils(start, seq(|values|, k requires 0 <= k < |values| => Truthy(values[k])))
    else
      var c := WriteMultipleRegisters(start, EncodeAll(values, dataType));
      assert forall k: nat :: k < |values| ==>
           c.words[BlockStart(k, Span(dataType)) .. BlockStart(k, Span(dataType)) + Span(dataType)]
             == Encode(values[k], dataType) by {
        forall k: nat | k < |values| {
          EncodeAllChunk(values, dataType, k);
        }
      }
      c
  }

  /**
   * The input models bound the number of values, not the number of words: a valid
   * request of 123 32-bit values puts 246 words into one Write Multiple Registers,
   * above the 123 that section 6.12 of the protocol specification allows.
   */
  lemma MultipleWriteWordCountExample()
    ensures var values := seq(123, k => IntVal(k));
      && ValidateWriteMultiple(0, values).None?
      && |MultipleWriteCall(Holding, 0, values, UInt32).words| == 246
  {
  }

  /**
   * What an accepted multiple write puts on the wire for holding registers: a start
   * address in range and `|values| * span` words, which stays within the 123 values
   * the input model counts only for one-word types or at most 61 two-word values.
   */
  lemma AcceptedMultipleWrite(start: int, values: seq<Value>, dataType: DataType)
    requires dataType != Float32
    requires ValidateWriteMultiple(start, values).None?
    ensures var c := MultipleWriteCall(Holding, start, values, dataType);
      && 0 <= c.address <= MaxAddress
      && |c.words| == |values| * Span(dataType)
      && 1 <= |c.words| <= MaxWriteValues * Span(dataType)
      && (|c.words| <= MaxWriteValues <==> Span(dataType) == 1 || |values| <= 61)
  {
    SpanTimes(|values|, dataType);
  }

  /**
   * What an accepted single write puts on the wire for a holding register: the
   * address and the value's `span` words. The last register written stays a 16-bit
   * address unless a 32-bit value is written at 65535; the address check does not
   * look at the type.
   */
  lemma AcceptedSingleWrite(address: int, v: Value, dataType: DataType)
    requires dataType != Float32
    requires ValidateWriteSingle(address).None?
    ensures var c := SingleWriteCall(Holding, address, v, dataType);
      && c.address == address
      && |c.RegisterWords()| == Span(dataType)
      && (address + |c.RegisterWords()| - 1 <= MaxAddress <==> Span(dataType) == 1 || address < MaxAddress)
  {
  }

  /** A uint32 written at address 65535 is accepted and occupies registers 65535 and 65536. */
  lemma SingleWriteOverrunExample()
    ensures ValidateWriteSingle(0xFFFF).None?
    ensures var c := SingleWriteCall(Holding, 0xFFFF, IntVal(1), UInt32);
      c == WriteMultipleRegisters(0xFFFF, [0, 1]) && c.address + |c.words| - 1 == 0x1_0000
  {
  }
}
