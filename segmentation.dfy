/**
 * Read-result segmentation: the loop of `modbus_read_registers` that turns the raw
 * bits or register words a device returned into `{address, raw, decoded}` entries
 * (modbus_tcp_mcp.py).
 */
module Segmentation {
  import opened Codec
  import opened Requests

  /**
   * One entry of a read result. `raw` holds the word(s) the entry was decoded from;
   * for a bit space it is the bit as the word 0 or 1.
   */
  datatype Entry = Entry(address: int, raw: seq<Word>, decoded: Decoded)

  /** A bit as Python sees it when it is used as an integer. */
  function BitWord(b: bool): Word {
    if b then 1 else 0
  }

  /** `bits[:count]` as words, for a count that is not negative: the first `count` bits, or all of them. */
  function TakeBits(bits: seq<bool>, count: int): (ws: seq<Word>)
    requires count >= 0
    ensures |ws| == if count < |bits| then count else |bits|
    ensures forall k :: 0 <= k < |ws| ==> ws[k] == BitWord(bits[k])
  {
    var n := if count < |bits| then count else |bits|;
    seq(n, k requires 0 <= k < n => BitWord(bits[k]))
  }

  /** The entry made of the k-th whole chunk of `span` words of a register read. */
  function Chunk(start: int, raw: seq<Word>, dataType: DataType, k: nat): Entry
    requires BlockStart(k + 1, Span(dataType)) <= |raw|
  {
    var s := Span(dataType);
    var o := BlockStart(k, s);
    Entry(start + o, raw[o .. o + s], Decode(raw[o .. o + s], dataType))
  }

  /** The first `|es|` bits of `raw`, each as an entry at `start + k` decoded as the bit. */
  ghost predicate BitEntries(start: int, raw: seq<Word>, es: seq<Entry>) {
    && |es| <= |raw|
    && forall k :: 0 <= k < |es| ==> es[k] == Entry(start + k, [raw[k]], DBool(raw[k] != 0))
  }

  /** The first `|es|` whole chunks of `raw`, each as its entry. */
  ghost predicate ChunkEntries(start: int, raw: seq<Word>, dataType: DataType, es: seq<Entry>) {
    && BlockStart(|es|, Span(dataType)) <= |raw|
    && forall k :: 0 <= k < |es| ==> es[k] == Chunk(start, raw, dataType, k)
  }

  /**
   * What a read result is: for a bit space, one entry per bit at consecutive
   * addresses, decoded as the bit itself whatever the data type; for a register
   * space, one entry per whole chunk of `Span(dataType)` words, at addresses
   * `start + k * span` (`BlockStart`), with a trailing partial chunk dropped.
   */
  ghost predicate IsSegmentation(space: RegisterSpace, dataType: DataType, start: int, raw: seq<Word>, es: seq<Entry>) {
    if IsBitSpace(space) then |es| == |raw| && BitEntries(start, raw, es)
    else |es| == |raw| / Span(dataType) && ChunkEntries(start, raw, dataType, es)
  }

  /** One more bit entry extends the bit entries. */
  lemma BitEntriesExtend(start: int, raw: seq<Word>, es: seq<Entry>)
    requires BitEntries(start, raw, es) && |es| < |raw|
    ensures BitEntries(start, raw, es + [Entry(start + |es|, [raw[|es|]], DBool(raw[|es|] != 0))])
  {
    var es2 := es + [Entry(start + |es|, [raw[|es|]], DBool(raw[|es|] != 0))];
    forall k | 0 <= k < |es2|
      ensures es2[k] == Entry(start + k, [raw[k]], DBool(raw[k] != 0))
    {
      if k < |es| {
        assert es2[k] == es[k];
      }
    }
  }

  /** The next whole chunk extends the chunk entries. */
  lemma ChunkEntriesExtend(start: int, raw: seq<Word>, dataType: DataType, es: seq<Entry>)
    requires ChunkEntries(start, raw, dataType, es) && BlockStart(|es| + 1, Span(dataType)) <= |raw|
    ensures ChunkEntries(start, raw, dataType, es + [Chunk(start, raw, dataType, |es|)])
  {
    var es2 := es + [Chunk(start, raw, dataType, |es|)];
    forall k | 0 <= k < |es2|
      ensures es2[k] == Chunk(start, raw, dataType, k)
    {
      if k < |es| {
        assert es2[k] == es[k];
      }
    }
  }

  /** The loop of `modbus_read_registers` over the raw values, proved to build the segmentation. */
  method Segment(space: RegisterSpace, dataType: DataType, start: int, raw: seq<Word>) returns (es: seq<Entry>)
    ensures IsSegmentation(space, dataType, start, raw, es)
  {
    es := [];
    var i := 0;
    var offset := 0;
    while i < |raw|
      invariant offset == i <= |raw|
      invariant IsBitSpace(space) ==> i == |es| && BitEntries(start, raw, es)
      invariant !IsBitSpace(space) ==> i == BlockStart(|es|, Span(dataType)) && ChunkEntries(start, raw, dataType, es)
    {
      var address := start + offset;
      var rawValue: seq<Word>;
      var decoded: Decoded;
      if IsBitSpace(space) {
        decoded := DBool(raw[i] != 0);
        rawValue := [raw[i]];
        BitEntriesExtend(start, raw, es);
        i := i + 1;
        offset := offset + 1;
      } else {
        var needed := Span(dataType);
        if i + needed > |raw| {
          break;
        }
        rawValue := raw[i .. i + needed];
        decoded := Decode(rawValue, dataType);
        ChunkEntriesExtend(start, raw, dataType, es);
        assert Entry(address, rawValue, decoded) == Chunk(start, raw, dataType, |es|);
        i := i + needed;
        offset := offset + needed;
      }
      es := es + [Entry(address, rawValue, decoded)];
    }
    if !IsBitSpace(space) {
      BlockCount(|es|, |raw|, Span(dataType));
    }
  }

  /**
   * A coil or discrete read: bits are cut to `count` first, then each bit becomes
   * one entry at `start + k` holding that bit.
   */
  lemma {:induction false} BitReadEntries(space: RegisterSpace, dataType: DataType, start: int, bits: seq<bool>, count: int, es: seq<Entry>)
    requires IsBitSpace(space) && count >= 0
    requires IsSegmentation(space, dataType, start, TakeBits(bits, count), es)
    ensures |es| == if count < |bits| then count else |bits|
    ensures forall k :: 0 <= k < |es| ==> es[k].address == start + k && es[k].decoded == DBool(bits[k])
  {
    var raw := TakeBits(bits, count);
    forall k | 0 <= k < |es|
      ensures es[k].address == start + k && es[k].decoded == DBool(bits[k])
    {
      assert es[k] == Entry(start + k, [raw[k]], DBool(raw[k] != 0));
      assert raw[k] == BitWord(bits[k]);
    }
  }

  /**
   * Writing values to consecutive holding registers and reading the same words back
   * gives one entry per value, at `start + k * span`, decoding to the value written.
   */
  lemma {:induction false} WriteThenRead(dataType: DataType, start: int, values: seq<Value>, es: seq<Entry>)
    requires dataType != Float32
    requires forall k :: 0 <= k < |values| ==> Representable(values[k], dataType)
    requires IsSegmentation(Holding, dataType, start, EncodeAll(values, dataType), es)
    ensures |es| == |values|
    ensures forall k :: 0 <= k < |es| ==>
      es[k].address == start + k * Span(dataType) && es[k].decoded == Meaning(values[k], dataType)
  {
    var s := Span(dataType);
    var raw := EncodeAll(values, dataType);
    assert |raw| / s == |values| by {
      assert |raw| == |values| * s;
    }
    forall k | 0 <= k < |es|
      ensures es[k].address == start + k * s && es[k].decoded == Meaning(values[k], dataType)
    {
      assert es[k] == Chunk(start, raw, dataType, k);
      EncodeAllChunk(values, dataType, k);
      DecodeEncode(values[k], dataType);
      SpanTimes(k, dataType);
    }
  }

  /** Eight coil bits read from address 0 give eight entries at addresses 0..7 holding those bits. */
  lemma CoilReadExample(es: seq<Entry>)
    requires IsSegmentation(Coil, Bool, 0, TakeBits([true, false, true, false, true, false, true, false], 8), es)
    ensures |es| == 8
    ensures forall k :: 0 <= k < 8 ==> es[k].address == k && es[k].decoded == DBool(k % 2 == 0)
  {
    var bits := [true, false, true, false, true, false, true, false];
    BitReadEntries(Coil, Bool, 0, bits, 8, es);
  }
}
