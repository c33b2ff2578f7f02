/** The DWVW encoder and decoder as they run: a 32-bit reservoir and a staging buffer of
    256 bytes, updated in place. Each method is tied to the functions of module Dwvw. */
module DwvwCodec {
  import opened Bits
  import opened Common
  import opened Dwvw
  import opened DwvwCalls
  import opened DwvwLossless
  import opened DwvwTheorem

  const BUFFER_SIZE := 256

  /** `data` masked to its low `n` bits. */
  function LowBits(data: int, n: nat): (r: nat)
    ensures r < Pow2(n)
  {
    data % Pow2(n)
  }

  lemma {:induction false} ShiftIn(bits: int, count: nat, data: int, n: nat)
    requires count + n <= 32
    ensures ToBits(ShiftLeft(bits, n) + LowBits(data, n), count + n) == ToBits(bits, count) + ToBits(data, n)
  {
    hide Pow2, Int32;
    var y := bits * Pow2(n) + data % Pow2(n);
    var q := Int32Wraps(bits * Pow2(n));
    Shifts(bits, n);
    assert ShiftLeft(bits, n) + LowBits(data, n) == y - q * 0x1_0000_0000;
    WrapKeepsLowBits(y, q, count + n);
    Append(bits, count, data, n);
  }

  lemma {:induction false} Int32Wraps(x: int) returns (q: int)
    ensures Int32(x) == x - q * 0x1_0000_0000
  {
    q := (x + 0x8000_0000) / 0x1_0000_0000;
  }

  lemma {:induction false} WrapKeepsLowBits(y: int, q: int, n: nat)
    requires n <= 32
    ensures ToBits(y - q * 0x1_0000_0000, n) == ToBits(y, n)
  {
    hide ToBits;
    var p, h := Pow2(n), Pow2(32 - n);
    assert h * p == 0x1_0000_0000 by {
      Pow2Values();
      Pow2Add(32 - n, n);
    }
    MulAssociative(-q, h, p);
    Congruent(y, -q * h, n);
  }

  /** The upper `n` bits of a field of `count` bits. */
  lemma {:induction false} ShiftOut(bits: int, count: nat, n: nat)
    requires n <= count
    ensures ToBits(bits, count) == ToBits(ShiftRight(bits, count - n), n) + ToBits(bits, count - n)
  {
    Split(bits, n, count - n);
    Shifts(bits, count - n);
  }

  class Encoder {
    const bitWidth: Width
    var bitCount: nat
    var bits: int
    var lastDeltaWidth: nat
    var lastSample: int
    var sampleCount: nat
    var index: nat
    const buffer: array<byte>
    /** The bytes given to the file so far. */
    var file: seq<byte>

    ghost predicate Valid()
      reads this
    {
      && ValidMemory(bitWidth, Mem())
      && bitCount < 8
      && buffer.Length == BUFFER_SIZE
      && index <= BUFFER_SIZE - 4
    }

    ghost function Mem(): Memory
      reads this
    {
      Memory(lastDeltaWidth, lastSample)
    }

    /** Every bit stored so far: in the file, in the staging buffer, in the reservoir. */
    ghost function Written(): seq<bool>
      reads this, buffer
      requires index <= buffer.Length
    {
      BytesBits(file + buffer[..index]) + ToBits(bits, bitCount)
    }

    constructor (w: Width)
      ensures Valid() && bitWidth == w && fresh(buffer)
      ensures file == [] && Written() == [] && Mem() == INITIAL
    {
      bitWidth := w;
      bitCount, bits := 0, 0;
      lastDeltaWidth, lastSample := 0, 0;
      sampleCount := 0;
      index := 0;
      buffer := new byte[BUFFER_SIZE](_ => 0);
      file := [];
      new;
    }

    /** Shift the low bits of `data` into the reservoir and move whole bytes to the buffer,
        which goes to the file when fewer than four places are left. */
    method StoreBits(data: int, newBits: nat)
      requires Valid() && newBits < 24
      modifies this`bits, this`bitCount, this`index, this`file, buffer
      ensures Valid()
      ensures Written() == old(Written()) + ToBits(data, newBits)
    {
      hide Int32, Pow2, ToBits, BytesBits, ShiftLeft;
      ShiftIn(bits, bitCount, data, newBits);
      SeqAssociative(BytesBits(file + buffer[..index]), ToBits(bits, bitCount), ToBits(data, newBits));
      bits := ShiftLeft(bits, newBits) + LowBits(data, newBits);
      bitCount := bitCount + newBits;

      while bitCount >= 8
        invariant 8 * index + bitCount <= 8 * (BUFFER_SIZE - 4) + 30
        invariant Written() == old(Written()) + ToBits(data, newBits)
      {
        MoveByte();
      }

      if index > BUFFER_SIZE - 4 {
        file := file + buffer[..index];
        index := 0;
        assert file + buffer[..0] == file;
      }
    }

    /** Move the oldest eight bits of the reservoir to the staging buffer. */
    method MoveByte()
      requires bitCount >= 8 && index < buffer.Length
      modifies this`bitCount, this`index, buffer
      ensures index == old(index) + 1 && bitCount == old(bitCount) - 8
      ensures Written() == old(Written())
    {
      hide ToBits, BytesBits, ShiftRight;
      ghost var before := file + buffer[..index];
      ShiftOut(bits, bitCount, 8);
      bitCount := bitCount - 8;
      var shifted := ShiftRight(bits, bitCount);
      ByteIsLowBits(shifted);
      buffer[index] := shifted % 256;
      index := index + 1;
      assert file + buffer[..index] == before + [shifted % 256];
      BytesBitsAppend(before, [shifted % 256]);
      OneByte(shifted % 256);
      SeqAssociative(BytesBits(before), ByteBits(shifted % 256), ToBits(bits, bitCount));
    }

    method HighestBit(x: nat) returns (count: nat)
      ensures count == BitLength(x)
    {
      var y := x;
      count := 0;
      while y != 0
        invariant count + BitLength(y) == BitLength(x)
      {
        count := count + 1;
        y := y / 2;
      }
    }

    method EncodeData(ptr: seq<int>) returns (count: nat)
      requires Valid() && AllInt32(ptr)
      modifies this, buffer
      ensures Valid() && count == |ptr| && sampleCount == old(sampleCount) + count
      ensures Written() == old(Written()) + Encode(bitWidth, old(Mem()), ptr)
      ensures Mem() == After(bitWidth, old(Mem()), ptr)
    {
      hide Encode, After, Codeword, Next, Pow2, ToBits, BytesBits;
      count := 0;
      assert ptr[0..] == ptr;
      while count < |ptr|
        invariant 0 <= count <= |ptr| && sampleCount == old(sampleCount)
        invariant Valid()
        invariant Written() + Encode(bitWidth, Mem(), ptr[count..])
               == old(Written()) + Encode(bitWidth, old(Mem()), ptr)
        invariant After(bitWidth, Mem(), ptr[count..]) == After(bitWidth, old(Mem()), ptr)
      {
        ghost var mem, written, rest := Mem(), Written(), Encode(bitWidth, Mem(), ptr[count..]);
        NextValid(bitWidth, mem, ptr[count]);
        EncodeUnfolds(bitWidth, mem, ptr[count..]);
        EncodeSample(ptr[count]);
        assert ptr[count..][1..] == ptr[count + 1..];
        SeqAssociative(written, Codeword(bitWidth, mem, ptr[count]), Encode(bitWidth, Mem(), ptr[count + 1..]));
        count := count + 1;
      }
      assert ptr[count..] == [];
      AfterNone(bitWidth, Mem());
      sampleCount := sampleCount + count;
    }

    /** The body of the encoding loop. */
    method EncodeSample(x: int)
      requires Valid() && IsInt32(x)
      modifies this, buffer
      ensures Valid() && Mem() == Next(bitWidth, old(Mem()), x) && sampleCount == old(sampleCount)
      ensures Written() == old(Written()) + Codeword(bitWidth, old(Mem()), x)
    {
      hide FoldDelta, Modifier, Payload, Unary, SignBit, Pow2, BytesBits, ToBits;
      ghost var mem, w0 := Mem(), Written();
      NextValid(bitWidth, mem, x);
      SampleReached(bitWidth, mem, x);
      var delta, deltaNegative, extraBit := Fold(ShiftRight(x, 32 - bitWidth) - lastSample);
      var deltaWidth := HighestBit(delta);
      var modifier := WidthModifier(deltaWidth);

      WriteModifier(modifier);
      WriteDelta(delta, deltaNegative, extraBit, deltaWidth);
      ghost var d := Delta(delta, deltaNegative, extraBit);
      Reassociate4(w0, Unary(bitWidth, Abs(modifier)), SignBit(modifier), Payload(d));

      lastSample := ShiftRight(x, 32 - bitWidth);
      lastDeltaWidth := deltaWidth;
    }

    /** The delta modulo the span, as magnitude, sign and extra bit. */
    method Fold(d: int) returns (delta: nat, deltaNegative: bool, extraBit: int)
      requires -2 * MaxDelta(bitWidth) < d < 2 * MaxDelta(bitWidth)
      ensures Delta(delta, deltaNegative, extraBit) == FoldDelta(bitWidth, d)
      ensures var max, sized := MaxDelta(bitWidth), delta + (if extraBit == 1 then 1 else 0);
              (if deltaNegative then -sized else sized)
              == (if d < -max then d + 2 * max else if d > max then d - 2 * max else d)
    {
      FoldKeepsDelta(bitWidth, d);
      var maxDelta := Pow2(bitWidth - 1);
      extraBit := -1;
      deltaNegative := false;
      if d < -maxDelta {
        delta := maxDelta + CRem(d, maxDelta);
      } else if d == -maxDelta {
        extraBit := 1;
        deltaNegative := true;
        delta := maxDelta - 1;
      } else if d > maxDelta {
        deltaNegative := true;
        delta := Abs(2 * maxDelta - d);
      } else if d == maxDelta {
        extraBit := 1;
        delta := maxDelta - 1;
      } else if d < 0 {
        deltaNegative := true;
        delta := Abs(d);
      } else {
        delta := d;
      }
      if delta == maxDelta - 1 && extraBit == -1 {
        extraBit := 0;
      }
    }

    method WidthModifier(deltaWidth: nat) returns (modifier: int)
      requires Valid() && deltaWidth < bitWidth
      ensures modifier == Modifier(bitWidth, lastDeltaWidth, deltaWidth)
      ensures Abs(modifier) <= bitWidth / 2
      ensures var change := deltaWidth - lastDeltaWidth;
              modifier == if change > bitWidth / 2 then change - bitWidth
                          else if change < -(bitWidth / 2) then change + bitWidth else change
    {
      ModifierReachesWidth(bitWidth, lastDeltaWidth, deltaWidth);
      modifier := CRem(deltaWidth - lastDeltaWidth, bitWidth);
      if modifier > bitWidth / 2 {
        modifier := modifier - bitWidth;
      }
      if modifier < -(bitWidth / 2) {
        modifier := modifier + bitWidth;
      }
    }

    /** The delta without its leading one, its sign, and the extra bit. */
    method WriteDelta(delta: nat, deltaNegative: bool, extraBit: int, deltaWidth: nat)
      requires Valid() && deltaWidth == BitLength(delta) < bitWidth && -1 <= extraBit <= 1
      modifies this`bits, this`bitCount, this`index, this`file, buffer
      ensures Valid()
      ensures Written() == old(Written()) + Payload(Delta(delta, deltaNegative, extraBit))
    {
      hide ToBits, BytesBits, BitLength;
      ghost var w0 := Written();
      ghost var body: seq<bool> := [];
      if deltaWidth > 0 {
        StoreBits(delta, deltaWidth - 1);
        StoreBits(if deltaNegative then 1 else 0, 1);
        OneBit(deltaNegative);
        body := ToBits(delta, deltaWidth - 1) + [deltaNegative];
        SeqAssociative(w0, ToBits(delta, deltaWidth - 1), [deltaNegative]);
      }
      assert Written() == w0 + body;
      ghost var escape: seq<bool> := [];
      if extraBit >= 0 {
        StoreBits(extraBit, 1);
        OneBit(extraBit == 1);
        escape := [extraBit == 1];
      }
      assert Written() == w0 + body + escape;
      SeqAssociative(w0, body, escape);
      assert Payload(Delta(delta, deltaNegative, extraBit)) == body + escape;
    }

    /** The change of width: zeros, the one that ends them, and the sign. */
    method WriteModifier(modifier: int)
      requires Valid() && Abs(modifier) <= bitWidth / 2
      modifies this`bits, this`bitCount, this`index, this`file, buffer
      ensures Valid()
      ensures Written() == old(Written()) + Unary(bitWidth, Abs(modifier)) + SignBit(modifier)
    {
      hide ToBits, BytesBits;
      var magnitude := Abs(modifier);
      StoreBits(0, magnitude);
      ZeroBits(magnitude);
      if magnitude != bitWidth / 2 {
        StoreBits(1, 1);
        OneBit(true);
      }
      assert Written() == old(Written()) + Unary(bitWidth, magnitude);
      if modifier < 0 {
        StoreBits(1, 1);
        OneBit(true);
      }
      if modifier > 0 {
        StoreBits(0, 1);
        OneBit(false);
      }
    }

    /** Closing writes twelve zero samples and what the staging buffer holds. */
    method Close()
      requires Valid()
      modifies this, buffer
      ensures file == Pack(old(Written()) + Encode(bitWidth, old(Mem()), Padding()))
    {
      var n := EncodeData(Padding());
      PackOfBytes(file + buffer[..index], ToBits(bits, bitCount));
      file := file + buffer[..index];
    }
  }

  class Decoder {
    const bitWidth: Width
    var bitCount: nat
    var bits: int
    var lastDeltaWidth: nat
    var lastSample: int
    var sampleCount: nat
    var index: nat
    var end: nat
    const buffer: array<byte>
    /** The data of the file and the position in it. */
    const file: seq<byte>
    var position: nat

    ghost predicate Valid()
      reads this
    {
      && ValidMemory(bitWidth, Mem())
      && bitCount <= 29
      && buffer.Length == BUFFER_SIZE
      && index <= end <= BUFFER_SIZE
      && position <= |file|
    }

    ghost function Mem(): Memory
      reads this
    {
      Memory(lastDeltaWidth, lastSample)
    }

    /** The bytes staged but not loaded, and those not yet read from the file. */
    ghost function Unread(): seq<byte>
      reads this, buffer
      requires index <= end <= buffer.Length && position <= |file|
    {
      buffer[index..end] + file[position..]
    }

    ghost function Ahead(): Source
      reads this, buffer
      requires index <= end <= buffer.Length && position <= |file|
    {
      Source(ToBits(bits, bitCount), BytesBits(Unread()), end == 0)
    }

    constructor (w: Width, data: seq<byte>)
      ensures Valid() && bitWidth == w && file == data && fresh(buffer)
      ensures Mem() == INITIAL && Ahead() == Source([], BytesBits(data), true)
    {
      bitWidth := w;
      file := data;
      bitCount, bits := 0, 0;
      lastDeltaWidth, lastSample := 0, 0;
      sampleCount := 0;
      index, end := 0, 0;
      buffer := new byte[BUFFER_SIZE](_ => 0);
      position := 0;
      new;
      assert Unread() == data;
    }

    /** Seeking to the start: the position and every field but the width are reset. */
    method Rewind()
      requires Valid()
      modifies this
      ensures Valid() && Mem() == INITIAL && Ahead() == Source([], BytesBits(file), true)
    {
      position := 0;
      bitCount, bits := 0, 0;
      lastDeltaWidth, lastSample := 0, 0;
      sampleCount := 0;
      index, end := 0, 0;
      assert Unread() == file;
    }

    /** Read the next 256 bytes, or what is left, into the staging buffer. */
    method Refill()
      requires Valid() && index == end
      modifies this`index, this`end, this`position, buffer
      ensures Valid() && index == 0
      ensures Unread() == old(Unread())
      ensures end == 0 <==> Unread() == []
    {
      var count := if |file| - position < BUFFER_SIZE then |file| - position else BUFFER_SIZE;
      for k := 0 to count
        invariant position == old(position) && index == old(index) && end == old(end)
        invariant buffer[..k] == file[position..position + k]
      {
        buffer[k] := file[position + k];
      }
      ghost var unread := file[position..];
      index, end := 0, count;
      position := position + count;
      assert unread == buffer[0..end] + file[position..];
      assert buffer[old(index)..old(end)] == [];
    }

    /** Load bits until the reservoir holds `need`, eight at a time. */
    method FillReservoir(need: nat) returns (ok: bool)
      requires Valid() && need <= 22
      modifies this`bits, this`bitCount, this`index, this`end, this`position, buffer
      ensures Valid()
      ensures var l := Load(old(Ahead()), need); ok == l.ok && Ahead() == l.src
    {
      hide BytesBits, ToBits;
      while bitCount < need
        invariant Valid()
        invariant Load(Ahead(), need) == Load(old(Ahead()), need)
        decreases need - bitCount
      {
        ghost var src := Ahead();
        if index >= end {
          Refill();
        }
        NothingUnread(Unread());
        if need < 8 && end == 0 {
          return false;
        }
        LoadByte();
        assert Load(Ahead(), need) == Load(src, need);
      }
      return true;
    }

    /** Shift one byte into the reservoir, zero when there is none. */
    method LoadByte()
      requires Valid() && bitCount <= 21 && (index == end ==> end == 0 && Unread() == [])
      modifies this`bits, this`bitCount, this`index
      ensures Valid() && bitCount == old(bitCount) + 8
      ensures var s := old(Ahead());
              Ahead() == if |s.rest| >= 8 then Source(s.reservoir + s.rest[..8], s.rest[8..], false)
                         else Source(s.reservoir + Zeros(8), s.rest, true)
    {
      hide BytesBits, ToBits, Int32, Pow2, ShiftLeft;
      ghost var unread := Unread();
      var next: byte := 0;
      if index < end {
        next := buffer[index];
        index := index + 1;
        assert unread == [next] + Unread();
      }
      ShiftInByte(bits, bitCount, next);
      FrontByte(unread);
      bits := ShiftLeft(bits, 8) + next;
      bitCount := bitCount + 8;
    }

    /** Either `n` bits, or for a negative `n` the count of zeros of a width modifier; -1 at the end. */
    method LoadBits(n: int) returns (output: int)
      requires Valid() && n <= 22
      modifies this`bits, this`bitCount, this`index, this`end, this`position, buffer
      ensures Valid()
      ensures Taken(output, Ahead()) == if n < 0 then TakeUnary(bitWidth, old(Ahead())) else Take(old(Ahead()), n)
    {
      hide BytesBits, ToBits, ShiftRight, Load, LeadingZeros, LowBits, Val;
      var loaded := FillReservoir(if n < 0 then bitWidth / 2 else n);
      if !loaded {
        return -1;
      }
      if n >= 0 {
        TakeField(bits, bitCount, n);
        output := LowBits(ShiftRight(bits, bitCount - n), n);
        bitCount := bitCount - n;
        return;
      }
      output := CountZeros(bitWidth / 2);
    }

    /** Count zeros up to `max`, and drop the one that ends them. */
    method CountZeros(max: nat) returns (output: nat)
      requires Valid() && bitCount >= max
      modifies this`bitCount
      ensures Valid()
      ensures var r := old(ToBits(bits, bitCount));
              && output == LeadingZeros(r[..max])
              && ToBits(bits, bitCount) == r[if output < max then output + 1 else output..]
    {
      hide ToBits, ShiftRight, LeadingZeros;
      ghost var r := ToBits(bits, bitCount);
      assert r[0..max] == r[..max] && r[0..] == r;
      output := 0;
      while output < max
        invariant 0 <= output <= max && bitCount == |r| - output
        invariant ToBits(bits, bitCount) == r[output..]
        invariant LeadingZeros(r[..max]) == output + LeadingZeros(r[output..max])
        invariant Valid()
      {
        TopBit(bits, bitCount);
        UnaryStep(r, output, max);
        bitCount := bitCount - 1;
        if ShiftRight(bits, bitCount) % 2 == 1 {
          return;
        }
        output := output + 1;
      }
      NoMoreZeros();
      assert r[output..max] == [];
    }

    /** One call decodes up to `len` samples into the front of `ptr`. */
    method DecodeData(ptr: array<int>, len: nat) returns (count: nat)
      requires Valid() && len <= ptr.Length
      modifies this, buffer, ptr
      ensures Valid() && sampleCount == old(sampleCount) + count
      ensures var r := Decode(bitWidth, old(Mem()), old(Ahead()), len, true);
              && count == |r.samples| <= len && ptr[..count] == r.samples && Mem() == r.mem && Ahead() == r.src
    {
      hide Load, Take, TakeUnary, DecodeRest, Restore, BytesBits, ToBits, Decode, ShiftLeft;
      ghost var whole := Decode(bitWidth, Mem(), Ahead(), len, true);
      count := 0;
      while count < len
        invariant Valid() && 0 <= count <= len && sampleCount == old(sampleCount)
        invariant Prefixed(ptr[..count], Decode(bitWidth, Mem(), Ahead(), len - count, count == 0)) == whole
      {
        ghost var mem, src := Mem(), Ahead();
        DecodeOnce(bitWidth, mem, src, len - count, count == 0);
        var zeros := LoadBits(-1);
        assert TakeUnary(bitWidth, src) == Taken(zeros, Ahead());
        if zeros < 0 || (end == 0 && count == 0) {
          break;
        }
        DecodeSample(zeros);
        ptr[count] := ShiftLeft(lastSample, 32 - bitWidth);
        RestoreIsShift(bitWidth, lastSample);
        if end == 0 && bitCount == 0 {
          break;
        }
        assert ptr[..count + 1] == ptr[..count] + [Restore(bitWidth, lastSample)];
        PrefixedTwice(ptr[..count], Restore(bitWidth, lastSample),
                      Decode(bitWidth, Mem(), Ahead(), len - count - 1, false));
        count := count + 1;
      }
      DecodeNone(bitWidth, Mem(), Ahead(), count == 0);
      sampleCount := sampleCount + count;
    }

    /** Read samples as 16-bit numbers, in calls of as many as a buffer on the stack holds. */
    method ReadShorts(ptr: array<int>, len: nat, ibuf: array<int>) returns (total: nat)
      requires Valid() && len <= ptr.Length && ibuf.Length > 0 && ibuf != ptr
      modifies this, buffer, ptr, ibuf
      ensures Valid() && total <= len
      ensures ptr[..total] == Shorts(ReadCalls(bitWidth, old(Mem()), old(Ahead()), Chunks(len, ibuf.Length)))
    {
      hide Decode, ReadCalls, Chunks, Shorts, Shown, ShiftRight, Load, Take, ToBits, BytesBits, ValidMemory;
      total := 0;
      var left: nat := len;
      ghost var all := Shorts(ReadCalls(bitWidth, Mem(), Ahead(), Chunks(len, ibuf.Length)));
      ShownFirst(bitWidth, Mem(), Ahead(), Chunks(len, ibuf.Length));
      assert ptr[..0] == [];
      while left > 0
        invariant total <= len && total + left == len
        invariant Valid()
        invariant Shown(ptr[..total], bitWidth, Mem(), Ahead(), Chunks(left, ibuf.Length), all)
      {
        var readCount := if left >= ibuf.Length then ibuf.Length else left;
        ShownNext(ptr[..total], bitWidth, Mem(), Ahead(), left, ibuf.Length, all);
        var count := ReadSome(ptr, total, readCount, ibuf);
        left := left - readCount;
        total := total + count;
        if count != readCount {
          return;
        }
      }
      ShownLast(ptr[..total], bitWidth, Mem(), Ahead(), ibuf.Length, all);
    }

    /** One call and the copying of its samples. */
    method ReadSome(ptr: array<int>, total: nat, readCount: nat, ibuf: array<int>) returns (count: nat)
      requires Valid() && total + readCount <= ptr.Length && readCount <= ibuf.Length && ibuf != ptr
      modifies this, buffer, ptr, ibuf
      ensures Valid() && total + count <= ptr.Length
      ensures var r := Decode(bitWidth, old(Mem()), old(Ahead()), readCount, true);
              && count == |r.samples| <= readCount && Mem() == r.mem && Ahead() == r.src
              && ptr[..total + count] == old(ptr[..total]) + Shorts(r.samples)
    {
      hide Decode, ShiftRight, Load, Take, ToBits, BytesBits, ValidMemory;
      count := DecodeData(ibuf, readCount);
      CopyShorts(ptr, total, readCount, ibuf);
      ghost var samples := ibuf[..count];
      assert ptr[..total + count] == ptr[..total] + ptr[total..total + count];
      assert ptr[total..total + count] == Shorts(samples);
    }

    method CopyShorts(ptr: array<int>, total: nat, readCount: nat, ibuf: array<int>)
      requires total + readCount <= ptr.Length && readCount <= ibuf.Length && ibuf != ptr
      modifies ptr
      ensures ptr[..total] == old(ptr[..total])
      ensures forall k :: 0 <= k < readCount ==> ptr[total + k] == ShiftRight(ibuf[k], 16)
    {
      hide ShiftRight;
      for k := 0 to readCount
        invariant ptr[..total] == old(ptr[..total])
        invariant forall j :: 0 <= j < k ==> ptr[total + j] == ShiftRight(ibuf[j], 16)
      {
        ptr[total + k] := ShiftRight(ibuf[k], 16);
      }
    }

    /** The body of the decoding loop after the zeros have been counted. */
    method DecodeSample(zeros: nat)
      requires Valid() && zeros <= bitWidth / 2
      modifies this, buffer
      ensures Valid() && sampleCount == old(sampleCount)
      ensures Decoded(Mem(), Ahead()) == DecodeRest(bitWidth, old(Mem()), zeros, old(Ahead()))
    {
      hide Load, Take, BytesBits, ToBits;
      ghost var mem, src := Mem(), Ahead();
      DecoderInRange(bitWidth, mem, zeros, src);
      var modifier: int := zeros;
      if modifier != 0 {
        var sign := LoadBits(1);
        if sign != 0 {
          modifier := -modifier;
        }
      }
      assert TakeSign(zeros, src) == Taken(modifier, Ahead());
      var deltaWidth := NewWidth(bitWidth, lastDeltaWidth, modifier);
      var delta := LoadDelta(deltaWidth);
      var sample := lastSample + delta;
      var maxDelta: int, span := Pow2(bitWidth - 1), Pow2(bitWidth);
      if sample >= maxDelta {
        sample := sample - span;
      } else if sample < -maxDelta {
        sample := sample + span;
      }
      lastDeltaWidth := deltaWidth;
      lastSample := sample;
    }

    method LoadDelta(deltaWidth: nat) returns (delta: int)
      requires Valid() && deltaWidth < bitWidth
      modifies this`bits, this`bitCount, this`index, this`end, this`position, buffer
      ensures Valid()
      ensures Taken(delta, Ahead()) == TakeDelta(bitWidth, deltaWidth, old(Ahead()))
    {
      hide Load, Take, BytesBits, ToBits;
      delta := 0;
      if deltaWidth > 0 {
        var low := LoadBits(deltaWidth - 1);
        delta := if low < 0 then -1 else low + Pow2(deltaWidth - 1);
        var negative := LoadBits(1);
        if delta == Pow2(bitWidth - 1) - 1 {
          var extra := LoadBits(1);
          delta := delta + extra;
        }
        if negative != 0 {
          delta := -delta;
        }
      }
    }
  }

  lemma {:induction false} EncodeUnfolds(w: Width, mem: Memory, xs: seq<int>)
    requires xs != []
    ensures Encode(w, mem, xs) == Codeword(w, mem, xs[0]) + Encode(w, Next(w, mem, xs[0]), xs[1..])
    ensures After(w, mem, xs) == After(w, Next(w, mem, xs[0]), xs[1..])
  {
    hide Codeword, Next;
  }

  function Prefixed(front: seq<int>, r: Result): Result {
    r.(samples := front + r.samples)
  }

  lemma {:induction false} PrefixedTwice(front: seq<int>, x: int, r: Result)
    ensures Prefixed(front, Prefixed([x], r)) == Prefixed(front + [x], r)
  {
    assert front + ([x] + r.samples) == front + [x] + r.samples;
  }

  lemma {:induction false} DecodeNone(w: Width, mem: Memory, src: Source, first: bool)
    requires ValidMemory(w, mem)
    ensures Decode(w, mem, src, 0, first) == Result([], mem, src)
  {
  }

  /** The three ways one turn of the decoding loop can end. */
  lemma {:induction false} DecodeOnce(w: Width, mem: Memory, src: Source, n: nat, first: bool)
    requires ValidMemory(w, mem) && n > 0
    ensures var u := TakeUnary(w, src); var whole := Decode(w, mem, src, n, first);
            && -1 <= u.value <= w / 2
            && if u.value < 0 || (u.src.ended && first) then whole == Result([], mem, u.src)
               else
                 var d := DecodeRest(w, mem, u.value, u.src);
                 && ValidMemory(w, d.mem)
                 && whole == if d.src.ended && d.src.reservoir == [] then Result([], d.mem, d.src)
                             else Prefixed([Restore(w, d.mem.sample)], Decode(w, d.mem, d.src, n - 1, false))
  {
    hide Load, LeadingZeros, TakeSign, TakeDelta, Restore;
    UnaryRange(w, src);
    var u := TakeUnary(w, src);
    if u.value >= 0 {
      DecoderInRange(w, mem, u.value, u.src);
    }
  }

  lemma {:induction false} RestoreIsShift(w: Width, s: int)
    ensures Restore(w, s) == ShiftLeft(s, 32 - w)
  {
  }

  lemma {:induction false} TakeField(bits: int, count: nat, n: nat)
    requires n <= count
    ensures var r := ToBits(bits, count);
            LowBits(ShiftRight(bits, count - n), n) == Val(r[..n]) && ToBits(bits, count - n) == r[n..]
  {
    ShiftOut(bits, count, n);
    ValOfBits(ShiftRight(bits, count - n), n);
  }

  lemma {:induction false} UnaryStep(r: seq<bool>, k: nat, max: nat)
    requires k < max <= |r|
    ensures r[k..] == [r[k]] + r[k + 1..]
    ensures LeadingZeros(r[k..max]) == if r[k] then 0 else 1 + LeadingZeros(r[k + 1..max])
  {
    assert r[k..max][1..] == r[k + 1..max];
  }

  lemma {:induction false} NoMoreZeros()
    ensures LeadingZeros([]) == 0
  {
  }

  lemma {:induction false} TopBit(bits: int, count: nat)
    ensures count > 0 ==>
      ToBits(bits, count) == [ShiftRight(bits, count - 1) % 2 == 1] + ToBits(bits, count - 1)
  {
    if count > 0 {
      ShiftOut(bits, count, 1);
      assert ToBits(ShiftRight(bits, count - 1) / 2, 0) == [];
    }
  }

  lemma {:induction false} NothingUnread(bs: seq<byte>)
    ensures bs == [] <==> |BytesBits(bs)| < 8
    ensures bs == [] ==> BytesBits(bs) == []
  {
  }

  lemma {:induction false} ShiftInByte(bits: int, count: nat, next: byte)
    requires count <= 24
    ensures ToBits(ShiftLeft(bits, 8) + next, count + 8) == ToBits(bits, count) + ByteBits(next)
  {
    ShiftIn(bits, count, next, 8);
    assert Pow2(8) == 256;
  }

  lemma {:induction false} FrontByte(bs: seq<byte>)
    ensures bs != [] ==> BytesBits(bs)[..8] == ByteBits(bs[0]) && BytesBits(bs)[8..] == BytesBits(bs[1..])
    ensures ByteBits(0) == Zeros(8)
  {
    ZeroBits(8);
  }

  lemma {:induction false} OneByte(b: byte)
    ensures BytesBits([b]) == ByteBits(b)
  {
  }

  lemma {:induction false} ByteIsLowBits(x: int)
    ensures ByteBits(x % 256) == ToBits(x, 8)
  {
    assert Pow2(8) == 256;
    ReduceBits(x, 8);
  }

  lemma {:induction false} ZeroBits(n: nat)
    ensures ToBits(0, n) == Zeros(n)
  {
    if n > 0 {
      ZeroBits(n - 1);
    }
  }

  lemma {:induction false} OneBit(b: bool)
    ensures ToBits(if b then 1 else 0, 1) == [b]
  {
    assert ToBits(0, 0) == [];
  }

  lemma {:induction false} Reassociate4<T>(a: seq<T>, b: seq<T>, c: seq<T>, d: seq<T>)
    ensures a + b + c + d == a + (b + c + d)
  {
  }

  /** The upper halves of samples. */
  function Shorts(xs: seq<int>): (r: seq<int>)
    ensures |r| == |xs|
    ensures forall k :: 0 <= k < |xs| ==> r[k] == ShiftRight(xs[k], 16)
  {
    seq(|xs|, k requires 0 <= k < |xs| => ShiftRight(xs[k], 16))
  }

  lemma {:induction false} ShortsAppend(a: seq<int>, b: seq<int>)
    ensures Shorts(a + b) == Shorts(a) + Shorts(b)
  {
    hide ShiftRight;
  }

  /** The sizes of the calls for `len` samples through a buffer of `n`. */
  function Chunks(len: nat, n: nat): seq<nat>
    requires n > 0
    decreases len
  {
    if len == 0 then [] else if len >= n then [n] + Chunks(len - n, n) else [len]
  }

  lemma {:induction false} ChunksUnfold(len: nat, n: nat)
    requires n > 0 && len > 0
    ensures var m := if len >= n then n else len;
            Chunks(len, n) != [] && Chunks(len, n)[0] == m && Chunks(len, n)[1..] == Chunks(len - m, n)
  {
  }

  /** What has been read, and what the remaining calls will give. */
  predicate Shown(front: seq<int>, w: Width, mem: Memory, src: Source, ms: seq<nat>, all: seq<int>)
    requires ValidMemory(w, mem)
  {
    front + Shorts(ReadCalls(w, mem, src, ms)) == all
  }

  lemma {:induction false} ShownFirst(w: Width, mem: Memory, src: Source, ms: seq<nat>)
    requires ValidMemory(w, mem)
    ensures Shown([], w, mem, src, ms, Shorts(ReadCalls(w, mem, src, ms)))
  {
  }

  lemma {:induction false} ShownNext(
      front: seq<int>, w: Width, mem: Memory, src: Source, len: nat, n: nat, all: seq<int>)
    requires ValidMemory(w, mem) && n > 0 && len > 0
    requires Shown(front, w, mem, src, Chunks(len, n), all)
    ensures var m := if len >= n then n else len;
            var r := Decode(w, mem, src, m, true);
            && ValidMemory(w, r.mem)
            && (|r.samples| == m ==> Shown(front + Shorts(r.samples), w, r.mem, r.src, Chunks(len - m, n), all))
            && (|r.samples| < m ==> front + Shorts(r.samples) == all)
  {
    hide Decode, ReadCalls, Chunks, Shorts, ValidMemory;
    ChunksUnfold(len, n);
    FirstCall(w, mem, src, Chunks(len, n));
    var m := if len >= n then n else len;
    var r := Decode(w, mem, src, m, true);
    if |r.samples| == m {
      var more := ReadCalls(w, r.mem, r.src, Chunks(len - m, n));
      ShortsAppend(r.samples, more);
      SeqAssociative(front, Shorts(r.samples), Shorts(more));
    } else if |r.samples| < m {
      assert r.samples + [] == r.samples;
    }
  }

  lemma {:induction false} ShownLast(front: seq<int>, w: Width, mem: Memory, src: Source, n: nat, all: seq<int>)
    requires ValidMemory(w, mem) && n > 0 && Shown(front, w, mem, src, Chunks(0, n), all)
    ensures front == all
  {
  }

  /** The calls ask for all samples, none for nothing. */
  lemma {:induction false} ChunksCover(len: nat, n: nat)
    requires n > 0
    ensures Sum(Chunks(len, n)) == len && AllPositive(Chunks(len, n)) && (len > 0 ==> Chunks(len, n) != [])
    decreases len
  {
    if len >= n {
      ChunksCover(len - n, n);
      assert Chunks(len, n)[1..] == Chunks(len - n, n);
    }
  }

  /** Write a file, close it, open it again and read as many samples in one call. */
  method WriteCloseRead(w: nat, xs: seq<int>) returns (ys: seq<int>)
    requires 4 <= w <= 24 && AllInt32(xs)
    ensures ys == Masked(w, xs) <==> !Lost(w, xs)
    ensures Lost(w, xs) ==> ys == if w >= 18 then [] else Masked(w, xs[..|xs| - 1])
  {
    hide Encode, Decode, After, Lost, Masked;
    var encoder := new Encoder(w);
    var written := encoder.EncodeData(xs);
    encoder.Close();
    PaddingSplits(w, xs);
    assert [] + Encode(w, INITIAL, xs) == Encode(w, INITIAL, xs);
    assert encoder.file == Stream(w, xs);

    var decoder := new Decoder(w, encoder.file);
    var samples := new int[|xs|](_ => 0);
    var count := decoder.DecodeData(samples, |xs|);
    ys := samples[..count];
    Lossless(w, xs);
  }

  /** Write a file, close it, open it again and read it as 16-bit numbers through a buffer of 2048. */
  method WriteCloseReadShorts(w: nat, xs: seq<int>) returns (ys: seq<int>)
    requires 4 <= w <= 24 && AllInt32(xs) && xs != []
    ensures ValidMemory(w, INITIAL)
    ensures w < 16 ==> ys == Shorts(DecodeStream(w, Stream(w, xs), |xs|))
    ensures w < 14 ==> ys == Shorts(Masked(w, xs))
    ensures w >= 16 ==> if !Lost(w, xs) && LastChunkBits(w, xs, 2048) >= w / 2 then ys == Shorts(Masked(w, xs))
                        else |ys| < |xs|
  {
    hide Encode, Decode, After, Lost, Masked, ReadCalls, Chunks, Stream, DecodeStream, LastBits, Shorts;
    var encoder := new Encoder(w);
    var written := encoder.EncodeData(xs);
    encoder.Close();
    PaddingSplits(w, xs);
    assert [] + Encode(w, INITIAL, xs) == Encode(w, INITIAL, xs);
    StreamIs(w, xs);

    var decoder := new Decoder(w, encoder.file);
    var samples := new int[|xs|](_ => 0);
    var ibuf := new int[2048](_ => 0);
    var count := decoder.ReadShorts(samples, |xs|, ibuf);
    ys := samples[..count];
    ChunksCover(|xs|, 2048);
    ReadInCalls(w, xs, Chunks(|xs|, 2048));
    if w < 14 {
      ShippedWidthsAreLossless(w, xs);
    }
  }

  lemma {:induction false} StreamIs(w: Width, xs: seq<int>)
    ensures Stream(w, xs) == Pack(ClosedBits(w, xs))
  {
  }

  function LastChunkBits(w: Width, xs: seq<int>, n: nat): nat
    requires n > 0 && xs != []
  {
    ChunksCover(|xs|, n);
    LastBits(w, INITIAL, xs, Chunks(|xs|, n), |Tail(w, xs)|)
  }
}
