/** The packet table of an ALAC file: a growing array of packet sizes, written as base-128 numbers
    after a header of 24 bytes. */
module AlacTable {
  import opened Bits

  const HEADER := 24
  const TOO_BIG := 0x1000_0000

  // ----- the encoded table

  function Header(count: nat, frames: nat, remainder: nat): (bs: seq<byte>)
    ensures |bs| == HEADER
  {
    BigEndian(count, 8) + BigEndian(frames, 8) + [0, 0, 0, 0] + BigEndian(remainder, 4)
  }

  /** One size in groups of seven bits, every byte but the last with its top bit set. */
  function SizeBytes(v: nat): (bs: seq<byte>)
    requires v < TOO_BIG
    ensures 1 <= |bs| <= 4
  {
    if v < 0x80 then [v]
    else if v < 0x4000 then [v / 0x80 + 0x80, v % 0x80]
    else if v < 0x20_0000 then [v / 0x4000 + 0x80, v / 0x80 % 0x80 + 0x80, v % 0x80]
    else [v / 0x20_0000 + 0x80, v / 0x4000 % 0x80 + 0x80, v / 0x80 % 0x80 + 0x80, v % 0x80]
  }

  /** The sizes before the first that is too big. */
  function TableBytes(sizes: seq<nat>): seq<byte> {
    if sizes == [] || sizes[0] >= TOO_BIG then []
    else SizeBytes(sizes[0]) + TableBytes(sizes[1..])
  }

  predicate Encodable(sizes: seq<nat>) {
    forall k :: 0 <= k < |sizes| ==> sizes[k] < TOO_BIG
  }

  /** A chunk is stored with zeros up to a multiple of four bytes. */
  function Padding(n: nat): nat {
    if n % 4 == 0 then 0 else 4 - n % 4
  }

  function ZeroBytes(n: nat): (bs: seq<byte>)
    ensures |bs| == n
  {
    seq(n, _ => 0)
  }

  function Stored(bs: seq<byte>): seq<byte> {
    bs + ZeroBytes(Padding(|bs|))
  }

  // ----- what its bytes say

  /** The fields in front of a table: packets, frames, four zeros, frames missing in the last packet. */
  predicate Describes(chunk: seq<byte>, count: nat, frames: nat, remainder: nat) {
    && |chunk| >= HEADER
    && FromBytes(chunk[..8]) == count && FromBytes(chunk[8..16]) == frames
    && chunk[16..20] == [0, 0, 0, 0] && FromBytes(chunk[20..24]) == remainder
  }

  lemma {:induction false} HeaderDescribes(count: nat, frames: nat, remainder: nat, rest: seq<byte>)
    requires count < Pow256(8) && frames < Pow256(8) && remainder < Pow256(4)
    ensures Describes(Header(count, frames, remainder) + rest, count, frames, remainder)
  {
    hide BigEndian, FromBytes, Pow256;
    var a, b, c := BigEndian(count, 8), BigEndian(frames, 8), BigEndian(remainder, 4);
    BigEndianReadsBack(count, 8);
    BigEndianReadsBack(frames, 8);
    BigEndianReadsBack(remainder, 4);
    var chunk := Header(count, frames, remainder) + rest;
    assert chunk == a + (b + ([0, 0, 0, 0] + (c + rest)));
    assert chunk[..8] == a && chunk[8..16] == b && chunk[16..20] == [0, 0, 0, 0] && chunk[20..24] == c;
  }

  /** The number that groups of seven bits denote, the first one counting most. */
  function Groups(bs: seq<byte>): nat {
    if bs == [] then 0 else Groups(bs[..|bs| - 1]) * 0x80 + bs[|bs| - 1] % 0x80
  }

  lemma {:induction false} GroupsSnoc(bs: seq<byte>, b: byte)
    ensures Groups(bs + [b]) == Groups(bs) * 0x80 + b % 0x80 && Groups([]) == 0
  {
    assert (bs + [b])[..|bs|] == bs;
  }

  lemma {:induction false} FewGroups(a: byte, b: byte, c: byte, d: byte)
    ensures Groups([a]) == a % 0x80 && Groups([a, b]) == a % 0x80 * 0x80 + b % 0x80
    ensures Groups([a, b, c]) == (a % 0x80 * 0x80 + b % 0x80) * 0x80 + c % 0x80
    ensures Groups([a, b, c, d]) == ((a % 0x80 * 0x80 + b % 0x80) * 0x80 + c % 0x80) * 0x80 + d % 0x80
  {
    hide Groups;
    GroupsSnoc([], a);
    GroupsSnoc([a], b);
    GroupsSnoc([a, b], c);
    GroupsSnoc([a, b, c], d);
    assert [] + [a] == [a] && [a] + [b] == [a, b] && [a, b] + [c] == [a, b, c] && [a, b, c] + [d] == [a, b, c, d];
  }

  lemma {:induction false} Digits(v: nat)
    requires v < TOO_BIG
    ensures v == v / 0x80 * 0x80 + v % 0x80
    ensures v / 0x80 == v / 0x4000 * 0x80 + v / 0x80 % 0x80
    ensures v / 0x4000 == v / 0x20_0000 * 0x80 + v / 0x4000 % 0x80 && v / 0x20_0000 < 0x80
    ensures v < 0x4000 ==> v / 0x80 < 0x80
    ensures v < 0x20_0000 ==> v / 0x4000 < 0x80
    ensures v >= 0x80 ==> v / 0x80 > 0
    ensures v >= 0x4000 ==> v / 0x4000 > 0
    ensures v >= 0x20_0000 ==> v / 0x20_0000 > 0
  {
  }

  lemma {:induction false} TopBitOff(d: nat)
    requires d < 0x80
    ensures (d + 0x80) % 0x80 == d == d % 0x80
  {
  }

  /** A size is stored in as few groups as it needs, and only the last byte has its top bit clear. */
  lemma {:induction false} SizeLayout(v: nat)
    requires v < TOO_BIG
    ensures var bs := SizeBytes(v);
            && Groups(bs) == v
            && (forall k :: 0 <= k < |bs| ==> (bs[k] >= 0x80 <==> k < |bs| - 1))
            && (|bs| > 1 ==> bs[0] > 0x80)
  {
    var bs := SizeBytes(v);
    Digits(v);
    if v < 0x80 {
      FewGroups(bs[0], 0, 0, 0);
      TopBitOff(v);
    } else if v < 0x4000 {
      TwoGroups(v);
    } else if v < 0x20_0000 {
      ThreeGroups(v);
    } else {
      FourGroups(v);
    }
  }

  lemma {:induction false} TwoGroups(v: nat)
    requires 0x80 <= v < 0x4000
    ensures Groups(SizeBytes(v)) == v
  {
    var a, b := v / 0x80, v % 0x80;
    Digits(v);
    TopBitOff(a);
    TopBitOff(b);
    FewGroups(a + 0x80, b, 0, 0);
    hide Groups;
    assert SizeBytes(v) == [a + 0x80, b];
  }

  lemma {:induction false} ThreeGroups(v: nat)
    requires 0x4000 <= v < 0x20_0000
    ensures Groups(SizeBytes(v)) == v
  {
    var a, b, c := v / 0x4000, v / 0x80 % 0x80, v % 0x80;
    Digits(v);
    TopBitOff(a);
    TopBitOff(b);
    TopBitOff(c);
    FewGroups(a + 0x80, b + 0x80, c, 0);
    hide Groups;
    assert SizeBytes(v) == [a + 0x80, b + 0x80, c];
  }

  lemma {:induction false} FourGroups(v: nat)
    requires 0x20_0000 <= v < TOO_BIG
    ensures Groups(SizeBytes(v)) == v
  {
    var a, b, c, d := v / 0x20_0000, v / 0x4000 % 0x80, v / 0x80 % 0x80, v % 0x80;
    Digits(v);
    TopBitOff(a);
    TopBitOff(b);
    TopBitOff(c);
    TopBitOff(d);
    FewGroups(a + 0x80, b + 0x80, c + 0x80, d);
    hide Groups;
    assert SizeBytes(v) == [a + 0x80, b + 0x80, c + 0x80, d];
  }

  /** A stored chunk ends on a multiple of four bytes, the next one there is, with zeros. */
  lemma {:induction false} StoredIsAligned(bs: seq<byte>)
    ensures var s := Stored(bs);
            && |s| % 4 == 0 && |bs| <= |s| < |bs| + 4
            && s[..|bs|] == bs && forall k :: |bs| <= k < |s| ==> s[k] == 0
  {
  }

  lemma {:induction false} RemainderFits()
    ensures Pow256(4) > 4096
  {
  }

  lemma {:induction false} StoredDescribes(bs: seq<byte>, count: nat, frames: nat, remainder: nat)
    requires Describes(bs, count, frames, remainder)
    ensures Describes(Stored(bs), count, frames, remainder)
  {
    hide FromBytes;
    var s := Stored(bs);
    assert s[..8] == bs[..8] && s[8..16] == bs[8..16] && s[16..20] == bs[16..20] && s[20..24] == bs[20..24];
  }

  // ----- reading it back

  datatype Number = Number(value: nat, length: nat)

  /** The number at `at` of which `count` bytes have given `value`. A number of more than five bytes
      or one that runs out of the chunk counts as zero. */
  function ReadNumber(data: seq<byte>, at: nat, value: nat, count: nat): (r: Number)
    requires count <= 5
    ensures r.length > count
    decreases 6 - count
  {
    if at + count >= |data| then Number(0, count + 1)
    else
      var b := data[at + count];
      var v := (value * 0x80 + b % 0x80) % 0x1_0000_0000;
      if count + 1 > 5 then Number(0, count + 1)
      else if b >= 0x80 then ReadNumber(data, at, v, count + 1)
      else Number(v, count + 1)
  }

  /** The sizes from `at` on, up to the first zero, which is kept. */
  function ReadTable(data: seq<byte>, at: nat): seq<nat>
    decreases |data| - at
  {
    if at >= |data| then []
    else
      var n := ReadNumber(data, at, 0, 0);
      [n.value] + if n.value == 0 then [] else ReadTable(data, at + n.length)
  }

  function ThroughZero(sizes: seq<nat>): seq<nat> {
    if sizes == [] then []
    else [sizes[0]] + if sizes[0] == 0 then [] else ThroughZero(sizes[1..])
  }

  /** What zeros behind the table are read as. */
  function Tail(zeros: nat): seq<nat> {
    if zeros > 0 then [0] else []
  }

  lemma {:induction false} SizeReadsBack(data: seq<byte>, at: nat, v: nat)
    requires v < TOO_BIG && at + |SizeBytes(v)| <= |data|
    requires data[at..at + |SizeBytes(v)|] == SizeBytes(v)
    ensures ReadNumber(data, at, 0, 0) == Number(v, |SizeBytes(v)|)
  {
    var bs := SizeBytes(v);
    forall k | 0 <= k < |bs|
      ensures data[at + k] == bs[k]
    {
      assert data[at..at + |bs|][k] == bs[k];
    }
    if v < 0x80 {
      assert data[at] == v;
    } else if v < 0x4000 {
      ReadTwo(data, at, v);
    } else if v < 0x20_0000 {
      ReadThree(data, at, v);
    } else {
      ReadFour(data, at, v);
    }
  }

  /** Five bytes with the top bit set, and one more, are read as zero. */
  lemma {:induction false} OverlongIsZero(data: seq<byte>, at: nat)
    requires at + 6 <= |data| && forall k :: at <= k < at + 5 ==> data[k] >= 0x80
    ensures ReadNumber(data, at, 0, 0) == Number(0, 6)
  {
    Continued(data, at, 0, 0, 5);
  }

  /** A number of five bytes is kept modulo 2^32. */
  lemma {:induction false} FiveBytes(data: seq<byte>, at: nat)
    requires at + 5 <= |data| && data[at + 4] < 0x80 && forall k :: at <= k < at + 4 ==> data[k] >= 0x80
    ensures Groups(data[at..at + 5]) < Pow2(35)
    ensures ReadNumber(data, at, 0, 0) == Number(Groups(data[at..at + 5]) % 0x1_0000_0000, 5)
  {
    hide Groups, ReadNumber;
    var front, last := data[at..at + 4], data[at + 4];
    FourBytes(data, at);
    FifthByte(data, at, Groups(front));
    assert data[at..at + 5] == front + [last];
    GroupsSnoc(front, last);
    Pow2Values();
    Pow2Add(32, 3);
    assert Pow2(3) == 8;
  }

  lemma {:induction false} FifthByte(data: seq<byte>, at: nat, value: nat)
    requires at + 4 < |data| && data[at + 4] < 0x80
    ensures ReadNumber(data, at, value, 4) == Number((value * 0x80 + data[at + 4] % 0x80) % 0x1_0000_0000, 5)
  {
  }

  lemma {:induction false} FourBytes(data: seq<byte>, at: nat)
    requires at + 4 < |data| && forall k :: at <= k < at + 4 ==> data[k] >= 0x80
    ensures Groups(data[at..at + 4]) < TOO_BIG
    ensures ReadNumber(data, at, 0, 0) == ReadNumber(data, at, Groups(data[at..at + 4]), 4)
  {
    hide Groups, ReadNumber;
    var a, b, c, d := data[at], data[at + 1], data[at + 2], data[at + 3];
    assert data[at..at + 4] == [a, b, c, d];
    FewGroups(a, b, c, d);
    Onward(data, at, 0, 0);
    Onward(data, at, Groups([a]), 1);
    Onward(data, at, Groups([a, b]), 2);
    Onward(data, at, Groups([a, b, c]), 3);
  }

  lemma {:induction false} Onward(data: seq<byte>, at: nat, value: nat, count: nat)
    requires count < 4 && at + count < |data| && data[at + count] >= 0x80 && value < 0x20_0000
    ensures ReadNumber(data, at, value, count) ==
            ReadNumber(data, at, value * 0x80 + At(data, at + count) % 0x80, count + 1)
  {
    AddDigit(value, At(data, at + count) % 0x80);
  }

  /** So is a number the chunk ends in, and reading it goes past the end. */
  lemma {:induction false} TruncatedIsZero(data: seq<byte>, at: nat)
    requires at < |data| <= at + 5 && forall k :: at <= k < |data| ==> data[k] >= 0x80
    ensures ReadNumber(data, at, 0, 0) == Number(0, |data| - at + 1)
  {
    Continued(data, at, 0, 0, |data| - at);
  }

  /** Bytes with the top bit set lead on to the one behind them. */
  lemma {:induction false} Continued(data: seq<byte>, at: nat, value: nat, count: nat, n: nat)
    requires count <= n <= 5 && at + n <= |data| && forall k :: at + count <= k < at + n ==> data[k] >= 0x80
    ensures n == 5 || at + n == |data| ==> ReadNumber(data, at, value, count) == Number(0, n + 1)
    decreases n - count
  {
    if count < n {
      Continued(data, at, (value * 0x80 + data[at + count] % 0x80) % 0x1_0000_0000, count + 1, n);
    }
  }

  lemma {:induction false} AddDigit(value: nat, digit: nat)
    requires value < 0x20_0000 && digit < 0x80
    ensures (value * 0x80 + digit % 0x80) % 0x1_0000_0000 == value * 0x80 + digit
    ensures (digit + 0x80) % 0x80 == digit
  {
  }

  lemma {:induction false} ReadMore(data: seq<byte>, at: nat, value: nat, count: nat, digit: nat)
    requires count < 5 && at + count < |data| && digit < 0x80 && data[at + count] == digit + 0x80
    requires value < 0x20_0000
    ensures ReadNumber(data, at, value, count) == ReadNumber(data, at, value * 0x80 + digit, count + 1)
  {
    AddDigit(value, digit);
  }

  lemma {:induction false} ReadLast(data: seq<byte>, at: nat, value: nat, count: nat, digit: nat)
    requires count < 5 && at + count < |data| && digit < 0x80 && data[at + count] == digit
    requires value < 0x20_0000
    ensures ReadNumber(data, at, value, count) == Number(value * 0x80 + digit, count + 1)
  {
    AddDigit(value, digit);
  }

  lemma {:induction false} ReadTwo(data: seq<byte>, at: nat, v: nat)
    requires 0x80 <= v < 0x4000 && at + 2 <= |data|
    requires data[at] == v / 0x80 + 0x80 && data[at + 1] == v % 0x80
    ensures ReadNumber(data, at, 0, 0) == Number(v, 2)
  {
    hide ReadNumber;
    ReadMore(data, at, 0, 0, v / 0x80);
    ReadLast(data, at, v / 0x80, 1, v % 0x80);
  }

  lemma {:induction false} ReadThree(data: seq<byte>, at: nat, v: nat)
    requires 0x4000 <= v < 0x20_0000 && at + 3 <= |data|
    requires data[at] == v / 0x4000 + 0x80 && data[at + 1] == v / 0x80 % 0x80 + 0x80 && data[at + 2] == v % 0x80
    ensures ReadNumber(data, at, 0, 0) == Number(v, 3)
  {
    hide ReadNumber;
    ReadMore(data, at, 0, 0, v / 0x4000);
    ReadMore(data, at, v / 0x4000, 1, v / 0x80 % 0x80);
    ReadLast(data, at, v / 0x80, 2, v % 0x80);
  }

  lemma {:induction false} ReadFour(data: seq<byte>, at: nat, v: nat)
    requires 0x20_0000 <= v < TOO_BIG && at + 4 <= |data|
    requires data[at] == v / 0x20_0000 + 0x80 && data[at + 1] == v / 0x4000 % 0x80 + 0x80
    requires data[at + 2] == v / 0x80 % 0x80 + 0x80 && data[at + 3] == v % 0x80
    ensures ReadNumber(data, at, 0, 0) == Number(v, 4)
  {
    hide ReadNumber;
    Digits(v);
    var a, b, c, d := v / 0x20_0000, v / 0x4000 % 0x80, v / 0x80 % 0x80, v % 0x80;
    ReadFourDigits(data, at, a, b, c, d);
  }

  lemma {:induction false} ReadFourDigits(data: seq<byte>, at: nat, a: nat, b: nat, c: nat, d: nat)
    requires a < 0x80 && b < 0x80 && c < 0x80 && d < 0x80 && at + 4 <= |data|
    requires data[at] == a + 0x80 && data[at + 1] == b + 0x80 && data[at + 2] == c + 0x80 && data[at + 3] == d
    ensures ReadNumber(data, at, 0, 0) == Number(((a * 0x80 + b) * 0x80 + c) * 0x80 + d, 4)
  {
    hide ReadNumber;
    ReadMore(data, at, 0, 0, a);
    ReadMore(data, at, a, 1, b);
    ReadMore(data, at, a * 0x80 + b, 2, c);
    ReadLast(data, at, (a * 0x80 + b) * 0x80 + c, 3, d);
  }

  lemma {:induction false} FirstSize(data: seq<byte>, at: nat, sizes: seq<nat>, zeros: nat)
    requires sizes != [] && Encodable(sizes) && at <= |data| && data[at..] == TableBytes(sizes) + ZeroBytes(zeros)
    ensures var n := at + |SizeBytes(sizes[0])|;
            && n <= |data| && data[n..] == TableBytes(sizes[1..]) + ZeroBytes(zeros)
            && ReadTable(data, at) == [sizes[0]] + if sizes[0] == 0 then [] else ReadTable(data, n)
  {
    hide SizeBytes, ReadNumber, ZeroBytes;
    var bs := SizeBytes(sizes[0]);
    var rest := TableBytes(sizes[1..]) + ZeroBytes(zeros);
    assert TableBytes(sizes) + ZeroBytes(zeros) == bs + rest;
    SizeReadsBack(data, at, sizes[0]);
  }

  lemma {:induction false} PaddingReadsBack(data: seq<byte>, at: nat, zeros: nat)
    requires at <= |data| && data[at..] == ZeroBytes(zeros)
    ensures ReadTable(data, at) == Tail(zeros)
  {
    if zeros > 0 {
      assert data[at] == data[at..][0] == 0;
      ReadLast(data, at, 0, 0, 0);
    } else {
      assert |data[at..]| == 0;
    }
  }

  lemma {:induction false} UpToZero(sizes: seq<nat>, tail: seq<nat>)
    requires sizes != []
    ensures var first, rest := sizes[0], sizes[1..];
            [first] + (if first == 0 then [] else if 0 in rest then ThroughZero(rest) else rest + tail)
            == if 0 in sizes then ThroughZero(sizes) else sizes + tail
  {
    var first, rest := sizes[0], sizes[1..];
    assert sizes == [first] + rest;
    if first != 0 {
      assert 0 in sizes <==> 0 in rest;
      assert [first] + (rest + tail) == sizes + tail;
    }
  }

  lemma {:induction false} TableReadsBack(data: seq<byte>, at: nat, sizes: seq<nat>, zeros: nat)
    requires Encodable(sizes) && at <= |data| && data[at..] == TableBytes(sizes) + ZeroBytes(zeros)
    ensures ReadTable(data, at) == if 0 in sizes then ThroughZero(sizes) else sizes + Tail(zeros)
    decreases |sizes|
  {
    hide ReadTable, SizeBytes, ZeroBytes;
    if sizes == [] {
      assert data[at..] == ZeroBytes(zeros);
      PaddingReadsBack(data, at, zeros);
      assert sizes + Tail(zeros) == Tail(zeros);
    } else {
      FirstSize(data, at, sizes, zeros);
      hide TableBytes, Tail, ThroughZero;
      TableReadsBack(data, at + |SizeBytes(sizes[0])|, sizes[1..], zeros);
      UpToZero(sizes, Tail(zeros));
    }
  }

  /** Decoding the stored table gives the sizes back, with a zero behind them exactly when the chunk
      was padded; a size of zero would end the table early. */
  lemma {:induction false} TableRoundTrip(sizes: seq<nat>, header: seq<byte>)
    requires Encodable(sizes) && |header| == HEADER
    ensures var chunk := header + TableBytes(sizes);
            && (0 !in sizes ==>
                 ReadTable(Stored(chunk), HEADER) == sizes + Tail(Padding(|chunk|)))
            && (0 in sizes ==> ReadTable(Stored(chunk), HEADER) == ThroughZero(sizes))
  {
    var chunk := header + TableBytes(sizes);
    assert Stored(chunk)[HEADER..] == TableBytes(sizes) + ZeroBytes(Padding(|chunk|));
    hide ReadTable, TableBytes, ThroughZero;
    TableReadsBack(Stored(chunk), HEADER, sizes, Padding(|chunk|));
  }

  lemma {:induction false} NoTableBytes()
    ensures TableBytes([]) == []
  {
  }

  lemma {:induction false} TableBytesSnoc(sizes: seq<nat>, v: nat)
    requires Encodable(sizes) && v < TOO_BIG
    ensures TableBytes(sizes + [v]) == TableBytes(sizes) + SizeBytes(v)
  {
    hide SizeBytes;
    if sizes == [] {
      assert (sizes + [v])[1..] == [];
    } else {
      assert (sizes + [v])[1..] == sizes[1..] + [v];
      TableBytesSnoc(sizes[1..], v);
    }
  }

  lemma {:induction false} TableBytesPrefix(sizes: seq<nat>, k: nat)
    requires k <= |sizes| && Encodable(sizes[..k])
    ensures |TableBytes(sizes[..k])| <= |TableBytes(sizes)|
    ensures k < |sizes| && sizes[k] < TOO_BIG ==>
              |TableBytes(sizes[..k])| + |SizeBytes(sizes[k])| <= |TableBytes(sizes)|
    ensures k < |sizes| && sizes[k] >= TOO_BIG ==> |TableBytes(sizes[..k])| == |TableBytes(sizes)|
  {
    hide SizeBytes;
    if k > 0 {
      assert sizes[0] == sizes[..k][0];
      assert sizes[..k][1..] == sizes[1..][..k - 1];
      TableBytesPrefix(sizes[1..], k - 1);
    }
  }

  // ----- the room for the encoded table

  /** The bytes set aside for the table of `count` packets. */
  function Allotted(count: nat): nat {
    100 + 2 * count
  }

  /** The encoding takes more bytes than are set aside for it. */
  predicate Overruns(sizes: seq<nat>) {
    HEADER + |TableBytes(sizes)| > Allotted(|sizes|)
  }

  /** How many sizes take `n` bytes. */
  function OfLength(sizes: seq<nat>, n: nat): nat
    requires Encodable(sizes)
  {
    if sizes == [] then 0
    else (if |SizeBytes(sizes[0])| == n then 1 else 0) + OfLength(sizes[1..], n)
  }

  lemma {:induction false} TableLength(sizes: seq<nat>)
    requires Encodable(sizes)
    ensures |sizes| == OfLength(sizes, 1) + OfLength(sizes, 2) + OfLength(sizes, 3) + OfLength(sizes, 4)
    ensures |TableBytes(sizes)|
         == OfLength(sizes, 1) + 2 * OfLength(sizes, 2) + 3 * OfLength(sizes, 3) + 4 * OfLength(sizes, 4)
  {
    hide SizeBytes;
    if sizes != [] {
      TableLength(sizes[1..]);
    }
  }

  /** The room is exceeded exactly when the sizes of three bytes, with those of four counted twice,
      are more than 76 above the sizes of one byte. */
  lemma {:induction false} OverrunsExactly(sizes: seq<nat>)
    requires Encodable(sizes)
    ensures Overruns(sizes) <==> OfLength(sizes, 3) + 2 * OfLength(sizes, 4) > 76 + OfLength(sizes, 1)
  {
    hide TableBytes, OfLength, Encodable;
    TableLength(sizes);
  }

  /** Packets of 16384 bytes and more, which incompressible stereo gives, exceed it from 77 on. */
  lemma {:induction false} LargePacketsOverrun(sizes: seq<nat>)
    requires forall k :: 0 <= k < |sizes| ==> 0x4000 <= sizes[k] < 0x20_0000
    ensures Overruns(sizes) <==> |sizes| > 76
  {
    LargePackets(sizes);
    OverrunsExactly(sizes);
  }

  lemma {:induction false} LargePackets(sizes: seq<nat>)
    requires forall k :: 0 <= k < |sizes| ==> 0x4000 <= sizes[k] < 0x20_0000
    ensures Encodable(sizes) && OfLength(sizes, 1) == OfLength(sizes, 4) == 0 && OfLength(sizes, 3) == |sizes|
  {
    if sizes != [] {
      LargePackets(sizes[1..]);
    }
  }

  // ----- the table in memory

  /** How far the decoding loop has come. */
  ghost predicate ReadSoFar(done: seq<nat>, data: seq<byte>, at: nat, value: nat) {
    done + (if value == 0 then [] else ReadTable(data, at)) == ReadTable(data, HEADER)
  }

  lemma {:induction false} ReadNone(data: seq<byte>)
    ensures ReadSoFar([], data, HEADER, 1)
  {
  }

  lemma {:induction false} ReadOne(done: seq<nat>, data: seq<byte>, at: nat, value: nat)
    requires value != 0 && at < |data| && ReadSoFar(done, data, at, value)
    ensures var n := ReadNumber(data, at, 0, 0); ReadSoFar(done + [n.value], data, at + n.length, n.value)
  {
    hide ReadNumber, ReadTable, ThroughZero, Tail;
    ReadTableUnfolds(data, at);
    var n := ReadNumber(data, at, 0, 0);
    var rest := if n.value == 0 then [] else ReadTable(data, at + n.length);
    assert done + ([n.value] + rest) == (done + [n.value]) + rest;
  }

  lemma {:induction false} ReadTableUnfolds(data: seq<byte>, at: nat)
    requires at < |data|
    ensures var n := ReadNumber(data, at, 0, 0);
            ReadTable(data, at) == [n.value] + if n.value == 0 then [] else ReadTable(data, at + n.length)
  {
    hide ReadNumber;
  }

  lemma {:induction false} ReadAll(done: seq<nat>, data: seq<byte>, at: nat, value: nat)
    requires ReadSoFar(done, data, at, value) && (at >= |data| || value == 0)
    ensures done == ReadTable(data, HEADER)
  {
  }

  /** The sum of the first `block` sizes. */
  function Offset(sizes: seq<nat>, block: nat): nat
    requires block <= |sizes|
  {
    if block == 0 then 0 else Offset(sizes, block - 1) + sizes[block - 1]
  }

  class PacketTable {
    var current: nat
    var count: nat
    var capacity: nat
    var packetSize: array<nat>

    ghost predicate Valid()
      reads this, packetSize
    {
      count <= capacity == packetSize.Length
    }

    ghost function Sizes(): (s: seq<nat>)
      reads this, packetSize
      requires Valid()
    {
      packetSize[..count]
    }

    constructor (initialCount: nat)
      ensures Valid() && fresh(packetSize)
      ensures Sizes() == [] && current == 0 && capacity == initialCount
    {
      current, count, capacity := 0, 0, initialCount;
      packetSize := new nat[initialCount](_ => 0);
    }

    /** A full table grows by half, so it must have room for two at least. */
    method Append(value: nat)
      requires Valid() && (count < capacity || capacity >= 2)
      modifies this, packetSize
      ensures Valid() && (packetSize == old(packetSize) || fresh(packetSize))
      ensures Sizes() == old(Sizes()) + [value]
      ensures current == old(current) && capacity >= old(capacity)
    {
      if count >= capacity {
        var newCount := capacity + capacity / 2;
        var temp := new nat[newCount](_ => 0);
        for k := 0 to count
          invariant unchanged(this) && unchanged(packetSize)
          invariant temp[..k] == packetSize[..k]
        {
          temp[k] := packetSize[k];
        }
        packetSize := temp;
        capacity := newCount;
      }
      packetSize[count] := value;
      count := count + 1;
    }

    /** The size of the next packet, 0 past the end. */
    method NextPacketSize() returns (size: nat)
      requires Valid()
      modifies this`current
      ensures size == if old(current) < count then Sizes()[old(current)] else 0
      ensures current == if old(current) < count then old(current) + 1 else old(current)
    {
      if current >= count {
        return 0;
      }
      size := packetSize[current];
      current := current + 1;
    }

    /** Where a block starts in the data. */
    method BlockOffset(block: nat) returns (offset: nat)
      requires Valid() && block <= count
      ensures offset == Offset(Sizes(), block)
    {
      offset := 0;
      for k := 0 to block
        invariant offset == Offset(Sizes(), k)
      {
        offset := offset + packetSize[k];
      }
    }

    /** The table as a chunk; no data when a size needs more than 28 bits. The source does not compare
        the encoding with the room it has set aside; where it would write past it, this method stops. */
    method Encode(frames: nat, partial: nat) returns (data: array<byte>, size: nat, ok: bool, overrun: bool)
      requires Valid() && partial <= 4096
      ensures overrun == Overruns(Sizes())
      ensures ok == (Encodable(Sizes()) && !overrun)
      ensures size <= data.Length == Allotted(count)
      ensures ok ==> data[..size] == Header(count, frames, 4096 - partial) + TableBytes(Sizes())
      ensures ok && count < Pow256(8) && frames < Pow256(8) ==>
                Describes(data[..size], count, frames, 4096 - partial)
      ensures fresh(data)
    {
      hide SizeBytes, TableBytes, Header, Describes, Pow256;
      if count < Pow256(8) && frames < Pow256(8) {
        assert 4096 - partial < Pow256(4) by { RemainderFits(); }
        HeaderDescribes(count, frames, 4096 - partial, TableBytes(Sizes()));
      }
      data := new byte[Allotted(count)](_ => 0);
      size := HEADER;
      ok, overrun := true, false;
      PutHeader(data, Header(count, frames, 4096 - partial));
      ghost var header := data[..HEADER];
      assert Sizes()[..0] == [];
      NoTableBytes();
      for k := 0 to count
        invariant Valid() && Encodable(Sizes()[..k])
        invariant HEADER <= size <= data.Length && data[..size] == header + TableBytes(Sizes()[..k])
        invariant fresh(data)
      {
        var value := packetSize[k];
        TableBytesPrefix(Sizes(), k);
        assert Sizes()[..k + 1] == Sizes()[..k] + [value];
        if value >= TOO_BIG {
          ok, size := false, 0;
          return;
        }
        if size + |SizeBytes(value)| > data.Length {
          ok, overrun := false, true;
          return;
        }
        TableBytesSnoc(Sizes()[..k], value);
        size := PutSize(data, size, value);
      }
      assert Sizes()[..count] == Sizes();
    }

    static method PutHeader(data: array<byte>, header: seq<byte>)
      requires data.Length >= |header|
      modifies data
      ensures data[..|header|] == header
    {
      for k := 0 to |header|
        invariant data[..k] == header[..k]
      {
        data[k] := header[k];
      }
    }

    static method PutSize(data: array<byte>, at: nat, value: nat) returns (size: nat)
      requires value < TOO_BIG && at + |SizeBytes(value)| <= data.Length
      modifies data
      ensures size == at + |SizeBytes(value)| && data[..size] == old(data[..at]) + SizeBytes(value)
    {
      size := at;
      if value < 0x80 {
        data[size] := value;
        size := size + 1;
        return;
      }
      if value < 0x4000 {
        data[size], data[size + 1] := value / 0x80 + 0x80, value % 0x80;
        size := size + 2;
        return;
      }
      if value < 0x20_0000 {
        data[size], data[size + 1], data[size + 2] := value / 0x4000 + 0x80, value / 0x80 % 0x80 + 0x80, value % 0x80;
        size := size + 3;
        return;
      }
      data[size], data[size + 1] := value / 0x20_0000 + 0x80, value / 0x4000 % 0x80 + 0x80;
      data[size + 2], data[size + 3] := value / 0x80 % 0x80 + 0x80, value % 0x80;
      size := size + 4;
    }

    /** Decode a chunk of `paktSize` bytes, kept in a buffer five bytes longer. */
    static method ReadDecode(paktData: array<byte>, paktSize: nat) returns (info: PacketTable)
      requires paktData.Length == paktSize + 5
      ensures info.Valid() && fresh(info) && fresh(info.packetSize) && info.current == 0
      ensures info.Sizes() == ReadTable(paktData[..paktSize], HEADER)
    {
      hide ReadNumber, ReadTable, ReadSoFar;
      ghost var chunk := paktData[..paktSize];
      info := new PacketTable(paktSize / 4);
      var bcount, value := HEADER, 1;
      ReadNone(chunk);
      while bcount < paktSize && value != 0
        invariant info.Valid() && fresh(info) && fresh(info.packetSize) && info.current == 0
        invariant info.capacity >= paktSize / 4 && bcount >= HEADER
        invariant ReadSoFar(info.Sizes(), chunk, bcount, value)
        decreases paktSize - bcount
      {
        ReadOne(info.Sizes(), chunk, bcount, value);
        var length;
        value, length := DecodeNumber(paktData, paktSize, bcount);
        bcount := bcount + length;
        info.Append(value);
      }
      ReadAll(info.Sizes(), chunk, bcount, value);
    }

    /** The inner loop of the decoding. */
    static method DecodeNumber(paktData: array<byte>, paktSize: nat, at: nat) returns (value: nat, count: nat)
      requires paktData.Length == paktSize + 5 && at < paktSize
      ensures Number(value, count) == ReadNumber(paktData[..paktSize], at, 0, 0)
    {
      ghost var chunk := paktData[..paktSize];
      value, count := 0, 0;
      var more := true;
      while more
        invariant count <= 5 && at + count <= paktSize
        invariant if more then ReadNumber(chunk, at, value, count) == ReadNumber(chunk, at, 0, 0)
                  else Number(value, count) == ReadNumber(chunk, at, 0, 0)
        decreases more, 6 - count
      {
        var b := paktData[at + count];
        value := (value * 0x80 + b % 0x80) % 0x1_0000_0000;
        count := count + 1;
        if count > 5 || at + count > paktSize {
          value := 0;
          return;
        }
        more := b >= 0x80;
      }
    }
  }
}
