/** The format strings of file headers: what printing an item writes, what parsing reads, and that
    parsing undoes printing. */
module HeaderFormat {
  import opened Bits
  import opened Common

  /** One conversion of a format string, by its letter; raw bytes come with their number. */
  datatype Conversion =
    | Little            // e
    | Big               // E
    | Marker            // m
    | Number(width: nat) // 1, 2, 3, 4, 8
    | Raw(size: nat)    // b

  datatype Value = Int(v: int) | Bytes(bs: seq<byte>)

  /** A conversion with its argument, if it takes one. */
  datatype Item = Item(conversion: Conversion, value: Value)

  predicate WidthOk(width: nat) {
    width == 1 || width == 2 || width == 3 || width == 4 || width == 8
  }

  /** The argument is one that the conversion takes. */
  predicate Matches(item: Item) {
    match item.conversion
    case Little => true
    case Big => true
    case Marker => item.value.Int?
    case Number(width) => item.value.Int? && WidthOk(width)
    case Raw(size) => item.value.Bytes? && |item.value.bs| == size
  }

  predicate AllMatch(items: seq<Item>) {
    forall k :: 0 <= k < |items| ==> Matches(items[k])
  }

  // ----- numbers as bytes

  /** The low `n` bytes of a two's-complement number, low byte first. */
  function LittleBytes(v: int, n: nat): (bs: seq<byte>)
    ensures |bs| == n
    decreases n, v
  {
    if n == 0 then [] else [v % 256] + LittleBytes(v / 256, n - 1)
  }

  function Reversed(bs: seq<byte>): (r: seq<byte>)
    ensures |r| == |bs|
  {
    if bs == [] then [] else Reversed(bs[1..]) + [bs[0]]
  }

  function FromLittle(bs: seq<byte>): nat {
    if bs == [] then 0 else bs[0] + 256 * FromLittle(bs[1..])
  }

  /** What is left of an argument in a field: all numbers are unsigned but those of eight bytes. */
  function Reduced(v: int, width: nat): int {
    Interpret(v % Pow256(width), width)
  }

  function Interpret(u: nat, width: nat): int {
    if width == 8 && u >= 0x8000_0000_0000_0000 then u - 0x1_0000_0000_0000_0000 else u
  }

  function FieldBytes(v: int, width: nat, big: bool): (bs: seq<byte>)
    ensures |bs| == width
  {
    if big then Reversed(LittleBytes(v, width)) else LittleBytes(v, width)
  }

  function FieldValue(bs: seq<byte>, big: bool): int {
    Interpret(FromLittle(if big then Reversed(bs) else bs), |bs|)
  }

  lemma {:induction false} ReversedSnoc(bs: seq<byte>, b: byte)
    ensures Reversed(bs + [b]) == [b] + Reversed(bs)
  {
    if bs != [] {
      assert (bs + [b])[1..] == bs[1..] + [b];
      ReversedSnoc(bs[1..], b);
    }
  }

  lemma {:induction false} ReversedTwice(bs: seq<byte>)
    ensures Reversed(Reversed(bs)) == bs
  {
    if bs != [] {
      ReversedTwice(bs[1..]);
      ReversedSnoc(Reversed(bs[1..]), bs[0]);
    }
  }

  lemma {:induction false} TwoRemainders(v: int, p: nat)
    requires p > 0
    ensures v % 256 + 256 * (v / 256 % p) == v % (256 * p)
  {
    var u := v / 256;
    var q, r := u / p, u % p;
    OneQuotient(v, u, q, r, p);
    DivUnique(v, 256 * p, q, 256 * r + v % 256);
  }

  lemma {:induction false} OneQuotient(v: int, u: int, q: int, r: int, p: nat)
    requires p > 0 && u == v / 256 && q == u / p && r == u % p
    ensures 0 <= r < p && v == q * (256 * p) + (256 * r + v % 256)
  {
    assert u == q * p + r;
    assert 256 * (q * p) == q * (256 * p);
  }

  lemma {:induction false} LittleReadsBack(v: int, n: nat)
    ensures FromLittle(LittleBytes(v, n)) == v % Pow256(n)
    decreases n
  {
    if n > 0 {
      LittleReadsBack(v / 256, n - 1);
      TwoRemainders(v, Pow256(n - 1));
      LowByteFirst(v, n);
    }
  }

  lemma {:induction false} LowByteFirst(v: int, n: nat)
    requires n > 0
    ensures FromLittle(LittleBytes(v, n)) == v % 256 + 256 * FromLittle(LittleBytes(v / 256, n - 1))
  {
    assert LittleBytes(v, n)[1..] == LittleBytes(v / 256, n - 1);
  }

  lemma {:induction false} FieldReadsBack(v: int, width: nat, big: bool)
    ensures FieldValue(FieldBytes(v, width, big), big) == Reduced(v, width)
  {
    LittleReadsBack(v, width);
    ReversedTwice(LittleBytes(v, width));
  }

  /** A number that fits its field comes back as it is. */
  lemma {:induction false} FittingIsKept(v: int, width: nat)
    requires WidthOk(width)
    requires if width == 8 then -0x8000_0000_0000_0000 <= v < 0x8000_0000_0000_0000 else 0 <= v < Pow256(width)
    ensures Reduced(v, width) == v
  {
    assert Pow256(8) == 0x1_0000_0000_0000_0000;
  }

  // ----- printing and parsing

  /** The bytes of one item; a marker is kept in memory order, low byte first. */
  function Put(item: Item, big: bool): seq<byte>
    requires Matches(item)
  {
    match item.conversion
    case Little => []
    case Big => []
    case Marker => FieldBytes(item.value.v, 4, false)
    case Number(width) => FieldBytes(item.value.v, width, big)
    case Raw(_) => item.value.bs
  }

  function EndianAfter(c: Conversion, big: bool): bool {
    match c
    case Little => false
    case Big => true
    case _ => big
  }

  function Print(items: seq<Item>, big: bool): seq<byte>
    requires AllMatch(items)
  {
    if items == [] then []
    else Put(items[0], big) + Print(items[1..], EndianAfter(items[0].conversion, big))
  }

  function Width(c: Conversion): nat {
    match c
    case Little => 0
    case Big => 0
    case Marker => 4
    case Number(width) => width
    case Raw(size) => size
  }

  /** What one conversion makes of the bytes it reads. */
  function Get(c: Conversion, bs: seq<byte>, big: bool): seq<Value>
    requires |bs| == Width(c)
  {
    match c
    case Little => []
    case Big => []
    case Marker => [Int(FieldValue(bs, false))]
    case Number(width) => [Int(FieldValue(bs, big))]
    case Raw(_) => [Bytes(bs)]
  }

  function TotalWidth(format: seq<Conversion>): nat {
    if format == [] then 0 else Width(format[0]) + TotalWidth(format[1..])
  }

  function Parse(format: seq<Conversion>, big: bool, data: seq<byte>): seq<Value>
    requires TotalWidth(format) <= |data|
  {
    if format == [] then []
    else
      var n := Width(format[0]);
      Get(format[0], data[..n], big) + Parse(format[1..], EndianAfter(format[0], big), data[n..])
  }

  function FormatOf(items: seq<Item>): (f: seq<Conversion>)
    ensures |f| == |items|
  {
    if items == [] then [] else [items[0].conversion] + FormatOf(items[1..])
  }

  /** The arguments as they come back. */
  function Returned(item: Item): seq<Value>
    requires Matches(item)
  {
    match item.conversion
    case Little => []
    case Big => []
    case Marker => [Int(Reduced(item.value.v, 4))]
    case Number(width) => [Int(Reduced(item.value.v, width))]
    case Raw(_) => [item.value]
  }

  function AllReturned(items: seq<Item>): seq<Value>
    requires AllMatch(items)
  {
    if items == [] then [] else Returned(items[0]) + AllReturned(items[1..])
  }

  lemma {:induction false} GetPut(item: Item, big: bool)
    requires Matches(item)
    ensures |Put(item, big)| == Width(item.conversion)
    ensures Get(item.conversion, Put(item, big), big) == Returned(item)
  {
    hide FieldBytes, FieldValue, Reduced;
    match item.conversion
    case Little =>
    case Big =>
    case Marker => FieldReadsBack(item.value.v, 4, false);
    case Number(width) => FieldReadsBack(item.value.v, width, big);
    case Raw(_) =>
  }

  lemma {:induction false} PrintLength(items: seq<Item>, big: bool)
    requires AllMatch(items)
    ensures |Print(items, big)| == TotalWidth(FormatOf(items))
  {
    if items != [] {
      GetPut(items[0], big);
      assert FormatOf(items)[1..] == FormatOf(items[1..]);
      PrintLength(items[1..], EndianAfter(items[0].conversion, big));
    }
  }

  /** Parsing with the same format takes exactly the printed bytes and gives every argument back,
      reduced to its field. */
  lemma {:induction false} ParsePrinted(items: seq<Item>, big: bool, rest: seq<byte>)
    requires AllMatch(items)
    ensures TotalWidth(FormatOf(items)) == |Print(items, big)|
    ensures Parse(FormatOf(items), big, Print(items, big) + rest) == AllReturned(items)
  {
    hide Print, Parse, TotalWidth, FormatOf, AllReturned, Put, Get, Width, Returned;
    PrintLength(items, big);
    if items == [] {
      NothingToParse(items, big, rest);
    } else {
      var next := EndianAfter(items[0].conversion, big);
      ParsePrinted(items[1..], next, rest);
      ParseFirst(items, big, rest);
    }
  }

  lemma {:induction false} NothingToParse(items: seq<Item>, big: bool, rest: seq<byte>)
    requires items == []
    ensures Parse(FormatOf(items), big, Print(items, big) + rest) == AllReturned(items)
  {
  }

  lemma {:induction false} ParseFirst(items: seq<Item>, big: bool, rest: seq<byte>)
    requires items != [] && AllMatch(items)
    requires var next := EndianAfter(items[0].conversion, big);
             && TotalWidth(FormatOf(items[1..])) == |Print(items[1..], next)|
             && Parse(FormatOf(items[1..]), next, Print(items[1..], next) + rest) == AllReturned(items[1..])
    requires TotalWidth(FormatOf(items)) == |Print(items, big)|
    ensures Parse(FormatOf(items), big, Print(items, big) + rest) == AllReturned(items)
  {
    hide Put, Get, Width, Returned;
    var here, later := Put(items[0], big), Print(items[1..], EndianAfter(items[0].conversion, big));
    GetPut(items[0], big);
    FormatOfRest(items);
    SeqAssociative(here, later, rest);
    Parts(here, later + rest);
  }

  lemma {:induction false} FormatOfRest(items: seq<Item>)
    requires items != []
    ensures FormatOf(items)[0] == items[0].conversion && FormatOf(items)[1..] == FormatOf(items[1..])
  {
  }

  lemma {:induction false} Parts<T>(a: seq<T>, b: seq<T>)
    ensures (a + b)[..|a|] == a && (a + b)[|a|..] == b
  {
  }
}
