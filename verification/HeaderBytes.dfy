/** The bytes of a header by their places: which byte of a number comes where, after each switch of the
    byte order, in what is printed and in what is parsed. */
module HeaderBytes {
  import opened Bits
  import opened Common
  import opened HeaderFormat

  // ----- one field

  lemma {:induction false} LowBytesAt(v: int, n: nat, k: nat)
    requires k < n
    ensures LittleBytes(v, n)[k] == v / Pow256(k) % 256
    decreases n
  {
    if k > 0 {
      LowBytesAt(v / 256, n - 1, k - 1);
      DivideTwice(v, Pow256(k - 1));
    } else {
      assert Pow256(0) == 1;
    }
  }

  lemma {:induction false} ReversedAt(bs: seq<byte>, k: nat)
    requires k < |bs|
    ensures Reversed(bs)[k] == bs[|bs| - 1 - k]
  {
    if k < |bs| - 1 {
      ReversedAt(bs[1..], k);
    }
  }

  /** The byte that counts 256 to the power of `k`: the k-th from the front, or from the back. */
  lemma {:induction false} FieldByteAt(v: int, n: nat, big: bool, k: nat)
    requires k < n
    ensures FieldBytes(v, n, big)[if big then n - 1 - k else k] == v / Pow256(k) % 256
  {
    LowBytesAt(v, n, k);
    if big {
      ReversedAt(LittleBytes(v, n), n - 1 - k);
    }
  }

  lemma {:induction false} BigFirst(v: int, n: nat)
    ensures FieldBytes(v, n, true) == BigEndian(v % Pow256(n), n)
    decreases n
  {
    if n > 0 {
      BigFirst(v / 256, n - 1);
      var p := Pow256(n - 1);
      TwoRemainders(v, p);
      var u := v % (256 * p);
      DivUnique(u, 256, v / 256 % p, v % 256);
      assert LittleBytes(v, n)[1..] == LittleBytes(v / 256, n - 1);
    }
  }

  /** A field is read as the number its bytes denote; only eight bytes are signed. */
  lemma {:induction false} FieldDenotes(bs: seq<byte>, big: bool)
    ensures var u := FromBytes(if big then bs else Reversed(bs));
            FieldValue(bs, big) ==
            if |bs| == 8 && u >= 0x8000_0000_0000_0000 then u - 0x1_0000_0000_0000_0000 else u
  {
    LowFirst(if big then Reversed(bs) else bs);
    ReversedTwice(bs);
  }

  lemma {:induction false} LowFirst(bs: seq<byte>)
    ensures FromLittle(bs) == FromBytes(Reversed(bs))
  {
    hide FromBytes;
    FromBytesSnoc([], 0);
    if bs != [] {
      LowFirst(bs[1..]);
      FromBytesSnoc(Reversed(bs[1..]), bs[0]);
    }
  }

  /** What comes back of an argument differs from it by whole turns of its field. */
  lemma {:induction false} ReducedRange(v: int, n: nat) returns (turns: int)
    requires WidthOk(n)
    ensures Reduced(v, n) == v + turns * Pow256(n)
    ensures if n == 8 then -0x8000_0000_0000_0000 <= Reduced(v, n) < 0x8000_0000_0000_0000
            else 0 <= Reduced(v, n) < Pow256(n)
  {
    var p := Pow256(n);
    assert Pow256(8) == 0x1_0000_0000_0000_0000;
    var q := v / p;
    assert v == q * p + v % p;
    turns := -q;
    if Reduced(v, n) != v % p {
      turns := -q - 1;
      assert (-q - 1) * p == -q * p - p;
    }
  }

  // ----- the byte order

  predicate IsSwitch(c: Conversion) {
    c.Little? || c.Big?
  }

  /** The order behind a format. */
  function OrderAfter(format: seq<Conversion>, big: bool): bool {
    if format == [] then big else OrderAfter(format[1..], EndianAfter(format[0], big))
  }

  /** It is that of the last switch, whatever stands before it. */
  lemma {:induction false} LastSwitchWins(a: seq<Conversion>, switch: Conversion, c: seq<Conversion>, big: bool)
    requires IsSwitch(switch) && forall k :: 0 <= k < |c| ==> !IsSwitch(c[k])
    ensures OrderAfter(a + [switch] + c, big) <==> switch.Big?
  {
    var format := a + [switch] + c;
    if a == [] {
      assert format[1..] == c;
      NoSwitch(c, switch.Big?);
    } else {
      assert format[1..] == a[1..] + [switch] + c;
      LastSwitchWins(a[1..], switch, c, EndianAfter(a[0], big));
    }
  }

  /** Without a switch it stays. */
  lemma {:induction false} NoSwitch(c: seq<Conversion>, big: bool)
    requires forall k :: 0 <= k < |c| ==> !IsSwitch(c[k])
    ensures OrderAfter(c, big) == big
  {
    if c != [] {
      NoSwitch(c[1..], big);
    }
  }

  // ----- printing

  lemma {:induction false} PrintSplits(a: seq<Item>, b: seq<Item>, big: bool)
    requires AllMatch(a) && AllMatch(b)
    ensures AllMatch(a + b)
    ensures Print(a + b, big) == Print(a, big) + Print(b, OrderAfter(FormatOf(a), big))
    decreases |a|
  {
    hide Put, EndianAfter, Matches;
    if a == [] {
      assert a + b == b;
    } else {
      var next := EndianAfter(a[0].conversion, big);
      assert (a + b)[1..] == a[1..] + b;
      FormatOfRest(a);
      PrintSplits(a[1..], b, next);
      SeqAssociative(Put(a[0], big), Print(a[1..], next), Print(b, OrderAfter(FormatOf(a[1..]), next)));
    }
  }

  /** The bytes of one item among others. */
  lemma {:induction false} ItemPrinted(a: seq<Item>, item: Item, d: seq<Item>, big: bool)
    requires AllMatch(a) && Matches(item) && AllMatch(d)
    ensures AllMatch(a + [item] + d)
    ensures var all, at, n := Print(a + [item] + d, big), |Print(a, big)|, Width(item.conversion);
            at + n <= |all| && all[at..at + n] == Put(item, OrderAfter(FormatOf(a), big))
  {
    hide Print, Put, OrderAfter;
    var order := OrderAfter(FormatOf(a), big);
    assert a + [item] + d == a + ([item] + d);
    PrintSplits(a, [item] + d, big);
    FirstPrinted(item, d, order);
    GetPut(item, order);
  }

  lemma {:induction false} FirstPrinted(item: Item, d: seq<Item>, big: bool)
    requires Matches(item) && AllMatch(d)
    ensures AllMatch([item] + d)
    ensures Print([item] + d, big) == Put(item, big) + Print(d, EndianAfter(item.conversion, big))
  {
    assert ([item] + d)[1..] == d;
  }

  /** A number whose last switch before it is to big-endian order is printed with its most significant
      byte first, after one to little-endian order with the least; a marker always with the least. */
  lemma {:induction false} PrintedOrder(
      a: seq<Item>, switch: Item, c: seq<Item>, item: Item, d: seq<Item>, big: bool)
    requires AllMatch(a) && IsSwitch(switch.conversion) && AllMatch(c) && Matches(item) && AllMatch(d)
    requires forall k :: 0 <= k < |c| ==> !IsSwitch(c[k].conversion)
    requires item.conversion.Number? || item.conversion.Marker?
    ensures var items, front, n := a + [switch] + c + [item] + d, a + [switch] + c, Width(item.conversion);
            && AllMatch(items) && AllMatch(front)
            && var at, bytes := |Print(front, big)|, Print(items, big);
               && at + n <= |bytes|
               && (item.conversion.Number? && switch.conversion.Big? ==>
                    bytes[at..at + n] == BigEndian(item.value.v % Pow256(n), n))
               && (item.conversion.Marker? || switch.conversion.Little? ==>
                    forall k :: 0 <= k < n ==> bytes[at..at + n][k] == item.value.v / Pow256(k) % 256)
  {
    hide Print, OrderAfter, FieldBytes, BigEndian, Pow256;
    var front, n := a + [switch] + c, Width(item.conversion);
    FormatOfThree(a, switch, c);
    LastSwitchWins(FormatOf(a), switch.conversion, FormatOf(c), big);
    ItemPrinted(front, item, d, big);
    BigFirst(item.value.v, n);
    forall k | 0 <= k < n
      ensures FieldBytes(item.value.v, n, false)[k] == item.value.v / Pow256(k) % 256
    {
      FieldByteAt(item.value.v, n, false, k);
    }
  }

  lemma {:induction false} FormatOfAppend(a: seq<Item>, b: seq<Item>)
    ensures FormatOf(a + b) == FormatOf(a) + FormatOf(b)
  {
    if a == [] {
      assert a + b == b;
    } else {
      assert (a + b)[1..] == a[1..] + b;
      FormatOfAppend(a[1..], b);
    }
  }

  lemma {:induction false} FormatAt(items: seq<Item>, k: nat)
    requires k < |items|
    ensures FormatOf(items)[k] == items[k].conversion
  {
    if k > 0 {
      FormatAt(items[1..], k - 1);
    }
  }

  lemma {:induction false} FormatOfThree(a: seq<Item>, switch: Item, c: seq<Item>)
    ensures FormatOf(a + [switch] + c) == FormatOf(a) + [switch.conversion] + FormatOf(c)
    ensures forall k :: 0 <= k < |c| ==> FormatOf(c)[k] == c[k].conversion
  {
    FormatOfAppend(a + [switch], c);
    FormatOfAppend(a, [switch]);
    assert FormatOf([switch]) == [switch.conversion];
    forall k | 0 <= k < |c|
      ensures FormatOf(c)[k] == c[k].conversion
    {
      FormatAt(c, k);
    }
  }

  // ----- parsing

  lemma {:induction false} WidthSplits(a: seq<Conversion>, b: seq<Conversion>)
    ensures TotalWidth(a + b) == TotalWidth(a) + TotalWidth(b)
  {
    if a == [] {
      assert a + b == b;
    } else {
      assert (a + b)[1..] == a[1..] + b;
      WidthSplits(a[1..], b);
    }
  }

  lemma {:induction false} ParseSplits(a: seq<Conversion>, b: seq<Conversion>, big: bool, data: seq<byte>)
    requires TotalWidth(a + b) <= |data|
    ensures TotalWidth(a) + TotalWidth(b) <= |data|
    ensures Parse(a + b, big, data) == Parse(a, big, data) + Parse(b, OrderAfter(a, big), data[TotalWidth(a)..])
    decreases |a|
  {
    hide Get, EndianAfter, Width;
    WidthSplits(a, b);
    if a == [] {
      assert a + b == b && data[0..] == data;
    } else {
      var n, next := Width(a[0]), EndianAfter(a[0], big);
      assert (a + b)[1..] == a[1..] + b;
      ParseSplits(a[1..], b, next, data[n..]);
      assert data[n..][TotalWidth(a[1..])..] == data[TotalWidth(a)..];
      SeqAssociative(Get(a[0], data[..n], big), Parse(a[1..], next, data[n..]),
                     Parse(b, OrderAfter(a[1..], next), data[TotalWidth(a)..]));
    }
  }

  /** Parsing a number gives what its bytes denote in the order of the last switch before it. */
  lemma {:induction false} ParsedOrder(
      a: seq<Conversion>, switch: Conversion, c: seq<Conversion>, n: nat, d: seq<Conversion>, big: bool,
      data: seq<byte>)
    requires IsSwitch(switch) && forall k :: 0 <= k < |c| ==> !IsSwitch(c[k])
    requires TotalWidth(a + [switch] + c + [Number(n)] + d) <= |data|
    ensures var front := a + [switch] + c;
            var at := TotalWidth(front);
            && at + n + TotalWidth(d) <= |data|
            && var bs := data[at..at + n];
               var u := FromBytes(if switch.Big? then bs else Reversed(bs));
               var value := if n == 8 && u >= 0x8000_0000_0000_0000 then u - 0x1_0000_0000_0000_0000 else u;
               Parse(front + [Number(n)] + d, big, data)
               == Parse(front, big, data) + [Int(value)] + Parse(d, switch.Big?, data[at + n..])
  {
    hide Parse, OrderAfter, FieldValue, FromBytes, Reversed;
    var front := a + [switch] + c;
    var at := TotalWidth(front);
    assert front + [Number(n)] + d == front + ([Number(n)] + d);
    ParseSplits(front, [Number(n)] + d, big, data);
    LastSwitchWins(a, switch, c, big);
    WidthSplits([Number(n)], d);
    NumberParsed(n, d, switch.Big?, data[at..]);
    assert data[at..][..n] == data[at..at + n] && data[at..][n..] == data[at + n..];
    FieldDenotes(data[at..at + n], switch.Big?);
    SeqAssociative(Parse(front, big, data), [Int(FieldValue(data[at..at + n], switch.Big?))],
                   Parse(d, switch.Big?, data[at + n..]));
  }

  lemma {:induction false} NumberParsed(n: nat, d: seq<Conversion>, big: bool, data: seq<byte>)
    requires TotalWidth([Number(n)] + d) <= |data|
    ensures n + TotalWidth(d) <= |data|
    ensures TotalWidth([Number(n)]) == n
    ensures Parse([Number(n)] + d, big, data) == [Int(FieldValue(data[..n], big))] + Parse(d, big, data[n..])
  {
    hide FieldValue;
    assert ([Number(n)] + d)[1..] == d;
    assert [Number(n)][1..] == [];
  }
}
