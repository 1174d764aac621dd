/** URL-safe Base64, section 5 of RFC 4648, with padding. Bits are taken two at a time: four pairs make a
    byte, three make a Base64 digit, so twelve pairs are three bytes or four digits. */
module Base64 {
  import opened Wrappers

  type Pair = n: nat | n < 4

  datatype Byte = Byte(a: Pair, b: Pair, c: Pair, d: Pair)
  datatype Six = Six(x: Pair, y: Pair, z: Pair)
  datatype Symbol = Data(six: Six) | Padding | Junk

  function ByteValue(byte: Byte): (n: nat)
    ensures n < 256
  {
    64 * byte.a + 16 * byte.b + 4 * byte.c + byte.d
  }

  function ByteOf(n: nat): Byte
    requires n < 256
  {
    var m := n / 4;
    var l := m / 4;
    Byte(l / 4, l % 4, m % 4, n % 4)
  }

  lemma ByteValueInverts(n: nat)
    requires n < 256
    ensures ByteValue(ByteOf(n)) == n
  {
    var m := n / 4;
    var l := m / 4;
    assert n == 4 * m + n % 4 && m == 4 * l + m % 4 && l == 4 * (l / 4) + l % 4;
  }

  // ----- the alphabet -----

  function SixValue(six: Six): (n: nat)
    ensures n < 64
  {
    16 * six.x + 4 * six.y + six.z
  }

  function SixOf(n: nat): Six
    requires n < 64
  {
    var m := n / 4;
    Six(m / 4, m % 4, n % 4)
  }

  function Render(symbol: Symbol): char
    requires !symbol.Junk?
  {
    if symbol.Padding? then '='
    else
      var n := SixValue(symbol.six);
      if n < 26 then ('A' as int + n) as char
      else if n < 52 then ('a' as int + n - 26) as char
      else if n < 62 then ('0' as int + n - 52) as char
      else if n == 62 then '-'
      else '_'
  }

  function Scan(c: char): Symbol {
    if 'A' <= c <= 'Z' then Data(SixOf(c as int - 'A' as int))
    else if 'a' <= c <= 'z' then Data(SixOf(c as int - 'a' as int + 26))
    else if '0' <= c <= '9' then Data(SixOf(c as int - '0' as int + 52))
    else if c == '-' then Data(Six(3, 3, 2))
    else if c == '_' then Data(Six(3, 3, 3))
    else if c == '=' then Padding
    else Junk
  }

  lemma ScanRender(symbol: Symbol)
    requires !symbol.Junk?
    ensures Scan(Render(symbol)) == symbol
  {
    if symbol.Data? {
      assert SixOf(SixValue(symbol.six)) == symbol.six;
    }
  }

  // ----- bytes and symbols -----

  function EncodeSymbols(bytes: seq<Byte>): seq<Symbol>
    decreases |bytes|
  {
    if bytes == [] then []
    else
      var p := bytes[0];
      if |bytes| == 1 then [Data(Six(p.a, p.b, p.c)), Data(Six(p.d, 0, 0)), Padding, Padding]
      else
        var q := bytes[1];
        if |bytes| == 2 then [Data(Six(p.a, p.b, p.c)), Data(Six(p.d, q.a, q.b)), Data(Six(q.c, q.d, 0)), Padding]
        else
          var r := bytes[2];
          [Data(Six(p.a, p.b, p.c)), Data(Six(p.d, q.a, q.b)), Data(Six(q.c, q.d, r.a)), Data(Six(r.b, r.c, r.d))]
          + EncodeSymbols(bytes[3..])
  }

  /** The bytes of four symbols, of which only the last two may be padding. */
  function DecodeGroup(w: Symbol, x: Symbol, y: Symbol, z: Symbol): Option<seq<Byte>> {
    match (w, x, y, z)
    case (Data(i), Data(j), Data(k), Data(l)) =>
      Some([Byte(i.x, i.y, i.z, j.x), Byte(j.y, j.z, k.x, k.y), Byte(k.z, l.x, l.y, l.z)])
    case (Data(i), Data(j), Data(k), Padding) => Some([Byte(i.x, i.y, i.z, j.x), Byte(j.y, j.z, k.x, k.y)])
    case (Data(i), Data(j), Padding, Padding) => Some([Byte(i.x, i.y, i.z, j.x)])
    case _ => None
  }

  /** Padding may only end the text. */
  function DecodeSymbols(symbols: seq<Symbol>): Option<seq<Byte>>
    decreases |symbols|
  {
    if symbols == [] then Some([])
    else if |symbols| < 4 then None
    else
      match DecodeGroup(symbols[0], symbols[1], symbols[2], symbols[3])
      case None => None
      case Some(group) =>
        if |group| < 3 then if |symbols| == 4 then Some(group) else None
        else
          match DecodeSymbols(symbols[4..])
          case None => None
          case Some(rest) => Some(group + rest)
  }

  lemma {:induction false} SymbolsRoundTrip(bytes: seq<Byte>)
    ensures DecodeSymbols(EncodeSymbols(bytes)) == Some(bytes)
    decreases |bytes|
  {
    if |bytes| == 1 {
      assert bytes == [bytes[0]];
    } else if |bytes| == 2 {
      assert bytes == [bytes[0], bytes[1]];
    } else if |bytes| >= 3 {
      SymbolsRoundTrip(bytes[3..]);
      assert EncodeSymbols(bytes)[4..] == EncodeSymbols(bytes[3..]);
      assert bytes == [bytes[0], bytes[1], bytes[2]] + bytes[3..];
    }
  }

  lemma {:induction false} SymbolCount(bytes: seq<Byte>)
    ensures |EncodeSymbols(bytes)| == (|bytes| + 2) / 3 * 4
    ensures forall i :: 0 <= i < |EncodeSymbols(bytes)| ==> !EncodeSymbols(bytes)[i].Junk?
    decreases |bytes|
  {
    if |bytes| >= 3 {
      SymbolCount(bytes[3..]);
    }
  }

  // ----- texts -----

  function Encode(bytes: seq<Byte>): (text: string)
    ensures |text| == |EncodeSymbols(bytes)|
  {
    var symbols := EncodeSymbols(bytes);
    SymbolCount(bytes);
    seq(|symbols|, i requires 0 <= i < |symbols| => Render(symbols[i]))
  }

  function Decode(text: string): Option<seq<Byte>> {
    DecodeSymbols(seq(|text|, i requires 0 <= i < |text| => Scan(text[i])))
  }

  /** Decoding an encoding gives the bytes back, in four characters for every three bytes begun. */
  lemma RoundTrip(bytes: seq<Byte>)
    ensures Decode(Encode(bytes)) == Some(bytes)
    ensures |Encode(bytes)| == (|bytes| + 2) / 3 * 4
  {
    var symbols, text := EncodeSymbols(bytes), Encode(bytes);
    SymbolCount(bytes);
    forall i | 0 <= i < |symbols| ensures Scan(text[i]) == symbols[i] {
      ScanRender(symbols[i]);
    }
    assert seq(|text|, i requires 0 <= i < |text| => Scan(text[i])) == symbols;
    SymbolsRoundTrip(bytes);
  }

  // ----- what section 5 of RFC 4648 asks for -----

  /** Table 2 of that section, both ways. */
  lemma AlphabetIsStandard(n: nat)
    requires n < 64
    ensures var c := Render(Data(SixOf(n)));
            && Scan(c) == Data(SixOf(n))
            && (n < 26 ==> c as int == 'A' as int + n)
            && (26 <= n < 52 ==> c as int == 'a' as int + n - 26)
            && (52 <= n < 62 ==> c as int == '0' as int + n - 52)
            && (n == 62 ==> c == '-') && (n == 63 ==> c == '_')
  {
    var m := n / 4;
    assert n == 4 * m + n % 4 && m == 4 * (m / 4) + m % 4;
    ScanRender(Data(SixOf(n)));
  }

  /** The digits of a group, read as one number to base 64, are its bytes read as one number to base 256,
      filled up with zero bits. */
  lemma GroupIsNumber(bytes: seq<Byte>)
    requires 1 <= |bytes| <= 3
    ensures var s := EncodeSymbols(bytes);
            && |s| == 4 && (forall i :: 0 <= i <= |bytes| ==> s[i].Data?) && (forall i :: |bytes| < i < 4 ==> s[i].Padding?)
            && (|bytes| == 1 ==> 64 * SixValue(s[0].six) + SixValue(s[1].six) == 16 * ByteValue(bytes[0]))
            && (|bytes| == 2 ==>
                  4096 * SixValue(s[0].six) + 64 * SixValue(s[1].six) + SixValue(s[2].six)
                  == 4 * (256 * ByteValue(bytes[0]) + ByteValue(bytes[1])))
            && (|bytes| == 3 ==>
                  262144 * SixValue(s[0].six) + 4096 * SixValue(s[1].six) + 64 * SixValue(s[2].six) + SixValue(s[3].six)
                  == 65536 * ByteValue(bytes[0]) + 256 * ByteValue(bytes[1]) + ByteValue(bytes[2]))
  {
    assert |bytes| == 3 ==> EncodeSymbols(bytes[3..]) == [];
  }

  /** Groups of three bytes are encoded one after another, each symbol as its character. */
  lemma GroupsInOrder(group: seq<Byte>, rest: seq<Byte>)
    requires |group| == 3
    ensures EncodeSymbols(group + rest) == EncodeSymbols(group) + EncodeSymbols(rest)
    ensures forall i :: 0 <= i < |Encode(group)| ==>
              !EncodeSymbols(group)[i].Junk? && Encode(group)[i] == Render(EncodeSymbols(group)[i])
    ensures Encode(group + rest) == Encode(group) + Encode(rest)
  {
    assert (group + rest)[3..] == rest;
    assert group[3..] == [] && EncodeSymbols([]) == [];
    SymbolCount(group);
    SymbolCount(rest);
    SymbolCount(group + rest);
  }
}
