/** Base64 as in section 4 of RFC 4648. */
module Base64 {
  type Byte = x: int | 0 <= x < 256

  function Symbol(v: nat): char
    requires v < 64
  {
    if v < 26 then 'A' + v as char
    else if v < 52 then 'a' + (v - 26) as char
    else if v < 62 then '0' + (v - 52) as char
    else if v == 62 then '+'
    else '/'
  }

  predicate IsSymbol(c: char) {
    'A' <= c <= 'Z' || 'a' <= c <= 'z' || '0' <= c <= '9' || c == '+' || c == '/'
  }

  function Sextet(c: char): (v: nat)
    requires IsSymbol(c)
    ensures v < 64
  {
    if 'A' <= c <= 'Z' then c as int - 'A' as int
    else if 'a' <= c <= 'z' then 26 + (c as int - 'a' as int)
    else if '0' <= c <= '9' then 52 + (c as int - '0' as int)
    else if c == '+' then 62
    else 63
  }

  /** Three bytes as four sextets. */
  function Cut(b0: Byte, b1: Byte, b2: Byte): (v: seq<nat>)
    ensures |v| == 4 && v[0] < 64 && v[1] < 64 && v[2] < 64 && v[3] < 64
  {
    [b0 / 4, b0 % 4 * 16 + b1 / 16, b1 % 16 * 4 + b2 / 64, b2 % 64]
  }

  function Symbols(values: seq<nat>): (text: string)
    requires forall i :: 0 <= i < |values| ==> values[i] < 64
    ensures |text| == |values|
  {
    seq(|values|, i requires 0 <= i < |values| => Symbol(values[i]))
  }

  function Encode(bytes: seq<Byte>): string {
    if bytes == [] then ""
    else if |bytes| == 1 then Symbols(Cut(bytes[0], 0, 0)[..2]) + "=="
    else if |bytes| == 2 then Symbols(Cut(bytes[0], bytes[1], 0)[..3]) + "="
    else Symbols(Cut(bytes[0], bytes[1], bytes[2])) + Encode(bytes[3..])
  }

  /** The values of the leading alphabet characters; padding ends the data. */
  function Sextets(text: string): (values: seq<nat>)
    ensures forall i :: 0 <= i < |values| ==> values[i] < 64
  {
    if text == [] || !IsSymbol(text[0]) then [] else [Sextet(text[0])] + Sextets(text[1..])
  }

  function Glue(v0: nat, v1: nat, v2: nat, v3: nat): (b: seq<Byte>)
    requires v0 < 64 && v1 < 64 && v2 < 64 && v3 < 64
    ensures |b| == 3
  {
    [v0 * 4 + v1 / 16, v1 % 16 * 16 + v2 / 4, v2 % 4 * 64 + v3]
  }

  function Pack(values: seq<nat>): seq<Byte>
    requires forall i :: 0 <= i < |values| ==> values[i] < 64
  {
    if |values| < 2 then []
    else if |values| == 2 then Glue(values[0], values[1], 0, 0)[..1]
    else if |values| == 3 then Glue(values[0], values[1], values[2], 0)[..2]
    else Glue(values[0], values[1], values[2], values[3]) + Pack(values[4..])
  }

  function Decode(text: string): seq<Byte> {
    Pack(Sextets(text))
  }

  lemma SymbolSextet(v: nat)
    requires v < 64
    ensures IsSymbol(Symbol(v)) && Sextet(Symbol(v)) == v
  {
  }

  lemma {:induction false} SextetsOfSymbols(values: seq<nat>, rest: string)
    requires forall i :: 0 <= i < |values| ==> values[i] < 64
    ensures Sextets(Symbols(values) + rest) == values + Sextets(rest)
  {
    var text := Symbols(values) + rest;
    if values == [] {
      assert text == rest;
    } else {
      SymbolSextet(values[0]);
      SextetsOfSymbols(values[1..], rest);
      assert text[1..] == Symbols(values[1..]) + rest;
      assert values == [values[0]] + values[1..];
    }
  }

  /** Three bytes survive being cut into four sextets. */
  lemma GlueCut(b0: Byte, b1: Byte, b2: Byte)
    ensures var v := Cut(b0, b1, b2); Glue(v[0], v[1], v[2], v[3]) == [b0, b1, b2]
  {
    assert b0 / 4 * 4 + (b0 % 4 * 16 + b1 / 16) / 16 == b0;
    assert (b0 % 4 * 16 + b1 / 16) % 16 * 16 + (b1 % 16 * 4 + b2 / 64) / 4 == b1;
    assert (b1 % 16 * 4 + b2 / 64) % 4 * 64 + b2 % 64 == b2;
  }

  lemma DecodeOne(b0: Byte)
    ensures Decode(Encode([b0])) == [b0]
  {
    var v := Cut(b0, 0, 0);
    GlueCut(b0, 0, 0);
    SextetsOfSymbols(v[..2], "==");
    assert Sextets("==") == [];
    assert v[..2] + [] == v[..2];
    assert v[2] == 0 && v[3] == 0;
    assert Pack(v[..2]) == [b0, 0, 0][..1];
  }

  lemma DecodeTwo(b0: Byte, b1: Byte)
    ensures Decode(Encode([b0, b1])) == [b0, b1]
  {
    var v := Cut(b0, b1, 0);
    GlueCut(b0, b1, 0);
    SextetsOfSymbols(v[..3], "=");
    assert Sextets("=") == [];
    assert v[..3] + [] == v[..3];
    assert v[3] == 0;
    assert Pack(v[..3]) == [b0, b1, 0][..2];
  }

  lemma DecodeThree(b0: Byte, b1: Byte, b2: Byte, rest: string)
    ensures Decode(Symbols(Cut(b0, b1, b2)) + rest) == [b0, b1, b2] + Decode(rest)
  {
    var v := Cut(b0, b1, b2);
    GlueCut(b0, b1, b2);
    SextetsOfSymbols(v, rest);
    assert (v + Sextets(rest))[4..] == Sextets(rest);
  }

  lemma {:induction false} DecodeEncode(b: seq<Byte>)
    ensures Decode(Encode(b)) == b
  {
    if |b| == 1 {
      DecodeOne(b[0]);
      assert b == [b[0]];
    } else if |b| == 2 {
      DecodeTwo(b[0], b[1]);
      assert b == [b[0], b[1]];
    } else if |b| >= 3 {
      DecodeEncode(b[3..]);
      DecodeThree(b[0], b[1], b[2], Encode(b[3..]));
      assert b == [b[0], b[1], b[2]] + b[3..];
    }
  }

  lemma {:induction false} EncodeLength(b: seq<Byte>)
    ensures |Encode(b)| == (|b| + 2) / 3 * 4
  {
    if |b| >= 3 {
      EncodeLength(b[3..]);
    }
  }

  lemma SymbolsAreSymbols(values: seq<nat>)
    requires forall i :: 0 <= i < |values| ==> values[i] < 64
    ensures forall c :: c in Symbols(values) ==> IsSymbol(c)
  {
    forall c | c in Symbols(values)
      ensures IsSymbol(c)
    {
      var i :| 0 <= i < |values| && Symbols(values)[i] == c;
      SymbolSextet(values[i]);
    }
  }

  lemma {:induction false} EncodeIsAscii(b: seq<Byte>)
    ensures forall c :: c in Encode(b) ==> IsSymbol(c) || c == '='
  {
    if |b| >= 3 {
      EncodeIsAscii(b[3..]);
      SymbolsAreSymbols(Cut(b[0], b[1], b[2]));
    } else if |b| == 2 {
      SymbolsAreSymbols(Cut(b[0], b[1], 0)[..3]);
    } else if |b| == 1 {
      SymbolsAreSymbols(Cut(b[0], 0, 0)[..2]);
    }
  }

  lemma Vector(b0: Byte, b1: Byte, b2: Byte, v: seq<nat>, rest: seq<Byte>)
    requires Cut(b0, b1, b2) == v
    ensures Encode([b0, b1, b2] + rest) == [Symbol(v[0]), Symbol(v[1]), Symbol(v[2]), Symbol(v[3])] + Encode(rest)
  {
    assert ([b0, b1, b2] + rest)[3..] == rest;
  }

  lemma OneByteVector()
    ensures Encode([0x66]) == "Zg=="
  {
    assert Cut(0x66, 0, 0)[..2] == [25, 32];
    assert Symbols([25, 32]) == "Zg";
  }

  lemma TwoByteVector()
    ensures Encode([0x66, 0x6F]) == "Zm8="
  {
    assert Cut(0x66, 0x6F, 0)[..3] == [25, 38, 60];
    assert Symbols([25, 38, 60]) == "Zm8";
  }

  /** Test vectors of section 10 of RFC 4648: f, fo, foo and foobar. */
  lemma Rfc4648Vectors()
    ensures Encode([0x66]) == "Zg==" && Encode([0x66, 0x6F]) == "Zm8="
    ensures Encode([0x66, 0x6F, 0x6F]) == "Zm9v" && Encode([0x66, 0x6F, 0x6F, 0x62, 0x61, 0x72]) == "Zm9vYmFy"
  {
    OneByteVector();
    TwoByteVector();
    var foo: seq<Byte> := [0x66, 0x6F, 0x6F];
    var bar: seq<Byte> := [0x62, 0x61, 0x72];
    assert Encode(foo) == "Zm9v" by {
      Vector(0x66, 0x6F, 0x6F, [25, 38, 61, 47], []);
      assert foo + [] == foo;
    }
    assert Encode(bar) == "YmFy" by {
      Vector(0x62, 0x61, 0x72, [24, 38, 5, 50], []);
      assert bar + [] == bar;
    }
    assert Encode(foo + bar) == "Zm9v" + "YmFy" by {
      Vector(0x66, 0x6F, 0x6F, [25, 38, 61, 47], bar);
    }
    assert foo + bar == [0x66, 0x6F, 0x6F, 0x62, 0x61, 0x72];
  }
}
