/** The three-digits-per-byte text form in which files travel (file_utils.c). */
module FileCoding {
  import opened Text

  type byte = x: int | 0 <= x < 256

  /** `sprintf("%03d", b)` */
  function Digits3(b: byte): string {
    [DigitChar(b / 100), DigitChar(b / 10 % 10), DigitChar(b % 10)]
  }

  function Encode(data: seq<byte>): (text: string)
    ensures |text| == 3 * |data|
  {
    if data == [] then "" else Digits3(data[0]) + Encode(data[1..])
  }

  /** The value stored by `result[i / 3] = ascii`: an int cut to a byte. */
  function Undigits(a: char, b: char, c: char): byte {
    ((a as int - '0' as int) * 100 + (b as int - '0' as int) * 10 + (c as int - '0' as int)) % 256
  }

  function Decode(text: string): (r: seq<byte>)
    requires |text| % 3 == 0
    ensures |r| == |text| / 3
  {
    if text == "" then [] else [Undigits(text[0], text[1], text[2])] + Decode(text[3..])
  }

  // ------------------------------------------------------------- the C functions

  lemma {:induction false} EncodeAppend(a: seq<byte>, b: seq<byte>)
    ensures Encode(a + b) == Encode(a) + Encode(b)
  {
    if a == [] {
      assert a + b == b;
    } else {
      assert (a + b)[1..] == a[1..] + b;
      EncodeAppend(a[1..], b);
    }
  }

  lemma EncodeSnoc(data: seq<byte>, k: nat)
    requires k < |data|
    ensures Encode(data[..k + 1]) == Encode(data[..k]) + Digits3(data[k])
  {
    assert data[..k + 1] == data[..k] + [data[k]];
    EncodeAppend(data[..k], [data[k]]);
    assert Encode([data[k]]) == Digits3(data[k]) + Encode([]);
  }

  /** `encode_raw_data` */
  method EncodeRawData(data: array<byte>) returns (output: string)
    ensures output == Encode(data[..])
  {
    output := "";
    var wrote := 0;
    while wrote < data.Length
      invariant wrote <= data.Length
      invariant output == Encode(data[..wrote])
    {
      EncodeSnoc(data[..], wrote);
      assert data[..][..wrote] == data[..wrote] && data[..][..wrote + 1] == data[..wrote + 1];
      output := output + Digits3(data[wrote]);
      wrote := wrote + 1;
    }
    assert data[..wrote] == data[..];
  }

  lemma {:induction false} DecodeSnoc(text: string, i: nat)
    requires |text| % 3 == 0 && i % 3 == 0 && i + 3 <= |text|
    ensures Decode(text[..i + 3]) == Decode(text[..i]) + [Undigits(text[i], text[i + 1], text[i + 2])]
  {
    if i == 0 {
      assert text[..3][3..] == "";
    } else {
      assert text[..i + 3][3..] == text[3..][..i] && text[..i][3..] == text[3..][..i - 3];
      DecodeSnoc(text[3..], i - 3);
    }
  }

  /** `decode_to_raw_data` on a whole number of triples. */
  method DecodeToRawData(text: string) returns (result: array<byte>)
    requires |text| % 3 == 0
    ensures fresh(result) && result[..] == Decode(text)
  {
    result := new byte[|text| / 3](_ => 0);
    var i := 0;
    while i < |text|
      invariant i % 3 == 0 && i <= |text|
      invariant result[..i / 3] == Decode(text[..i])
    {
      result[i / 3] := Undigits(text[i], text[i + 1], text[i + 2]);
      DecodeSnoc(text, i);
      assert result[..i / 3 + 1] == result[..i / 3] + [result[i / 3]];
      i := i + 3;
    }
    assert text[..i] == text && result[..] == result[..i / 3];
  }

  // ------------------------------------------------------------------ exactness

  lemma UndigitsDigits(b: byte)
    ensures var d := Digits3(b); Undigits(d[0], d[1], d[2]) == b
  {
  }

  /** Decoding undoes encoding, for every file. */
  lemma {:induction false} DecodeEncode(data: seq<byte>)
    ensures Decode(Encode(data)) == data
  {
    if data != [] {
      DecodeEncode(data[1..]);
      UndigitsDigits(data[0]);
      var text := Encode(data);
      assert text[3..] == Encode(data[1..]);
    }
  }

  lemma AtoiTriple(a: char, b: char, c: char)
    requires '0' <= a <= '9' && '0' <= b <= '9' && '0' <= c <= '9'
    ensures Atoi([a, b, c]) == (a as int - '0' as int) * 100 + (b as int - '0' as int) * 10 + (c as int - '0' as int)
  {
    var x := a as int - '0' as int;
    var y := 10 * x + (b as int - '0' as int);
    assert [a, b, c][1..] == [b, c] && [b, c][1..] == [c] && [c][1..] == [];
    assert AtoiFrom([a, b, c], 0) == AtoiFrom([b, c], x);
    assert AtoiFrom([b, c], x) == AtoiFrom([c], y);
    assert AtoiFrom([c], y) == AtoiFrom([], 10 * y + (c as int - '0' as int));
  }

  /** The i-th triple is the i-th byte as three decimal digits. */
  lemma {:induction false} EncodeReads(data: seq<byte>, i: nat)
    requires i < |data|
    ensures Atoi(Encode(data)[3 * i..3 * i + 3]) == data[i]
    decreases i
  {
    var text := Encode(data);
    if i == 0 {
      var d := Digits3(data[0]);
      assert text[0..3] == d && d == [d[0], d[1], d[2]];
      AtoiTriple(d[0], d[1], d[2]);
    } else {
      EncodeReads(data[1..], i - 1);
      assert text[3..] == Encode(data[1..]);
      assert text[3 * i..3 * i + 3] == text[3..][3 * (i - 1)..3 * (i - 1) + 3];
    }
  }

  lemma {:induction false} EncodeDigits(data: seq<byte>)
    ensures Digits(Encode(data))
  {
    if data != [] {
      EncodeDigits(data[1..]);
    }
  }

  /** Code text: digit triples up to 255. */
  ghost predicate IsCode(text: string) {
    && |text| % 3 == 0 && Digits(text)
    && forall i :: 0 <= i < |text| && i % 3 == 0 ==> Value3(text, i) < 256
  }

  function Value3(text: string, i: nat): int
    requires |text| % 3 == 0 && i % 3 == 0 && i < |text|
  {
    (text[i] as int - '0' as int) * 100 + (text[i + 1] as int - '0' as int) * 10 + (text[i + 2] as int - '0' as int)
  }

  lemma DigitsUndigits(a: char, b: char, c: char)
    requires '0' <= a <= '9' && '0' <= b <= '9' && '0' <= c <= '9'
    requires (a as int - '0' as int) * 100 + (b as int - '0' as int) * 10 + (c as int - '0' as int) < 256
    ensures Digits3(Undigits(a, b, c)) == [a, b, c]
  {
    var x, y, z := a as int - '0' as int, b as int - '0' as int, c as int - '0' as int;
    var v: byte := 100 * x + 10 * y + z;
    assert Undigits(a, b, c) == v;
    assert v / 100 == x && v / 10 == 10 * x + y && v / 10 % 10 == y && v % 10 == z;
  }

  lemma CodeTail(text: string)
    requires IsCode(text) && text != ""
    ensures IsCode(text[3..])
  {
    var t := text[3..];
    forall i | 0 <= i < |t| && i % 3 == 0
      ensures Value3(t, i) < 256
    {
      assert Value3(t, i) == Value3(text, i + 3);
    }
  }

  lemma {:induction false} EncodeDecodeCode(text: string)
    requires IsCode(text)
    ensures Encode(Decode(text)) == text
  {
    if text != "" {
      CodeTail(text);
      EncodeDecodeCode(text[3..]);
      assert Value3(text, 0) < 256;
      DigitsUndigits(text[0], text[1], text[2]);
      assert text == text[..3] + text[3..] && text[..3] == [text[0], text[1], text[2]];
    }
  }

  lemma CodeCons(b: byte, rest: string)
    requires IsCode(rest)
    ensures IsCode(Digits3(b) + rest)
  {
    var text := Digits3(b) + rest;
    assert Value3(text, 0) == b;
    forall i | 0 < i < |text| && i % 3 == 0
      ensures Value3(text, i) < 256
    {
      assert Value3(text, i) == Value3(rest, i - 3);
    }
  }

  lemma {:induction false} EncodeIsCode(data: seq<byte>)
    ensures IsCode(Encode(data))
  {
    if data != [] {
      EncodeIsCode(data[1..]);
      CodeCons(data[0], Encode(data[1..]));
    }
  }

  /** Encoding undoes decoding exactly on the digit triples up to 255. */
  lemma EncodeDecodeExact(text: string)
    requires |text| % 3 == 0
    ensures Encode(Decode(text)) == text <==> IsCode(text)
  {
    if IsCode(text) {
      EncodeDecodeCode(text);
    } else {
      EncodeIsCode(Decode(text));
    }
  }
}
