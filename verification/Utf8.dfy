/** UTF-8 text as the IPC protocol accepts it: section 4 of RFC 3629, without the NUL character. */
module Utf8 {
  type Byte = x: int | 0 <= x < 256

  /** A Unicode scalar value other than NUL. */
  predicate Scalar(v: int) {
    1 <= v <= 0x10ffff && !(0xd800 <= v <= 0xdfff)
  }

  /** The encoding of one scalar value (section 3 of RFC 3629). */
  function Encode(v: int): (s: seq<Byte>)
    requires Scalar(v)
    ensures 1 <= |s| <= 4
  {
    if v < 0x80 then [v]
    else if v < 0x800 then [0xc0 + v / 64, 0x80 + v % 64]
    else if v < 0x10000 then [0xe0 + v / 4096, 0x80 + v / 64 % 64, 0x80 + v % 64]
    else [0xf0 + v / 262144, 0x80 + v / 4096 % 64, 0x80 + v / 64 % 64, 0x80 + v % 64]
  }

  predicate Scalars(vs: seq<int>) {
    forall i :: 0 <= i < |vs| ==> Scalar(vs[i])
  }

  function EncodeAll(vs: seq<int>): seq<Byte>
    requires Scalars(vs)
  {
    if vs == [] then [] else Encode(vs[0]) + EncodeAll(vs[1..])
  }

  /** Text is the encoding of some sequence of scalar values. */
  ghost predicate Text(s: seq<Byte>) {
    exists vs :: Scalars(vs) && EncodeAll(vs) == s
  }

  predicate Continuation(b: Byte) {
    0x80 <= b <= 0xbf
  }

  /** Continuation bytes announced by a first byte, and the range of the first of them. */
  function Shape(first: Byte): (int, int, int) {
    if 1 <= first <= 0x7f then (0, 0, 0)
    else if 0xc2 <= first <= 0xdf then (1, 0x80, 0xbf)
    else if first == 0xe0 then (2, 0xa0, 0xbf)
    else if first == 0xed then (2, 0x80, 0x9f)
    else if 0xe0 <= first <= 0xef then (2, 0x80, 0xbf)
    else if first == 0xf0 then (3, 0x90, 0xbf)
    else if first == 0xf4 then (3, 0x80, 0x8f)
    else if 0xf0 <= first <= 0xf4 then (3, 0x80, 0xbf)
    else (-1, 0, 0)
  }

  /** The length of the character at the front of s, or 0. */
  function Front(s: seq<Byte>): (n: nat)
    ensures n <= 4 && n <= |s|
  {
    if s == [] then 0
    else
      var (count, low, high) := Shape(s[0]);
      if count < 0 || count + 1 > |s| then 0
      else if count == 0 then 1
      else if !(low <= s[1] <= high) then 0
      else if count >= 2 && !Continuation(s[2]) then 0
      else if count == 3 && !Continuation(s[3]) then 0
      else count + 1
  }

  predicate Valid(s: seq<Byte>) {
    s == [] || (Front(s) > 0 && Valid(s[Front(s)..]))
  }

  /** Reads the scalar value at the front. */
  function Decode(s: seq<Byte>): int
    requires Front(s) > 0
  {
    var n := Front(s);
    if n == 1 then s[0] as int
    else if n == 2 then Digits([s[0] as int - 0xc0, s[1] as int - 0x80])
    else if n == 3 then Digits([s[0] as int - 0xe0, s[1] as int - 0x80, s[2] as int - 0x80])
    else Digits([s[0] as int - 0xf0, s[1] as int - 0x80, s[2] as int - 0x80, s[3] as int - 0x80])
  }

  /** The number with the given base-64 digits. */
  function Digits(ds: seq<int>): int {
    if ds == [] then 0 else Digits(ds[..|ds| - 1]) * 64 + ds[|ds| - 1]
  }

  lemma Digits2(a: int, b: int)
    requires 0 <= b < 64
    ensures Digits([a, b]) == a * 64 + b && Digits([a, b]) / 64 == a && Digits([a, b]) % 64 == b
  {
    assert [a, b][..1] == [a] && [a][..0] == [];
    assert Digits([a]) == a;
  }

  lemma Digits3(a: int, b: int, c: int)
    requires 0 <= b < 64 && 0 <= c < 64
    ensures var v := Digits([a, b, c]);
            v == a * 4096 + b * 64 + c && v / 4096 == a && v / 64 % 64 == b && v % 64 == c
  {
    assert [a, b, c][..2] == [a, b];
    Digits2(a, b);
  }

  lemma Digits4(a: int, b: int, c: int, d: int)
    requires 0 <= b < 64 && 0 <= c < 64 && 0 <= d < 64
    ensures var v := Digits([a, b, c, d]);
            && v == a * 262144 + b * 4096 + c * 64 + d
            && v / 262144 == a && v / 4096 % 64 == b && v / 64 % 64 == c && v % 64 == d
  {
    assert [a, b, c, d][..3] == [a, b, c];
    Digits3(a, b, c);
  }

  lemma Front3(s: seq<Byte>)
    requires Front(s) == 3
    ensures Scalar(Decode(s)) && Encode(Decode(s)) == s[..3]
  {
    Digits3(s[0] - 0xe0, s[1] - 0x80, s[2] - 0x80);
  }

  lemma Front4(s: seq<Byte>)
    requires Front(s) == 4
    ensures Scalar(Decode(s)) && Encode(Decode(s)) == s[..4]
  {
    Digits4(s[0] - 0xf0, s[1] - 0x80, s[2] - 0x80, s[3] - 0x80);
  }

  /** What the front test accepts is the encoding of a scalar value. */
  lemma FrontIsEncoding(s: seq<Byte>)
    requires Front(s) > 0
    ensures Scalar(Decode(s)) && Encode(Decode(s)) == s[..Front(s)]
  {
    var n := Front(s);
    if n == 3 {
      Front3(s);
    } else if n == 4 {
      Front4(s);
    } else if n == 2 {
      Digits2(s[0] - 0xc0, s[1] - 0x80);
    }
  }

  /** The encoding of a scalar value is what the front test accepts, whatever follows. */
  lemma EncodingIsFront(v: int, rest: seq<Byte>)
    requires Scalar(v)
    ensures Front(Encode(v) + rest) == |Encode(v)|
  {
    if v < 0x80 {
      assert Encode(v) + rest == [v] + rest;
    } else if v < 0x800 {
      FrontOfTwo(v, rest);
    } else if v < 0x10000 {
      FrontOfThree(v, rest);
    } else {
      FrontOfFour(v, rest);
    }
  }

  lemma FrontOfTwo(v: int, rest: seq<Byte>)
    requires 0x80 <= v < 0x800
    ensures Front(Encode(v) + rest) == 2 == |Encode(v)|
  {
  }

  lemma FrontOfThree(v: int, rest: seq<Byte>)
    requires Scalar(v) && 0x800 <= v < 0x10000
    ensures Front(Encode(v) + rest) == 3 == |Encode(v)|
  {
  }

  lemma FrontOfFour(v: int, rest: seq<Byte>)
    requires Scalar(v) && 0x10000 <= v
    ensures Front(Encode(v) + rest) == 4 == |Encode(v)|
  {
  }

  lemma {:induction false} ValidIsText(s: seq<Byte>) returns (vs: seq<int>)
    requires Valid(s)
    ensures Scalars(vs) && EncodeAll(vs) == s
  {
    if s == [] {
      vs := [];
    } else {
      var n := Front(s);
      FrontIsEncoding(s);
      var rest := ValidIsText(s[n..]);
      vs := [Decode(s)] + rest;
      assert vs[1..] == rest;
      assert s == s[..n] + s[n..];
    }
  }

  lemma {:induction false} TextIsValid(vs: seq<int>)
    requires Scalars(vs)
    ensures Valid(EncodeAll(vs))
  {
    if vs != [] {
      var rest := EncodeAll(vs[1..]);
      TextIsValid(vs[1..]);
      EncodingIsFront(vs[0], rest);
      var s := EncodeAll(vs);
      assert s[|Encode(vs[0])|..] == rest;
    }
  }

  /** The test accepts exactly the encodings of sequences of nonzero scalar values. */
  lemma ValidExactlyText(s: seq<Byte>)
    ensures Valid(s) <==> Text(s)
  {
    if Valid(s) {
      var vs := ValidIsText(s);
    }
    if Text(s) {
      var vs :| Scalars(vs) && EncodeAll(vs) == s;
      TextIsValid(vs);
    }
  }

  /** How many bytes follow a first byte, and the range of the second: -1 for a byte that begins nothing. */
  method Classify(first: Byte) returns (count: int, low: int, high: int)
    requires first > 0x7f
    ensures (count, low, high) == Shape(first)
  {
    count, low, high := 0, 0x80, 0xbf;
    if 0xc2 <= first <= 0xdf {
      count := 1;
    } else if 0xe0 <= first <= 0xef {
      count := 2;
      if first == 0xe0 { low := 0xa0; } else if first == 0xed { high := 0x9f; }
    } else if 0xf0 <= first <= 0xf4 {
      count := 3;
      if first == 0xf0 { low := 0x90; } else if first == 0xf4 { high := 0x8f; }
    } else {
      count, low, high := -1, 0, 0;
    }
  }

  /** The bytes behind the second one of a sequence. */
  method Continued(text: seq<Byte>, offset: nat, count: nat) returns (ok: bool)
    requires 1 <= count && offset + count <= |text|
    ensures ok <==> forall k :: offset < k < offset + count ==> Continuation(text[k])
  {
    for index := 1 to count
      invariant forall k :: offset < k < offset + index ==> Continuation(text[k])
    {
      var value := text[offset + index];
      if value < 0x80 || value > 0xbf { return false; }
    }
    ok := true;
  }

  /** The length of the sequence at a position, or 0 if there is none. */
  method ScanOne(text: seq<Byte>, start: nat) returns (n: nat)
    requires start < |text|
    ensures n == Front(text[start..])
  {
    ghost var rest := text[start..];
    var first := text[start];
    assert rest[0] == first;
    if first == 0 { return 0; }
    if first <= 0x7f { return 1; }
    var count, low, high := Classify(first);
    var offset := start + 1;
    if count < 0 || count > |text| - offset { return 0; }
    var second := text[offset];
    assert rest[1] == second;
    if second < low || second > high { return 0; }
    var continued := Continued(text, offset, count);
    assert count >= 2 ==> rest[2] == text[offset + 1];
    assert count == 3 ==> rest[3] == text[offset + 2];
    n := if continued then count + 1 else 0;
  }

  /** The text is valid from this position on. */
  predicate ValidFrom(text: seq<Byte>, i: nat)
    requires i <= |text|
    decreases |text| - i
  {
    i == |text| || (Front(text[i..]) > 0 && ValidFrom(text, i + Front(text[i..])))
  }

  lemma {:induction false} ValidFromThere(text: seq<Byte>, i: nat)
    requires i <= |text|
    ensures ValidFrom(text, i) <==> Valid(text[i..])
    decreases |text| - i
  {
    if i < |text| && Front(text[i..]) > 0 {
      var n := Front(text[i..]);
      assert text[i..][n..] == text[i + n..];
      ValidFromThere(text, i + n);
    }
  }

  /** The scanner of the source. */
  method ValidUtf8(text: seq<Byte>) returns (ok: bool)
    ensures ok <==> Text(text)
  {
    ok := Scan(text);
    ValidFromThere(text, 0);
    assert text[0..] == text;
    ValidExactlyText(text);
  }

  method Scan(text: seq<Byte>) returns (ok: bool)
    ensures ok <==> ValidFrom(text, 0)
  {
    var offset := 0;
    while offset < |text|
      invariant 0 <= offset <= |text| && (ValidFrom(text, 0) <==> ValidFrom(text, offset))
    {
      var n := ScanOne(text, offset);
      if n == 0 { return false; }
      offset := offset + n;
    }
    return true;
  }
}
