/** Base64 and its URL-safe form without padding (sections 4 and 5 of RFC 4648). Shifts and
    bitwise or of disjoint bits are written as arithmetic. */
module Base64 {
  import opened Sequences

  type Byte = b: nat | b < 256 witness 0
  type Sextet = v: nat | v < 64 witness 0

  datatype Error = BadLength | BadCharacter
  datatype Result<+T> = Ok(value: T) | Err(error: Error)

  /** The alphabet: A to Z, a to z, 0 to 9, `+` and `/`. */
  function CharOf(v: Sextet): char {
    if v < 26 then ('A' as int + v) as char
    else if v < 52 then ('a' as int + v - 26) as char
    else if v < 62 then ('0' as int + v - 52) as char
    else if v == 62 then '+'
    else '/'
  }

  /** The value of a character; padding counts as zero. */
  function CharVal(c: char): Result<Sextet> {
    if 'A' <= c <= 'Z' then Ok(c as int - 'A' as int)
    else if 'a' <= c <= 'z' then Ok(c as int - 'a' as int + 26)
    else if '0' <= c <= '9' then Ok(c as int - '0' as int + 52)
    else if c == '+' then Ok(62)
    else if c == '/' then Ok(63)
    else if c == '=' then Ok(0)
    else Err(BadCharacter)
  }

  lemma {:induction false} CharValInverts(v: Sextet)
    ensures CharVal(CharOf(v)) == Ok(v) && CharOf(v) != '=' && CharOf(v) != '-' && CharOf(v) != '_'
  {
  }

  /** The alphabet of section 4 of RFC 4648, by its rows: capitals, small letters, digits, `+` and `/`. */
  lemma {:induction false} Alphabet()
    ensures forall v: Sextet :: v < 26 ==> CharOf(v) == "ABCDEFGHIJKLMNOPQRSTUVWXYZ"[v]
    ensures forall v: Sextet :: 26 <= v < 52 ==> CharOf(v) == "abcdefghijklmnopqrstuvwxyz"[v - 26]
    ensures forall v: Sextet :: 52 <= v < 62 ==> CharOf(v) == "0123456789"[v - 52]
    ensures CharOf(62) == '+' && CharOf(63) == '/'
  {
  }

  // ---------- Groups ----------

  function At(chunk: seq<Byte>, i: nat): Byte {
    if i < |chunk| then chunk[i] else 0
  }

  function Triple(b0: Byte, b1: Byte, b2: Byte): nat {
    b0 * 65536 + b1 * 256 + b2
  }

  function Quad(a: Sextet, b: Sextet, c: Sextet, d: Sextet): nat {
    a * 262144 + b * 4096 + c * 64 + d
  }

  // The 24 bits of a group, cut at 6 and at 8 bits.

  function First(b0: Byte): Sextet { b0 / 4 }
  function Second(b0: Byte, b1: Byte): Sextet { b0 % 4 * 16 + b1 / 16 }
  function Third(b1: Byte, b2: Byte): Sextet { b1 % 16 * 4 + b2 / 64 }
  function Fourth(b2: Byte): Sextet { b2 % 64 }

  function Byte0(a: Sextet, b: Sextet): Byte {
    var r: nat := a; r * 4 + b / 16
  }

  function Byte1(b: Sextet, c: Sextet): Byte {
    var r: nat := b % 16; r * 16 + c / 4
  }

  function Byte2(c: Sextet, d: Sextet): Byte {
    var r: nat := c % 4; r * 64 + d
  }

  /** Up to three bytes as four characters. */
  function EncodeGroup(chunk: seq<Byte>): (text: string)
    requires 0 < |chunk| <= 3
    ensures |text| == 4
  {
    var b0, b1, b2 := chunk[0], At(chunk, 1), At(chunk, 2);
    [CharOf(First(b0)), CharOf(Second(b0, b1)),
     if |chunk| > 1 then CharOf(Third(b1, b2)) else '=',
     if |chunk| > 2 then CharOf(Fourth(b2)) else '=']
  }

  /** Four characters as up to three bytes; the second and third only where a character was written. */
  function DecodeGroup(text: string): Result<seq<Byte>>
    requires |text| == 4
  {
    var a, b, c, d := CharVal(text[0]), CharVal(text[1]), CharVal(text[2]), CharVal(text[3]);
    if a.Err? || b.Err? || c.Err? || d.Err? then Err(BadCharacter)
    else Ok(Bytes(a.value, b.value, c.value, d.value, text[2] != '=', text[3] != '='))
  }

  function Bytes(a: Sextet, b: Sextet, c: Sextet, d: Sextet, second: bool, third: bool): seq<Byte> {
    [Byte0(a, b)] + (if second then [Byte1(b, c)] else []) + (if third then [Byte2(c, d)] else [])
  }

  // The same through one 24-bit number, as the loops compute it.

  lemma {:induction false} SextetsOfTriple(b0: Byte, b1: Byte, b2: Byte)
    ensures var t := Triple(b0, b1, b2);
      && t / 262144 % 64 == First(b0) && t / 4096 % 64 == Second(b0, b1)
      && t / 64 % 64 == Third(b1, b2) && t % 64 == Fourth(b2)
  {
    var t := Triple(b0, b1, b2);
    assert t / 64 == b0 * 1024 + b1 * 4 + b2 / 64;
    assert t / 4096 == b0 * 16 + b1 / 16;
    assert t / 262144 == b0 / 4;
  }

  lemma {:induction false} BytesOfQuad(a: Sextet, b: Sextet, c: Sextet, d: Sextet)
    ensures var t := Quad(a, b, c, d);
      && t / 65536 % 256 == Byte0(a, b) && t / 256 % 256 == Byte1(b, c) && t % 256 == Byte2(c, d)
  {
    var t := Quad(a, b, c, d);
    assert t / 256 == a * 1024 + b * 16 + c / 4;
    assert t / 65536 == a * 4 + b / 16;
  }

  lemma {:induction false} Byte0Back(b0: Byte, b1: Byte)
    ensures Byte0(First(b0), Second(b0, b1)) == b0
  {
  }

  lemma {:induction false} Byte1Back(b0: Byte, b1: Byte, b2: Byte)
    ensures Byte1(Second(b0, b1), Third(b1, b2)) == b1
  {
    assert Second(b0, b1) % 16 == b1 / 16;
    assert Third(b1, b2) / 4 == b1 % 16;
  }

  lemma {:induction false} Byte2Back(b1: Byte, b2: Byte)
    ensures Byte2(Third(b1, b2), Fourth(b2)) == b2
  {
  }

  method EncodeChunk(chunk: seq<Byte>) returns (text: string)
    requires 0 < |chunk| <= 3
    ensures text == EncodeGroup(chunk)
  {
    var b0, b1, b2 := chunk[0], At(chunk, 1), At(chunk, 2);
    var triple := Triple(b0, b1, b2);
    SextetsOfTriple(b0, b1, b2);
    text := [CharOf(triple / 262144 % 64), CharOf(triple / 4096 % 64)];
    text := text + [if |chunk| > 1 then CharOf(triple / 64 % 64) else '='];
    text := text + [if |chunk| > 2 then CharOf(triple % 64) else '='];
  }

  method DecodeChunk(text: string) returns (r: Result<seq<Byte>>)
    requires |text| == 4
    ensures r == DecodeGroup(text)
  {
    var a, b, c, d := CharVal(text[0]), CharVal(text[1]), CharVal(text[2]), CharVal(text[3]);
    if a.Err? || b.Err? || c.Err? || d.Err? { return Err(BadCharacter); }
    var bytes := Unpack(a.value, b.value, c.value, d.value, text[2] != '=', text[3] != '=');
    return Ok(bytes);
  }

  method Unpack(a: Sextet, b: Sextet, c: Sextet, d: Sextet, second: bool, third: bool) returns (bytes: seq<Byte>)
    ensures bytes == Bytes(a, b, c, d, second, third)
  {
    var triple := Quad(a, b, c, d);
    BytesOfQuad(a, b, c, d);
    bytes := [triple / 65536 % 256];
    if second { bytes := bytes + [triple / 256 % 256]; }
    if third { bytes := bytes + [triple % 256]; }
  }

  function Least(m: nat, n: nat): nat {
    if m <= n then m else n
  }

  function Encode(data: seq<Byte>): string {
    if data == [] then ""
    else var n := Least(3, |data|); EncodeGroup(data[..n]) + Encode(data[n..])
  }

  function DecodeGroups(text: string): Result<seq<Byte>>
  {
    if |text| < 4 then Ok([])
    else
      match DecodeGroup(text[..4])
      case Err(e) => Err(e)
      case Ok(group) => Prepend(group, DecodeGroups(text[4..]))
  }

  function Prepend(front: seq<Byte>, r: Result<seq<Byte>>): Result<seq<Byte>> {
    match r
    case Err(e) => Err(e)
    case Ok(rest) => Ok(front + rest)
  }

  function Decode(text: string): Result<seq<Byte>> {
    if |text| % 4 != 0 then Err(BadLength) else DecodeGroups(text)
  }

  method Base64Encode(data: seq<Byte>) returns (text: string)
    ensures text == Encode(data)
  {
    text := "";
    var i := 0;
    assert data[0..] == data;
    while i < |data|
      invariant 0 <= i <= |data|
      invariant Encode(data) == text + Encode(data[i..])
    {
      var n := Least(3, |data| - i);
      EncodeStep(data, i, n, text);
      var chars := EncodeChunk(data[i..i + n]);
      text := text + chars;
      i := i + n;
    }
  }

  lemma {:induction false} EncodeStep(data: seq<Byte>, i: nat, n: nat, text: string)
    requires i < |data| && n == Least(3, |data| - i)
    ensures text + Encode(data[i..]) == text + EncodeGroup(data[i..i + n]) + Encode(data[i + n..])
  {
    assert data[i..][..n] == data[i..i + n] && data[i..][n..] == data[i + n..];
    assert text + (EncodeGroup(data[i..i + n]) + Encode(data[i + n..])) ==
             text + EncodeGroup(data[i..i + n]) + Encode(data[i + n..]);
  }

  /** The first `i` characters have been read as `bytes`. */
  ghost predicate Progress(text: string, i: nat, bytes: seq<Byte>) {
    i <= |text| && DecodeGroups(text) == Prepend(bytes, DecodeGroups(text[i..]))
  }

  method Base64Decode(text: string) returns (r: Result<seq<Byte>>)
    ensures r == Decode(text)
  {
    if |text| % 4 != 0 { return Err(BadLength); }
    var bytes: seq<Byte> := [];
    var i: nat := 0;
    assert text[0..] == text;
    PrependNothing(DecodeGroups(text));
    while i < |text|
      invariant i <= |text| && i % 4 == 0 && Progress(text, i, bytes)
    {
      InFours(i, |text|);
      var group := DecodeChunk(text[i..i + 4]);
      GroupRead(text, i, bytes, group);
      if group.Err? { return Err(BadCharacter); }
      bytes := bytes + group.value;
      i := i + 4;
    }
    NothingMore(bytes);
    return Ok(bytes);
  }

  lemma {:induction false} PrependNothing(r: Result<seq<Byte>>)
    ensures Prepend([], r) == r
  {
    if r.Ok? { assert [] + r.value == r.value; }
  }

  lemma {:induction false} NothingMore(bytes: seq<Byte>)
    ensures Prepend(bytes, Ok([])) == Ok(bytes)
  {
    assert bytes + [] == bytes;
  }

  lemma {:induction false} GroupRead(text: string, i: nat, bytes: seq<Byte>, group: Result<seq<Byte>>)
    requires Progress(text, i, bytes) && i + 4 <= |text| && group == DecodeGroup(text[i..i + 4])
    ensures group.Err? ==> DecodeGroups(text) == Err(BadCharacter)
    ensures group.Ok? ==> Progress(text, i + 4, bytes + group.value)
  {
    DecodeAt(text, i, bytes);
  }

  lemma {:induction false} DecodeStep(group: string, rest: string)
    requires |group| == 4
    ensures DecodeGroups(group + rest)
         == match DecodeGroup(group) { case Err(e) => Err(e) case Ok(bytes) => Prepend(bytes, DecodeGroups(rest)) }
  {
    assert (group + rest)[..4] == group && (group + rest)[4..] == rest;
  }

  lemma {:induction false} DecodeAt(text: string, i: nat, bytes: seq<Byte>)
    requires i + 4 <= |text|
    ensures Prepend(bytes, DecodeGroups(text[i..]))
         == match DecodeGroup(text[i..i + 4]) {
              case Err(_) => Err(BadCharacter)
              case Ok(group) => Prepend(bytes + group, DecodeGroups(text[i + 4..]))
            }
  {
    assert text[i..] == text[i..i + 4] + text[i + 4..];
    DecodeStep(text[i..i + 4], text[i + 4..]);
    var group := DecodeGroup(text[i..i + 4]);
    if group.Ok? { Regroup(bytes, group.value, DecodeGroups(text[i + 4..])); }
  }

  lemma {:induction false} Regroup(a: seq<Byte>, b: seq<Byte>, r: Result<seq<Byte>>)
    ensures Prepend(a, Prepend(b, r)) == Prepend(a + b, r)
  {
    if r.Ok? { assert a + (b + r.value) == (a + b) + r.value; }
  }

  // ---------- Round trip ----------

  lemma {:induction false} DecodedValues(text: string, a: Sextet, b: Sextet, c: Sextet, d: Sextet)
    requires |text| == 4
    requires CharVal(text[0]) == Ok(a) && CharVal(text[1]) == Ok(b) && CharVal(text[2]) == Ok(c) &&
               CharVal(text[3]) == Ok(d)
    ensures DecodeGroup(text) == Ok(Bytes(a, b, c, d, text[2] != '=', text[3] != '='))
  {
  }

  lemma {:induction false} OneByteGroup(b0: Byte)
    ensures DecodeGroup(EncodeGroup([b0])) == Ok([b0])
  {
    var text, a, b := EncodeGroup([b0]), First(b0), Second(b0, 0);
    CharValInverts(a);
    CharValInverts(b);
    Byte0Back(b0, 0);
    DecodedValues(text, a, b, 0, 0);
    assert Bytes(a, b, 0, 0, false, false) == [b0];
  }

  lemma {:induction false} TwoByteGroup(b0: Byte, b1: Byte)
    ensures DecodeGroup(EncodeGroup([b0, b1])) == Ok([b0, b1])
  {
    var text, a, b, c := EncodeGroup([b0, b1]), First(b0), Second(b0, b1), Third(b1, 0);
    CharValInverts(a);
    CharValInverts(b);
    CharValInverts(c);
    Byte0Back(b0, b1);
    Byte1Back(b0, b1, 0);
    DecodedValues(text, a, b, c, 0);
    assert Bytes(a, b, c, 0, true, false) == [b0, b1];
  }

  lemma {:induction false} ThreeByteGroup(b0: Byte, b1: Byte, b2: Byte)
    ensures DecodeGroup(EncodeGroup([b0, b1, b2])) == Ok([b0, b1, b2])
  {
    var text, a, b, c, d := EncodeGroup([b0, b1, b2]), First(b0), Second(b0, b1), Third(b1, b2), Fourth(b2);
    CharValInverts(a);
    CharValInverts(b);
    CharValInverts(c);
    CharValInverts(d);
    Byte0Back(b0, b1);
    Byte1Back(b0, b1, b2);
    Byte2Back(b1, b2);
    DecodedValues(text, a, b, c, d);
    assert Bytes(a, b, c, d, true, true) == [b0, b1, b2];
  }

  lemma {:induction false} GroupRoundTrip(chunk: seq<Byte>)
    requires 0 < |chunk| <= 3
    ensures DecodeGroup(EncodeGroup(chunk)) == Ok(chunk)
  {
    if |chunk| == 1 {
      OneByteGroup(chunk[0]);
      assert chunk == [chunk[0]];
    } else if |chunk| == 2 {
      TwoByteGroup(chunk[0], chunk[1]);
      assert chunk == [chunk[0], chunk[1]];
    } else {
      ThreeByteGroup(chunk[0], chunk[1], chunk[2]);
      assert chunk == [chunk[0], chunk[1], chunk[2]];
    }
  }

  lemma {:induction false} EncodedLength(data: seq<Byte>)
    ensures |Encode(data)| == (|data| + 2) / 3 * 4
    decreases data
  {
    if data != [] {
      var n := Least(3, |data|);
      EncodedLength(data[n..]);
      ThirdsStep(|data|, n);
      assert |Encode(data)| == 4 + |Encode(data[n..])|;
    }
  }

  lemma {:induction false} ThirdsStep(m: nat, n: nat)
    requires m > 0 && n == Least(3, m)
    ensures (m + 2) / 3 == (m - n + 2) / 3 + 1
  {
  }

  lemma {:induction false} InFours(i: int, n: int)
    requires i % 4 == 0 && n % 4 == 0 && i < n
    ensures i + 4 <= n && (i + 4) % 4 == 0
  {
  }

  lemma {:induction false} GroupsRoundTrip(data: seq<Byte>)
    ensures DecodeGroups(Encode(data)) == Ok(data)
    decreases data
  {
    if data != [] {
      var n := Least(3, |data|);
      var group, rest := data[..n], data[n..];
      GroupRoundTrip(group);
      GroupsRoundTrip(rest);
      DecodeStep(EncodeGroup(group), Encode(rest));
      assert data == group + rest;
    }
  }

  lemma {:induction false} RoundTrip(data: seq<Byte>)
    ensures Decode(Encode(data)) == Ok(data)
  {
    EncodedLength(data);
    WholeGroups((|data| + 2) / 3);
    GroupsRoundTrip(data);
  }

  lemma {:induction false} WholeGroups(n: nat)
    ensures n * 4 % 4 == 0
  {
  }

  // ---------- The URL-safe form ----------

  function Replace(text: string, from: char, to: char): (r: string)
    ensures |r| == |text| && forall k :: 0 <= k < |text| ==> r[k] == if text[k] == from then to else text[k]
  {
    seq(|text|, k requires 0 <= k < |text| => if text[k] == from then to else text[k])
  }

  function TrimEnd(text: string, c: char): string {
    if text != "" && text[|text| - 1] == c then TrimEnd(text[..|text| - 1], c) else text
  }

  function Padding(n: nat): string {
    if n == 0 then "" else Padding(n - 1) + "="
  }

  function UrlEncode(data: seq<Byte>): string {
    TrimEnd(Replace(Replace(Encode(data), '+', '-'), '/', '_'), '=')
  }

  function UrlDecode(text: string): Result<seq<Byte>> {
    Decode(Replace(Replace(text, '-', '+'), '_', '/') + Padding((4 - |text| % 4) % 4))
  }

  method Base64UrlEncode(data: seq<Byte>) returns (text: string)
    ensures text == UrlEncode(data)
  {
    var encoded := Base64Encode(data);
    text := TrimEnd(Replace(Replace(encoded, '+', '-'), '/', '_'), '=');
  }

  method Base64UrlDecode(text: string) returns (r: Result<seq<Byte>>)
    ensures r == UrlDecode(text)
  {
    var s := Replace(Replace(text, '-', '+'), '_', '/');
    var pad := (4 - |s| % 4) % 4;
    ghost var unpadded := s;
    for i := 0 to pad
      invariant s == unpadded + Padding(i)
    {
      s := s + "=";
      assert unpadded + Padding(i) + "=" == unpadded + Padding(i + 1);
    }
    r := Base64Decode(s);
  }

  predicate Plain(text: string) {
    forall k :: 0 <= k < |text| ==> text[k] != '=' && text[k] != '-' && text[k] != '_' && CharVal(text[k]).Ok?
  }

  /** How many `=` end the encoding of `n` bytes. */
  function PadCount(n: nat): nat {
    if n % 3 == 0 then 0 else 3 - n % 3
  }

  /** The encoding without its padding. */
  function Body(data: seq<Byte>): string {
    if data == [] then ""
    else
      var n := Least(3, |data|);
      EncodeGroup(data[..n])[..n + 1] + Body(data[n..])
  }

  lemma {:induction false} GroupIsPlain(chunk: seq<Byte>)
    requires 0 < |chunk| <= 3
    ensures Plain(EncodeGroup(chunk)[..|chunk| + 1])
    ensures EncodeGroup(chunk) == EncodeGroup(chunk)[..|chunk| + 1] + Padding(3 - |chunk|)
  {
    var b0, b1, b2 := chunk[0], At(chunk, 1), At(chunk, 2);
    CharValInverts(First(b0));
    CharValInverts(Second(b0, b1));
    CharValInverts(Third(b1, b2));
    CharValInverts(Fourth(b2));
    assert Padding(1) == "=" && Padding(2) == "==";
  }

  lemma {:induction false} FullGroup(data: seq<Byte>)
    requires |data| > 3
    ensures Encode(data) == EncodeGroup(data[..3]) + Encode(data[3..])
    ensures Body(data) == EncodeGroup(data[..3]) + Body(data[3..])
    ensures Plain(EncodeGroup(data[..3]))
  {
    GroupIsPlain(data[..3]);
    assert EncodeGroup(data[..3])[..4] == EncodeGroup(data[..3]);
  }

  lemma {:induction false} LastGroup(data: seq<Byte>)
    requires 0 < |data| <= 3
    ensures Encode(data) == EncodeGroup(data) && Body(data) == EncodeGroup(data)[..|data| + 1]
  {
    assert data[..|data|] == data && data[|data|..] == [];
  }

  lemma {:induction false} PlainTogether(a: string, b: string)
    requires Plain(a) && Plain(b)
    ensures Plain(a + b)
  {
  }

  lemma {:induction false} PadCountShort(n: nat)
    requires 0 < n <= 3
    ensures PadCount(n) == 3 - n
  {
  }

  lemma {:induction false} PadCountDrop(n: nat)
    requires n > 3
    ensures PadCount(n) == PadCount(n - 3)
  {
  }

  lemma {:induction false} ShortBody(data: seq<Byte>)
    requires |data| <= 3
    ensures Encode(data) == Body(data) + Padding(PadCount(|data|)) && Plain(Body(data))
  {
    if data != [] {
      LastGroup(data);
      GroupIsPlain(data);
      PadCountShort(|data|);
    }
  }

  lemma {:induction false} BodyAndPadding(data: seq<Byte>)
    ensures Encode(data) == Body(data) + Padding(PadCount(|data|)) && Plain(Body(data))
    decreases data
  {
    if |data| <= 3 {
      ShortBody(data);
    } else {
      BodyAndPadding(data[3..]);
      PadCountDrop(|data|);
      FullGroup(data);
      PlainTogether(EncodeGroup(data[..3]), Body(data[3..]));
      Associates(EncodeGroup(data[..3]), Body(data[3..]), Padding(PadCount(|data|)));
    }
  }

  lemma {:induction false} PaddingLength(n: nat)
    ensures |Padding(n)| == n && forall k :: 0 <= k < n ==> Padding(n)[k] == '='
  {
    if n > 0 { PaddingLength(n - 1); }
  }

  lemma {:induction false} TrimPadding(text: string, n: nat)
    requires forall k :: 0 <= k < |text| ==> text[k] != '='
    ensures TrimEnd(text + Padding(n), '=') == text
  {
    if n == 0 {
      assert text + "" == text;
    } else {
      var whole := text + Padding(n);
      assert whole[..|whole| - 1] == text + Padding(n - 1);
      TrimPadding(text, n - 1);
    }
  }

  function UrlForm(text: string): string {
    Replace(Replace(text, '+', '-'), '/', '_')
  }

  function PlainForm(text: string): string {
    Replace(Replace(text, '-', '+'), '_', '/')
  }

  lemma {:induction false} UrlFormUndone(text: string)
    requires Plain(text)
    ensures PlainForm(UrlForm(text)) == text
  {
  }

  lemma {:induction false} UrlFormOfPadded(text: string, n: nat)
    requires Plain(text)
    ensures UrlForm(text + Padding(n)) == UrlForm(text) + Padding(n)
    ensures forall k :: 0 <= k < |text| ==> UrlForm(text)[k] != '='
  {
    PaddingLength(n);
  }

  lemma {:induction false} UrlText(data: seq<Byte>)
    ensures UrlEncode(data) == UrlForm(Body(data))
  {
    BodyAndPadding(data);
    UrlFormOfPadded(Body(data), PadCount(|data|));
    TrimPadding(UrlForm(Body(data)), PadCount(|data|));
  }

  lemma {:induction false} PaddingIsRestored(body: nat, n: nat)
    requires (body + PadCount(n)) % 4 == 0
    ensures (4 - body % 4) % 4 == PadCount(n)
  {
  }

  /** Every byte sequence survives the URL-safe form, although its padding is dropped. */
  lemma {:induction false} UrlRoundTrip(data: seq<Byte>)
    ensures UrlDecode(UrlEncode(data)) == Ok(data)
  {
    var body, pads := Body(data), PadCount(|data|);
    UrlText(data);
    BodyAndPadding(data);
    UrlFormUndone(body);
    PaddingLength(pads);
    EncodedLength(data);
    WholeGroups((|data| + 2) / 3);
    PaddingIsRestored(|body|, |data|);
    assert PlainForm(UrlForm(body)) + Padding((4 - |body| % 4) % 4) == Encode(data);
    RoundTrip(data);
  }

  // ---------- What the text carries ----------

  function Power2(n: nat): nat {
    if n == 0 then 1 else 2 * Power2(n - 1)
  }

  /** The low `n` bits of a number, most significant first. */
  function BitsOf(v: nat, n: nat): (bits: seq<nat>)
    ensures |bits| == n
  {
    if n == 0 then [] else BitsOf(v / 2, n - 1) + [v % 2]
  }

  function Zeros(n: nat): seq<nat> {
    if n == 0 then [] else Zeros(n - 1) + [0]
  }

  function Bits(data: seq<Byte>): seq<nat> {
    if data == [] then [] else BitsOf(data[0], 8) + Bits(data[1..])
  }

  /** The six bits a character stands for; padding stands for none. */
  function CharBits(c: char): seq<nat> {
    if c == '=' || CharVal(c).Err? then [] else BitsOf(CharVal(c).value, 6)
  }

  function TextBits(text: string): seq<nat> {
    if text == "" then [] else CharBits(text[0]) + TextBits(text[1..])
  }

  lemma {:induction false} BitsJoin(hi: nat, lo: nat, m: nat, n: nat)
    requires lo < Power2(n)
    ensures BitsOf(hi * Power2(n) + lo, m + n) == BitsOf(hi, m) + BitsOf(lo, n)
    decreases n
  {
    if n == 0 {
      assert hi * 1 + lo == hi;
    } else {
      var v := hi * Power2(n) + lo;
      assert v == 2 * (hi * Power2(n - 1)) + lo by { assert hi * (2 * Power2(n - 1)) == 2 * (hi * Power2(n - 1)); }
      Halve(hi * Power2(n - 1), lo);
      BitsJoin(hi, lo / 2, m, n - 1);
    }
  }

  lemma {:induction false} Halve(x: nat, lo: nat)
    ensures (2 * x + lo) / 2 == x + lo / 2 && (2 * x + lo) % 2 == lo % 2
  {
  }

  lemma {:induction false} ZeroBits(n: nat)
    ensures BitsOf(0, n) == Zeros(n)
  {
    if n > 0 { ZeroBits(n - 1); }
  }

  lemma {:induction false} TextBitsJoin(a: string, b: string)
    ensures TextBits(a + b) == TextBits(a) + TextBits(b)
    decreases a
  {
    if a == "" {
      assert a + b == b;
    } else {
      assert (a + b)[0] == a[0] && (a + b)[1..] == a[1..] + b;
      TextBitsJoin(a[1..], b);
    }
  }

  lemma {:induction false} BitsOfJoined(a: seq<Byte>, b: seq<Byte>)
    ensures Bits(a + b) == Bits(a) + Bits(b)
    decreases a
  {
    if a == [] {
      assert a + b == b;
    } else {
      assert (a + b)[0] == a[0] && (a + b)[1..] == a[1..] + b;
      BitsOfJoined(a[1..], b);
    }
  }

  lemma {:induction false} Powers()
    ensures Power2(2) == 4 && Power2(4) == 16 && Power2(6) == 64 && Power2(8) == 256
  {
    assert Power2(2) == 4;
    assert Power2(4) == 4 * Power2(2);
    assert Power2(6) == 4 * Power2(4);
    assert Power2(8) == 4 * Power2(6);
  }

  lemma {:induction false} SplitAt(v: nat, hi: nat, lo: nat, m: nat, n: nat)
    requires lo < Power2(n) && v == hi * Power2(n) + lo
    ensures BitsOf(v, m + n) == BitsOf(hi, m) + BitsOf(lo, n)
  {
    BitsJoin(hi, lo, m, n);
  }

  /** The sextets of one, two and three bytes hold their bits, in order, and then zeros. */
  lemma {:induction false} OneByteBits(b0: Byte)
    ensures BitsOf(First(b0), 6) + BitsOf(Second(b0, 0), 6) == BitsOf(b0, 8) + Zeros(4)
  {
    ByteCuts(b0, 0, 0);
    SextetCuts(b0, 0, 0);
    ZeroBits(4);
    Associates(BitsOf(b0 / 4, 6), BitsOf(b0 % 4, 2), Zeros(4));
  }

  lemma {:induction false} TwoByteBits(b0: Byte, b1: Byte)
    ensures BitsOf(First(b0), 6) + BitsOf(Second(b0, b1), 6) + BitsOf(Third(b1, 0), 6) ==
              BitsOf(b0, 8) + BitsOf(b1, 8) + Zeros(2)
  {
    ByteCuts(b0, b1, 0);
    SextetCuts(b0, b1, 0);
    ZeroBits(2);
    RejoinedFive(BitsOf(b0 / 4, 6), BitsOf(b0 % 4, 2), BitsOf(b1 / 16, 4), BitsOf(b1 % 16, 4), Zeros(2));
  }

  lemma {:induction false} ThreeByteBits(b0: Byte, b1: Byte, b2: Byte)
    ensures BitsOf(First(b0), 6) + BitsOf(Second(b0, b1), 6) + BitsOf(Third(b1, b2), 6) + BitsOf(Fourth(b2), 6)
         == BitsOf(b0, 8) + BitsOf(b1, 8) + BitsOf(b2, 8)
  {
    ByteCuts(b0, b1, b2);
    SextetCuts(b0, b1, b2);
    Rejoined(BitsOf(b0 / 4, 6), BitsOf(b0 % 4, 2), BitsOf(b1 / 16, 4), BitsOf(b1 % 16, 4), BitsOf(b2 / 64, 2),
      BitsOf(b2 % 64, 6));
  }

  lemma {:induction false} ByteCuts(b0: Byte, b1: Byte, b2: Byte)
    ensures BitsOf(b0, 8) == BitsOf(b0 / 4, 6) + BitsOf(b0 % 4, 2)
    ensures BitsOf(b1, 8) == BitsOf(b1 / 16, 4) + BitsOf(b1 % 16, 4)
    ensures BitsOf(b2, 8) == BitsOf(b2 / 64, 2) + BitsOf(b2 % 64, 6)
  {
    Powers();
    SplitAt(b0, b0 / 4, b0 % 4, 6, 2);
    SplitAt(b1, b1 / 16, b1 % 16, 4, 4);
    SplitAt(b2, b2 / 64, b2 % 64, 2, 6);
  }

  lemma {:induction false} SextetCuts(b0: Byte, b1: Byte, b2: Byte)
    ensures BitsOf(Second(b0, b1), 6) == BitsOf(b0 % 4, 2) + BitsOf(b1 / 16, 4)
    ensures BitsOf(Third(b1, b2), 6) == BitsOf(b1 % 16, 4) + BitsOf(b2 / 64, 2)
  {
    Powers();
    SplitAt(Second(b0, b1), b0 % 4, b1 / 16, 2, 4);
    SplitAt(Third(b1, b2), b1 % 16, b2 / 64, 4, 2);
  }

  lemma {:induction false} RejoinedFive(a: seq<nat>, b: seq<nat>, c: seq<nat>, d: seq<nat>, e: seq<nat>)
    ensures a + (b + c) + (d + e) == (a + b) + (c + d) + e
  {
  }

  lemma {:induction false} Rejoined(a: seq<nat>, b: seq<nat>, c: seq<nat>, d: seq<nat>, e: seq<nat>, f: seq<nat>)
    ensures a + (b + c) + (d + e) + f == (a + b) + (c + d) + (e + f)
  {
  }

  lemma {:induction false} FourCharacters(text: string)
    requires |text| == 4
    ensures TextBits(text) == CharBits(text[0]) + CharBits(text[1]) + CharBits(text[2]) + CharBits(text[3])
  {
    FirstCharacter(text);
    FirstCharacter(text[1..]);
    FirstCharacter(text[2..]);
    FirstCharacter(text[3..]);
    assert text[1..][1..] == text[2..] && text[2..][1..] == text[3..] && text[3..][1..] == "";
    Chain(CharBits(text[0]), CharBits(text[1]), CharBits(text[2]), CharBits(text[3]));
  }

  lemma {:induction false} FirstCharacter(text: string)
    requires text != ""
    ensures TextBits(text) == CharBits(text[0]) + TextBits(text[1..])
  {
  }

  lemma {:induction false} Chain(a: seq<nat>, b: seq<nat>, c: seq<nat>, d: seq<nat>)
    ensures a + (b + (c + (d + []))) == a + b + c + d
  {
  }

  lemma {:induction false} OneByte(b: Byte)
    ensures Bits([b]) == BitsOf(b, 8)
  {
    assert Bits([b][1..]) == [];
  }

  lemma {:induction false} ChunkBits(chunk: seq<Byte>)
    requires 0 < |chunk| <= 3
    ensures Bits(chunk) == BitsOf(chunk[0], 8) + (if |chunk| > 1 then BitsOf(chunk[1], 8) else []) +
              (if |chunk| > 2 then BitsOf(chunk[2], 8) else [])
  {
    OneByte(chunk[0]);
    if |chunk| == 1 {
      assert chunk == [chunk[0]];
    } else {
      OneByte(chunk[1]);
      BitsOfJoined([chunk[0]], [chunk[1]]);
      if |chunk| == 2 {
        assert chunk == [chunk[0]] + [chunk[1]];
      } else {
        OneByte(chunk[2]);
        BitsOfJoined([chunk[0]] + [chunk[1]], [chunk[2]]);
        assert chunk == [chunk[0]] + [chunk[1]] + [chunk[2]];
      }
    }
  }

  lemma {:induction false} GroupBits(chunk: seq<Byte>)
    requires 0 < |chunk| <= 3
    ensures TextBits(EncodeGroup(chunk)) == Bits(chunk) + Zeros(2 * (3 - |chunk|))
  {
    var b0, b1, b2 := chunk[0], At(chunk, 1), At(chunk, 2);
    FourCharacters(EncodeGroup(chunk));
    ChunkBits(chunk);
    CharValInverts(First(b0));
    CharValInverts(Second(b0, b1));
    CharValInverts(Third(b1, b2));
    CharValInverts(Fourth(b2));
    match |chunk| {
      case 1 => OneByteBits(b0);
      case 2 => TwoByteBits(b0, b1);
      case _ => ThreeByteBits(b0, b1, b2);
    }
  }

  /** The characters, six bits each, carry exactly the bits of the data, followed by the two or
      four zero bits that fill the last character. */
  lemma {:induction false} TextCarriesBits(data: seq<Byte>)
    ensures TextBits(Encode(data)) == Bits(data) + Zeros(2 * PadCount(|data|))
    decreases data
  {
    if |data| <= 3 {
      ShortTextBits(data);
    } else {
      TextCarriesBits(data[3..]);
      LongTextBits(data);
      PadCountDrop(|data|);
      Associates(Bits(data[..3]), Bits(data[3..]), Zeros(2 * PadCount(|data|)));
    }
  }

  lemma {:induction false} ShortTextBits(data: seq<Byte>)
    requires |data| <= 3
    ensures TextBits(Encode(data)) == Bits(data) + Zeros(2 * PadCount(|data|))
  {
    if data != [] {
      LastGroup(data);
      GroupBits(data);
      PadCountShort(|data|);
    }
  }

  lemma {:induction false} LongTextBits(data: seq<Byte>)
    requires |data| > 3
    ensures TextBits(Encode(data)) == Bits(data[..3]) + TextBits(Encode(data[3..]))
    ensures Bits(data) == Bits(data[..3]) + Bits(data[3..])
  {
    FullGroup(data);
    GroupBits(data[..3]);
    TextBitsJoin(EncodeGroup(data[..3]), Encode(data[3..]));
    BitsOfJoined(data[..3], data[3..]);
    assert data == data[..3] + data[3..] && Bits(data[..3]) + [] == Bits(data[..3]);
  }

  // ---------- What the decoders accept ----------

  predicate Readable(text: string) {
    forall k :: 0 <= k < |text| ==> CharVal(text[k]).Ok?
  }

  lemma {:induction false} GroupsAccept(text: string)
    requires |text| % 4 == 0
    ensures DecodeGroups(text).Ok? <==> Readable(text)
    decreases text
  {
    if text != "" {
      InFours(0, |text|);
      var group, rest := text[..4], text[4..];
      GroupsAccept(rest);
      DecodeStep(group, rest);
      assert text == group + rest;
      ReadableTogether(group, rest);
      GroupAccepts(group);
    }
  }

  lemma {:induction false} GroupAccepts(group: string)
    requires |group| == 4
    ensures DecodeGroup(group).Ok? <==> Readable(group)
  {
    if DecodeGroup(group).Ok? {
      forall k | 0 <= k < 4 ensures CharVal(group[k]).Ok? { assert k == 0 || k == 1 || k == 2 || k == 3; }
    }
  }

  lemma {:induction false} ReadableTogether(a: string, b: string)
    ensures Readable(a + b) <==> Readable(a) && Readable(b)
  {
    if Readable(a + b) {
      forall k | 0 <= k < |a| ensures CharVal(a[k]).Ok? { assert (a + b)[k] == a[k]; }
      forall k | 0 <= k < |b| ensures CharVal(b[k]).Ok? { assert (a + b)[|a| + k] == b[k]; }
    }
  }

  /** The URL-safe decoder rejects a text only for its characters, never for its length, and it
      still takes `+`, `/` and `=`. */
  lemma {:induction false} UrlDecodeAccepts(text: string)
    ensures UrlDecode(text).Ok? <==>
              forall k :: 0 <= k < |text| ==> text[k] == '-' || text[k] == '_' || CharVal(text[k]).Ok?
  {
    var pads := (4 - |text| % 4) % 4;
    PaddingLength(pads);
    assert (|text| + pads) % 4 == 0;
    GroupsAccept(PlainForm(text) + Padding(pads));
    ReadableTogether(PlainForm(text), Padding(pads));
    assert Readable(Padding(pads));
    PlainFormReadable(text);
  }

  lemma {:induction false} PlainFormReadable(text: string)
    ensures Readable(PlainForm(text)) <==>
              forall k :: 0 <= k < |text| ==> text[k] == '-' || text[k] == '_' || CharVal(text[k]).Ok?
  {
    forall k | 0 <= k < |text|
      ensures CharVal(PlainForm(text)[k]).Ok? <==> text[k] == '-' || text[k] == '_' || CharVal(text[k]).Ok?
    {
    }
  }

  /** The encoding is as short as it can be and uses the URL-safe alphabet only. */
  lemma {:induction false} UrlShape(data: seq<Byte>)
    ensures |UrlEncode(data)| == (4 * |data| + 2) / 3
    ensures forall c :: c in UrlEncode(data) ==> c in "-_" || (CharVal(c).Ok? && c !in "+/=")
  {
    UrlText(data);
    BodyAndPadding(data);
    PaddingLength(PadCount(|data|));
    EncodedLength(data);
    ShortestLength(|data|);
  }

  lemma {:induction false} ShortestLength(n: nat)
    ensures (n + 2) / 3 * 4 - PadCount(n) == (4 * n + 2) / 3
  {
    var q, r := n / 3, n % 3;
    assert n == 3 * q + r;
  }
}
