/** The UTF-8 encoding (section 3 of RFC 3629) and slicing by byte offsets. */
module Utf8 {
  import opened Text

  type Byte = n: nat | n < 256

  /** Continuation byte number `k` of a scalar value, counted from the end. */
  function Tail(n: nat, k: nat): Byte
    requires k <= 2
  {
    0x80 + (if k == 0 then n else if k == 1 then n / 64 else n / 4096) % 64
  }

  function EncodeChar(c: char): (bytes: seq<Byte>)
    ensures |bytes| == Utf8Width(c)
  {
    var n := c as int;
    if n < 0x80 then [n]
    else if n < 0x800 then [0xC0 + n / 64, Tail(n, 0)]
    else if n < 0x1_0000 then [0xE0 + n / 4096, Tail(n, 1), Tail(n, 0)]
    else [0xF0 + n / 262144, Tail(n, 2), Tail(n, 1), Tail(n, 0)]
  }

  function Encode(s: string): seq<Byte> {
    if s == [] then [] else Encode(s[..|s| - 1]) + EncodeChar(s[|s| - 1])
  }

  /** Byte offset of character number `k`. */
  function Offset(s: string, k: nat): nat
    requires k <= |s|
  {
    |Encode(s[..k])|
  }

  lemma {:induction false} EncodedLength(s: string)
    ensures |Encode(s)| == Utf8Length(s)
  {
    if s != [] { EncodedLength(s[..|s| - 1]); }
  }

  lemma {:induction false} EncodeConcat(s: string, t: string)
    ensures Encode(s + t) == Encode(s) + Encode(t)
  {
    if t == [] {
      assert s + t == s;
    } else {
      EncodeConcat(s, t[..|t| - 1]);
      assert (s + t)[..|s + t| - 1] == s + t[..|t| - 1];
      Associate(Encode(s), Encode(t[..|t| - 1]), EncodeChar(t[|t| - 1]));
    }
  }

  lemma Associate(x: seq<Byte>, y: seq<Byte>, z: seq<Byte>)
    ensures x + (y + z) == (x + y) + z
  {}

  /** A slice between two character offsets is the encoding of that substring, so
      it starts and ends on character boundaries. */
  lemma SliceIsEncoding(s: string, a: nat, b: nat)
    requires a <= b <= |s|
    ensures Offset(s, a) <= Offset(s, b) <= |Encode(s)| && Offset(s, |s|) == |Encode(s)|
    ensures Encode(s)[Offset(s, a)..Offset(s, b)] == Encode(s[a..b])
  {
    EncodeThree(s[..a], s[a..b], s[b..], s[..b], s);
    Middle(Encode(s[..a]), Encode(s[a..b]), Encode(s[b..]));
    assert s[..|s|] == s;
  }

  lemma EncodeThree(x: string, y: string, z: string, xy: string, s: string)
    requires xy == x + y && s == xy + z
    ensures Encode(xy) == Encode(x) + Encode(y) && Encode(s) == Encode(x) + Encode(y) + Encode(z)
  {
    EncodeConcat(x, y);
    EncodeConcat(xy, z);
  }

  lemma Middle(x: seq<Byte>, y: seq<Byte>, z: seq<Byte>)
    ensures (x + y + z)[|x|..|x + y|] == y
  {}

  /** How many bytes a lead byte announces. */
  function Announced(lead: Byte): nat {
    if lead < 0x80 then 1 else if lead < 0xE0 then 2 else if lead < 0xF0 then 3 else 4
  }

  lemma LeadAnnouncesWidth(c: char)
    ensures Announced(EncodeChar(c)[0]) == Utf8Width(c)
  {}

  lemma CharReadsBack(c: char, d: char)
    requires EncodeChar(c) == EncodeChar(d)
    ensures c == d
  {
    var bytes, n := EncodeChar(c), c as int;
    assert bytes[0] == EncodeChar(d)[0];
    Value(n);
    Value(d as int);
  }

  lemma Value(n: nat)
    ensures n == (n / 64) * 64 + n % 64
    ensures n / 64 == (n / 4096) * 64 + (n / 64) % 64
    ensures n / 4096 == (n / 262144) * 64 + (n / 4096) % 64
  {}

  /** Equal encodings come from equal strings. */
  lemma {:induction false} EncodeIsInjective(s: string, t: string)
    requires Encode(s) == Encode(t)
    ensures s == t
    decreases |s|
  {
    if s == [] || t == [] {
      assert s != [] ==> |Encode(s)| > 0;
      assert t != [] ==> |Encode(t)| > 0;
    } else {
      EncodeConcat([s[0]], s[1..]);
      EncodeConcat([t[0]], t[1..]);
      assert s == [s[0]] + s[1..] && t == [t[0]] + t[1..];
      EncodeOne(s[0]);
      EncodeOne(t[0]);
      SameFirst(s[0], t[0], Encode(s[1..]), Encode(t[1..]));
      EncodeIsInjective(s[1..], t[1..]);
    }
  }

  lemma EncodeOne(c: char)
    ensures Encode([c]) == EncodeChar(c)
  {
    assert [c][..0] == [] && Encode([]) == [];
  }

  lemma SameFirst(c: char, d: char, x: seq<Byte>, y: seq<Byte>)
    requires EncodeChar(c) + x == EncodeChar(d) + y
    ensures c == d && x == y
  {
    var a, b := EncodeChar(c), EncodeChar(d);
    LeadAnnouncesWidth(c);
    LeadAnnouncesWidth(d);
    assert a[0] == (a + x)[0] && b[0] == (b + y)[0];
    assert a == (a + x)[..|a|] && b == (b + y)[..|b|];
    assert x == (a + x)[|a|..] && y == (b + y)[|b|..];
    CharReadsBack(c, d);
  }
}
