/** Delta plus unsigned LEB128 coding of sorted trigram sets (src/dedup.rs,
    `encode_sig` and `SigDecoder`). LEB128 is the variable-length unsigned
    coding of section 7.6 of DWARF 5: seven payload bits per byte, low group
    first, the top bit set on every byte but the last.

    Bit operations are written as arithmetic: `d & 0x7F` is `d % 128`, `d >> 7`
    is `d / 128`, and the accumulating `|=` is an addition because the
    accumulator is smaller than the shifted group's lowest bit (`OrIsSum`). */
module SigCodec {
  import opened Options
  import opened SortedSets

  type u8 = x: nat | x < 256 witness 0

  /** x shifted left by n bits, that is x * 2^n. */
  function Shl(x: nat, n: nat): (r: nat) {
    if n == 0 then x else 2 * Shl(x, n - 1)
  }

  lemma {:induction false} ShlMonotone(x: nat, y: nat, n: nat)
    requires x <= y
    ensures Shl(x, n) <= Shl(y, n)
  {
    if n > 0 { ShlMonotone(x, y, n - 1); }
  }

  lemma {:induction false} ShlSum(x: nat, y: nat, n: nat)
    ensures Shl(x + y, n) == Shl(x, n) + Shl(y, n)
  {
    if n > 0 { ShlSum(x, y, n - 1); }
  }

  lemma {:induction false} ShlFurther(x: nat, m: nat, n: nat)
    requires m <= n && x >= 1
    ensures Shl(x, m) <= Shl(x, n) && Shl(x, n) >= 1
  {
    if m < n { ShlFurther(x, m, n - 1); } else if n > 0 { ShlFurther(x, m - 1, n - 1); }
  }

  /** Shifting by seven more bits multiplies by 128. */
  lemma {:induction false} ShlSeven(x: nat, n: nat)
    ensures Shl(x, n + 7) == Shl(128 * x, n)
  {
    if n > 0 {
      ShlSeven(x, n - 1);
    } else {
      assert Shl(x, 7) == 2 * Shl(x, 6) == 4 * Shl(x, 5) == 8 * Shl(x, 4) == 16 * Shl(x, 3);
      assert Shl(x, 3) == 2 * Shl(x, 2) == 4 * Shl(x, 1) == 8 * Shl(x, 0);
    }
  }

  lemma {:induction false} ShlGroup(n: nat)
    ensures Shl(1, n + 7) == 128 * Shl(1, n)
  {
    if n > 0 { ShlGroup(n - 1); } else { ShlSeven(1, 0); }
  }

  /** The place values of the ten groups of a 64-bit word. */
  function PlaceValue(k: nat): nat
    requires k < 10
  {
    [0x1, 0x80, 0x4000, 0x20_0000, 0x1000_0000, 0x8_0000_0000, 0x400_0000_0000,
     0x2_0000_0000_0000, 0x100_0000_0000_0000, 0x8000_0000_0000_0000][k]
  }

  lemma {:induction false} ShlPlaceValue(k: nat)
    requires k < 10
    ensures Shl(1, 7 * k) == PlaceValue(k)
  {
    if k > 0 {
      ShlPlaceValue(k - 1);
      ShlGroup(7 * (k - 1));
    }
  }

  lemma ShlWord(n: nat)
    requires n == 63
    ensures 2 * Shl(1, n) == U64_LIMIT
  {
    ShlPlaceValue(n / 7);
  }

  /** Bitwise or. */
  function BitOr(x: nat, y: nat): nat {
    if x == 0 then y
    else 2 * BitOr(x / 2, y / 2) + if x % 2 == 1 || y % 2 == 1 then 1 else 0
  }

  /** Or-ing bits from position n upwards onto an accumulator below 2^n is adding them. */
  lemma {:induction false} OrIsSum(acc: nat, z: nat, n: nat)
    requires acc < Shl(1, n)
    ensures BitOr(acc, Shl(z, n)) == acc + Shl(z, n)
  {
    if acc > 0 {
      OrIsSum(acc / 2, z, n - 1);
      assert Shl(z, n) / 2 == Shl(z, n - 1) && Shl(z, n) % 2 == 0;
    }
  }

  // ----------------------------------------------------------------- encoding

  /** LEB128 bytes of one delta. */
  function Varint(d: nat): (bytes: seq<u8>)
    ensures |bytes| > 0
  {
    if d < 128 then [d] else [d % 128 + 128] + Varint(d / 128)
  }

  /** The number that groups of seven bits stand for, low group first. */
  function GroupValue(bytes: seq<u8>): nat {
    if bytes == [] then 0 else bytes[0] % 128 + 128 * GroupValue(bytes[1..])
  }

  /** Unsigned LEB128: every byte but the last has its top bit set, and the groups stand
      for the number. */
  lemma {:induction false} VarintIsLeb128(d: nat)
    ensures var bytes := Varint(d);
      && GroupValue(bytes) == d && bytes[|bytes| - 1] < 128
      && forall i :: 0 <= i < |bytes| - 1 ==> bytes[i] >= 128
  {
    if d >= 128 {
      VarintIsLeb128(d / 128);
      assert Varint(d)[1..] == Varint(d / 128);
    } else {
      assert Varint(d)[1..] == [];
    }
  }

  /** The last value coded so far, 0 before the first. */
  function Previous(s: seq<u64>): u64 {
    if s == [] then 0 else s[|s| - 1]
  }

  /** The signature blob: first value absolute, then the differences. */
  function Signature(s: seq<u64>): seq<u8>
    requires Increasing(s)
  {
    if s == [] then []
    else Signature(s[..|s| - 1]) + Varint(s[|s| - 1] - Previous(s[..|s| - 1]))
  }

  /** The program's encoding loops produce the signature blob. */
  method EncodeSig(s: seq<u64>) returns (out: seq<u8>)
    requires Increasing(s)
    ensures out == Signature(s)
  {
    out := [];
    var prev: u64 := 0;
    for idx := 0 to |s|
      invariant out == Signature(s[..idx])
      invariant prev == Previous(s[..idx])
    {
      var v := s[idx];
      var delta := if idx == 0 then v else v - prev;
      assert s[..idx + 1][..idx] == s[..idx];
      ghost var base := out;
      var d: nat := delta;
      while d >= 128
        invariant base + Varint(delta) == out + Varint(d)
      {
        out := out + [d % 128 + 128];
        d := d / 128;
      }
      out := out + [d];
      prev := v;
    }
    assert s[..|s|] == s;
  }

  // ----------------------------------------------------------------- decoding

  datatype Reading = Reading(delta: u64, next: nat)

  /** The seven payload bits of a byte, shifted into place in a 64-bit word;
      at shift 63 only the lowest bit stays in the word. */
  function Group(byte: u8, shift: nat): nat {
    Shl(if shift < 63 then byte % 128 else byte % 2, shift)
  }

  lemma {:induction false} ShlTimes(x: nat, n: nat)
    ensures Shl(x, n) == x * Shl(1, n)
  {
    if n > 0 { ShlTimes(x, n - 1); }
  }

  /** A group is the shift of the seven bits in a 64-bit word. */
  lemma GroupIsShiftInWord(byte: u8, shift: nat)
    requires shift < 64 && shift % 7 == 0
    ensures Group(byte, shift) == Shl(byte % 128, shift) % U64_LIMIT
  {
    if shift < 63 {
      EarlyGroup(byte % 128, shift);
      InsideWord(Shl(byte % 128, shift));
    } else {
      LastGroup(byte % 128, shift);
      LowBit(byte);
    }
  }

  lemma InsideWord(x: nat)
    requires x < U64_LIMIT
    ensures x % U64_LIMIT == x
  {}

  lemma LowBit(byte: u8)
    ensures (byte % 128) % 2 == byte % 2
  {}

  lemma EarlyGroup(bits: nat, shift: nat)
    requires bits < 128 && shift < 63 && shift % 7 == 0
    ensures Shl(bits, shift) < U64_LIMIT
  {
    var last: nat := 63;
    ShlWord(last);
    ShlMonotone(bits, 128, shift);
    ShlSeven(1, shift);
    ShlFurther(1, shift + 7, last);
  }

  /** Of the tenth group only the lowest bit is inside the word. */
  lemma LastGroup(bits: nat, last: nat)
    requires last == 63
    ensures Shl(bits, last) % U64_LIMIT == Shl(bits % 2, last)
  {
    ShlWord(last);
    ShlSum(2 * (bits / 2), bits % 2, last);
    ShlTimes(2 * (bits / 2), last);
    ShlTimes(bits % 2, last);
    ShlMonotone(bits % 2, 1, last);
    WholeWords(bits / 2, Shl(1, last), Shl(bits % 2, last));
  }

  lemma WholeWords(k: nat, half: nat, rest: nat)
    requires 2 * half == U64_LIMIT && rest <= half
    ensures (2 * k * half + rest) % U64_LIMIT == rest
  {
    assert 2 * k * half + rest == k * U64_LIMIT + rest;
  }

  lemma GroupFits(acc: nat, shift: nat, byte: u8)
    requires shift < 64 && shift % 7 == 0 && acc < Shl(1, shift)
    ensures acc + Group(byte, shift) < U64_LIMIT
    ensures shift < 63 ==> acc + Group(byte, shift) < Shl(1, shift + 7)
  {
    ShlWord(63);
    if shift < 63 {
      ShlSeven(1, shift);
      ShlSum(127, 1, shift);
      ShlMonotone(byte % 128, 127, shift);
      ShlFurther(1, shift + 7, 63);
    } else {
      ShlMonotone(byte % 2, 1, shift);
    }
  }

  /** One varint starting at pos, as `next_value` reads it. */
  function ReadVarint(buf: seq<u8>, pos: nat, shift: nat, acc: nat): Option<Reading>
    requires shift % 7 == 0 && (shift < 64 ==> acc < Shl(1, shift))
    decreases |buf| - pos
  {
    if pos >= |buf| || shift >= 64 then None
    else
      var byte := buf[pos];
      GroupFits(acc, shift, byte);
      var acc' := acc + Group(byte, shift);
      if byte < 128 then Some(Reading(acc', pos + 1))
      else ReadVarint(buf, pos + 1, shift + 7, acc')
  }

  /** The groups of d stand at pos, and they fit the word above what was read so far. */
  ghost predicate Awaits(buf: seq<u8>, pos: nat, shift: nat, acc: nat, d: nat) {
    && shift % 7 == 0 && acc < Shl(1, shift) && acc + Shl(d, shift) < U64_LIMIT && (d > 0 || shift == 0)
    && HoldsAt(buf, pos, Varint(d))
  }

  ghost predicate ReadsBack(buf: seq<u8>, pos: nat, shift: nat, acc: nat, d: nat)
    requires Awaits(buf, pos, shift, acc, d)
  {
    ReadVarint(buf, pos, shift, acc) == Some(Reading(acc + Shl(d, shift), pos + |Varint(d)|))
  }

  /** Reading back an encoded delta. */
  lemma {:induction false} VarintReadsBack(buf: seq<u8>, pos: nat, shift: nat, acc: nat, d: nat)
    requires Awaits(buf, pos, shift, acc, d)
    ensures ReadsBack(buf, pos, shift, acc, d)
    decreases d
  {
    if d < 128 {
      LastByteReadsBack(buf, pos, shift, acc, d);
    } else {
      var byte, high := d % 128 + 128, d / 128;
      FirstByteIsRead(buf, pos, shift, acc, d, byte, high);
      VarintReadsBack(buf, pos + 1, shift + 7, acc + Group(byte, shift), high);
    }
  }

  lemma FirstByteIsRead(buf: seq<u8>, pos: nat, shift: nat, acc: nat, d: nat, byte: u8, high: nat)
    requires Awaits(buf, pos, shift, acc, d) && d >= 128 && byte == d % 128 + 128 && high == d / 128
    ensures Awaits(buf, pos + 1, shift + 7, acc + Group(byte, shift), high)
    ensures ReadsBack(buf, pos + 1, shift + 7, acc + Group(byte, shift), high) ==> ReadsBack(buf, pos, shift, acc, d)
  {
    ShiftBound(d, shift);
    NextGroup(acc, shift, d, byte, high);
    RestOfVarint(buf, pos, d, byte, high);
    EarlierByte(buf, pos, shift, acc, byte);
  }

  /** The bytes stand at a position of the buffer. */
  ghost predicate HoldsAt(buf: seq<u8>, pos: nat, bytes: seq<u8>) {
    pos + |bytes| <= |buf| && buf[pos..pos + |bytes|] == bytes
  }

  lemma LastByteReadsBack(buf: seq<u8>, pos: nat, shift: nat, acc: nat, d: nat)
    requires Awaits(buf, pos, shift, acc, d) && d < 128
    ensures ReadsBack(buf, pos, shift, acc, d)
  {
    ShiftBound(d, shift);
    assert buf[pos] == buf[pos..pos + 1][0] == d;
    assert d == if shift < 63 then d % 128 else d % 2;
  }

  lemma RestOfVarint(buf: seq<u8>, pos: nat, d: nat, byte: u8, high: nat)
    requires d >= 128 && byte == d % 128 + 128 && high == d / 128 && HoldsAt(buf, pos, Varint(d))
    ensures pos < |buf| && buf[pos] == byte && |Varint(d)| == 1 + |Varint(high)| && HoldsAt(buf, pos + 1, Varint(high))
  {
    assert Varint(d) == [byte] + Varint(high);
    assert buf[pos] == Varint(d)[0];
    assert buf[pos + 1..pos + |Varint(d)|] == buf[pos..pos + |Varint(d)|][1..];
  }

  /** A byte with the continuation bit adds its group and goes on. */
  lemma EarlierByte(buf: seq<u8>, pos: nat, shift: nat, acc: nat, byte: u8)
    requires shift % 7 == 0 && shift < 63 && acc < Shl(1, shift) && pos < |buf| && buf[pos] == byte >= 128
    ensures acc + Group(byte, shift) < Shl(1, shift + 7)
    ensures ReadVarint(buf, pos, shift, acc) == ReadVarint(buf, pos + 1, shift + 7, acc + Group(byte, shift))
  {
    GroupFits(acc, shift, byte);
  }

  /** Taking one group of a longer value leaves the rest, seven bits up. */
  lemma NextGroup(acc: nat, shift: nat, d: nat, byte: u8, high: nat)
    requires shift % 7 == 0 && shift < 63 && acc < Shl(1, shift) && d >= 128 && byte == d % 128 + 128 && high == d / 128
    ensures acc + Group(byte, shift) < Shl(1, shift + 7)
    ensures acc + Group(byte, shift) + Shl(high, shift + 7) == acc + Shl(d, shift)
  {
    ShlSeven(high, shift);
    ShlSum(128 * high, d % 128, shift);
    GroupFits(acc, shift, byte);
  }

  lemma WordOverflow(d: nat, shift: nat)
    requires (shift >= 64 && d >= 1) || (shift == 63 && d >= 2)
    ensures Shl(d, shift) >= U64_LIMIT
  {
    var n: nat := 63;
    ShlWord(n);
    if shift >= 64 {
      ShlMonotone(1, d, shift);
      ShlFurther(1, n + 1, shift);
      assert Shl(1, n + 1) == 2 * Shl(1, n);
    } else {
      ShlMonotone(2, d, n);
      ShlSum(1, 1, n);
    }
  }

  lemma ShiftBound(d: nat, shift: nat)
    requires Shl(d, shift) < U64_LIMIT && (d > 0 || shift == 0)
    ensures shift < 64 && (d >= 2 ==> shift < 63)
  {
    if shift >= 64 || (shift == 63 && d >= 2) { WordOverflow(d, shift); }
  }

  // ------------------------------------------------------- decoding a sequence

  datatype Cursor = Cursor(pos: nat, prev: u64, first: bool)

  const START := Cursor(0, 0, true)

  /** The next value and the cursor behind it; None on malformed input. */
  function Next(buf: seq<u8>, c: Cursor): Option<(u64, Cursor)> {
    match ReadVarint(buf, c.pos, 0, 0)
    case None => None
    case Some(Reading(delta, next)) =>
      if c.first then Some((delta, Cursor(next, delta, false)))
      else if delta == 0 || c.prev + delta >= U64_LIMIT then None
      else Some((c.prev + delta, Cursor(next, c.prev + delta, false)))
  }

  /** The first k values and the cursor behind them. */
  function Decode(buf: seq<u8>, k: nat): (r: Option<(seq<u64>, Cursor)>)
    ensures r.Some? ==> |r.value.0| == k && r.value.1.first == (k == 0) && r.value.1.prev == Previous(r.value.0)
    ensures r.Some? ==> Increasing(r.value.0)
  {
    if k == 0 then Some(([], START))
    else
      match Decode(buf, k - 1)
      case None => None
      case Some((s, c)) =>
        match Next(buf, c)
        case None => None
        case Some((v, c')) => Some((s + [v], c'))
  }

  /** The blob holds exactly k values and nothing else. */
  function Decoded(buf: seq<u8>, k: nat): (r: Option<seq<u64>>)
    ensures r.Some? ==> |r.value| == k && Increasing(r.value)
  {
    match Decode(buf, k)
    case None => None
    case Some((s, c)) => if c.pos >= |buf| then Some(s) else None
  }

  /** Decoding more values extends the values already decoded. */
  lemma {:induction false} DecodeExtends(buf: seq<u8>, j: nat, k: nat)
    requires j <= k && Decode(buf, k).Some?
    ensures Decode(buf, j).Some? && Decode(buf, j).value.0 <= Decode(buf, k).value.0
  {
    if j < k { DecodeExtends(buf, j, k - 1); }
  }

  lemma DecodeOneMore(buf: seq<u8>, s: seq<u64>, c: Cursor)
    requires Decode(buf, |s|) == Some((s, c))
    ensures Next(buf, c) == None <==> Decode(buf, |s| + 1) == None
    ensures Next(buf, c).Some? ==> Decode(buf, |s| + 1) == Some((s + [Next(buf, c).value.0], Next(buf, c).value.1))
  {}

  /** One more value reads back at its place in the blob. */
  lemma NextReadsBack(buf: seq<u8>, c: Cursor, d: nat)
    requires (c.first ==> c.prev == 0) && (!c.first ==> d > 0) && c.prev + d < U64_LIMIT
    requires HoldsAt(buf, c.pos, Varint(d))
    ensures Next(buf, c) == Some((c.prev + d, Cursor(c.pos + |Varint(d)|, c.prev + d, false)))
  {
    VarintReadsBack(buf, c.pos, 0, 0, d);
    assert Shl(d, 0) == d;
    assert ReadVarint(buf, c.pos, 0, 0) == Some(Reading(d, c.pos + |Varint(d)|));
  }

  /** The blob of a longer list is the blob of the shorter one plus one code. */
  lemma SignatureStep(s: seq<u64>)
    requires Increasing(s) && s != []
    ensures var front := s[..|s| - 1];
      && Increasing(front) && Previous(front) <= s[|s| - 1] && (front != [] ==> Previous(front) < s[|s| - 1])
      && Signature(s) == Signature(front) + Varint(s[|s| - 1] - Previous(front))
  {
    if |s| > 1 { assert s[|s| - 2] < s[|s| - 1]; }
  }

  lemma SplitPrefix(a: seq<u8>, b: seq<u8>, buf: seq<u8>)
    requires a + b <= buf
    ensures a <= buf && |a| + |b| <= |buf| && buf[|a|..|a| + |b|] == b
  {
    assert buf[..|a| + |b|] == a + b;
  }

  /** A signature reads back value by value, whatever bytes follow it. */
  lemma {:induction false} SignatureReadsBack(s: seq<u64>, buf: seq<u8>)
    requires Increasing(s) && Signature(s) <= buf
    ensures Decode(buf, |s|) == Some((s, CursorAfter(s)))
  {
    if s != [] {
      var front := s[..|s| - 1];
      assert Increasing(front);
      NextValueReadsBack(s, buf);
      SignatureReadsBack(front, buf);
      DecodeOneMore(buf, front, CursorAfter(front));
    }
  }

  /** Where the decoder stands after the values of s. */
  function CursorAfter(s: seq<u64>): Cursor
    requires Increasing(s)
  {
    Cursor(|Signature(s)|, Previous(s), s == [])
  }

  lemma NextValueReadsBack(s: seq<u64>, buf: seq<u8>)
    requires Increasing(s) && s != [] && Signature(s) <= buf
    ensures var front := s[..|s| - 1];
      && Increasing(front) && Signature(front) <= buf && s == front + [s[|s| - 1]]
      && Next(buf, CursorAfter(front)) == Some((s[|s| - 1], CursorAfter(s)))
  {
    var front, last := s[..|s| - 1], s[|s| - 1];
    SignatureStep(s);
    SplitPrefix(Signature(front), Varint(last - Previous(front)), buf);
    NextReadsBack(buf, CursorAfter(front), last - Previous(front));
  }

  /** Encoding then decoding is the identity. */
  lemma RoundTrip(s: seq<u64>)
    requires Increasing(s)
    ensures Decoded(Signature(s), |s|) == Some(s)
  {
    SignatureReadsBack(s, Signature(s));
  }

  /** The streaming decoder. */
  class SigDecoder {
    const buf: seq<u8>
    var pos: nat
    var prev: u64
    var first: bool

    ghost function State(): Cursor
      reads this
    {
      Cursor(pos, prev, first)
    }

    constructor (blob: seq<u8>)
      ensures buf == blob && State() == START
    {
      buf := blob;
      pos, prev, first := 0, 0, true;
    }

    predicate Exhausted()
      reads this
    {
      pos >= |buf|
    }

    /** The next code: reads bytes until one without the continuation bit. */
    method NextDelta() returns (r: Option<u64>)
      modifies this`pos
      ensures r == None <==> ReadVarint(buf, old(pos), 0, 0) == None
      ensures r.Some? ==> ReadVarint(buf, old(pos), 0, 0) == Some(Reading(r.value, pos))
    {
      var delta: nat, shift := 0, 0;
      while true
        invariant shift % 7 == 0 && (shift < 64 ==> delta < Shl(1, shift))
        invariant ReadVarint(buf, old(pos), 0, 0) == ReadVarint(buf, pos, shift, delta)
        decreases |buf| - pos
      {
        if pos >= |buf| {
          return None;
        }
        var byte := buf[pos];
        pos := pos + 1;
        if shift >= 64 {
          return None;
        }
        GroupFits(delta, shift, byte);
        OrIsSum(delta, if shift < 63 then byte % 128 else byte % 2, shift);
        delta := BitOr(delta, Group(byte, shift));
        if byte < 128 {
          return Some(delta);
        }
        shift := shift + 7;
      }
    }

    /** Either the next value of the specification, or None on malformed input. */
    method NextValue() returns (r: Option<u64>)
      modifies this
      ensures r == None <==> Next(buf, old(State())) == None
      ensures r.Some? ==> Next(buf, old(State())) == Some((r.value, State()))
    {
      var delta := NextDelta();
      if delta == None {
        return None;
      }
      var v: u64;
      if first {
        first := false;
        v := delta.value;
      } else {
        if delta.value == 0 || prev + delta.value >= U64_LIMIT {
          return None;
        }
        v := prev + delta.value;
      }
      prev := v;
      r := Some(v);
    }
  }
}
