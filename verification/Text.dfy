/** Character classes and byte lengths of Unicode text, as the Rust standard
    library defines them for `char` and `str`. */
module Text {

  /** `char::is_whitespace`: the Unicode White_Space property. */
  predicate IsWhitespace(c: char) {
    var n := c as int;
    || 0x9 <= n <= 0xD || n == 0x20 || n == 0x85 || n == 0xA0 || n == 0x1680
    || 0x2000 <= n <= 0x200A || n == 0x2028 || n == 0x2029 || n == 0x202F || n == 0x205F || n == 0x3000
  }

  /** `char::is_control`: general category Cc. */
  predicate IsControl(c: char) {
    c as int <= 0x1F || 0x7F <= c as int <= 0x9F
  }

  /** Nothing is left after trimming. */
  predicate Blank(s: string) {
    forall i :: 0 <= i < |s| ==> IsWhitespace(s[i])
  }

  /** Bytes of one scalar value in UTF-8 (section 3 of RFC 3629). */
  function Utf8Width(c: char): (n: nat)
    ensures 1 <= n <= 4
  {
    if c as int < 0x80 then 1 else if c as int < 0x800 then 2 else if c as int < 0x1_0000 then 3 else 4
  }

  /** A lower-case hexadecimal SHA-256 digest. */
  predicate IsSha256(s: string) {
    |s| == 64 && forall i :: 0 <= i < |s| ==> '0' <= s[i] <= '9' || 'a' <= s[i] <= 'f'
  }

  /** `str::len`: length in bytes. */
  function Utf8Length(s: string): nat {
    if s == [] then 0 else Utf8Length(s[..|s| - 1]) + Utf8Width(s[|s| - 1])
  }

  /** Printable ASCII text is as long in bytes as in characters. */
  lemma {:induction false} AsciiLength(s: string)
    requires forall i :: 0 <= i < |s| ==> ' ' < s[i] <= '~'
    ensures Utf8Length(s) == |s| && (s != [] ==> !Blank(s)) && forall i :: 0 <= i < |s| ==> !IsControl(s[i])
  {
    if s != [] {
      AsciiLength(s[..|s| - 1]);
      assert !IsWhitespace(s[|s| - 1]);
    }
  }

  // --------------------------------------------------------- splitting on a separator

  /** `split(sep)`: the pieces between separators; one empty piece for no text. */
  function Pieces(s: string, sep: char): (pieces: seq<string>)
    ensures pieces != []
  {
    if s == [] then [""]
    else
      var before, c := Pieces(s[..|s| - 1], sep), s[|s| - 1];
      if c == sep then before + [""] else Lengthened(before, c)
  }

  /** The last piece gets one more character. */
  function Lengthened(pieces: seq<string>, c: char): seq<string>
    requires pieces != []
  {
    pieces[..|pieces| - 1] + [pieces[|pieces| - 1] + [c]]
  }

  /** A separator between two texts separates their pieces. */
  lemma {:induction false} PiecesOfJoin(a: string, b: string, sep: char)
    ensures Pieces(a + [sep] + b, sep) == Pieces(a, sep) + Pieces(b, sep)
  {
    if b == [] {
      PiecesOfOneMore(a, sep, sep);
      assert a + [sep] + b == a + [sep];
    } else {
      var front, c := b[..|b| - 1], b[|b| - 1];
      PiecesOfJoin(a, front, sep);
      PiecesOfOneMore(a + [sep] + front, c, sep);
      PiecesOfOneMore(front, c, sep);
      assert b == front + [c] && a + [sep] + b == a + [sep] + front + [c];
      GrowTail(Pieces(a, sep), Pieces(front, sep), c, sep);
    }
  }

  /** One character more starts a piece or lengthens the last one. */
  function Grown(pieces: seq<string>, c: char, sep: char): seq<string>
    requires pieces != []
  {
    if c == sep then pieces + [""] else Lengthened(pieces, c)
  }

  lemma PiecesOfOneMore(s: string, c: char, sep: char)
    ensures Pieces(s + [c], sep) == Grown(Pieces(s, sep), c, sep)
  {
    assert (s + [c])[..|s|] == s;
  }

  lemma GrowTail(x: seq<string>, y: seq<string>, c: char, sep: char)
    requires y != []
    ensures Grown(x + y, c, sep) == x + Grown(y, c, sep)
  {
    if c == sep {
      assert (x + y) + [""] == x + (y + [""]);
    } else {
      LengthenedTail(x, y, c);
    }
  }

  lemma LengthenedTail(x: seq<string>, y: seq<string>, c: char)
    requires y != []
    ensures Lengthened(x + y, c) == x + Lengthened(y, c)
  {
    assert (x + y)[..|x + y| - 1] == x + y[..|y| - 1];
  }

  /** Text without a separator is one piece. */
  lemma {:induction false} OnePiece(s: string, sep: char)
    requires sep !in s
    ensures Pieces(s, sep) == [s]
  {
    if s != [] {
      OnePiece(s[..|s| - 1], sep);
      assert s == s[..|s| - 1] + [s[|s| - 1]];
    }
  }

  lemma {:induction false} PiecesHoldNoSeparator(s: string, sep: char)
    ensures forall k :: 0 <= k < |Pieces(s, sep)| ==> sep !in Pieces(s, sep)[k]
  {
    if s != [] { PiecesHoldNoSeparator(s[..|s| - 1], sep); }
  }

  /** The pieces determine the text. */
  lemma {:induction false} PiecesAreInjective(s: string, t: string, sep: char)
    requires Pieces(s, sep) == Pieces(t, sep)
    ensures s == t
    decreases |s|
  {
    if s == [] || t == [] {
      if s != [] { NotOnePiece(s, sep); }
      if t != [] { NotOnePiece(t, sep); }
    } else {
      var front, c, front', c' := s[..|s| - 1], s[|s| - 1], t[..|t| - 1], t[|t| - 1];
      assert s == front + [c] && t == front' + [c'];
      PiecesOfOneMore(front, c, sep);
      PiecesOfOneMore(front', c', sep);
      GrownIsInjective(Pieces(front, sep), c, Pieces(front', sep), c', sep);
      PiecesAreInjective(front, front', sep);
    }
  }

  lemma NotOnePiece(s: string, sep: char)
    requires s != []
    ensures Pieces(s, sep) != [""]
  {
    var front, c := s[..|s| - 1], s[|s| - 1];
    assert s == front + [c];
    PiecesOfOneMore(front, c, sep);
  }

  lemma GrownIsInjective(p: seq<string>, c: char, q: seq<string>, d: char, sep: char)
    requires p != [] && q != [] && Grown(p, c, sep) == Grown(q, d, sep)
    ensures p == q && c == d
  {
    var r, n, m := Grown(p, c, sep), |p| - 1, |q| - 1;
    if c == sep {
      assert r[|r| - 1] == "" && d == sep;
      assert p == r[..|p|] && q == r[..|q|];
    } else {
      assert r[|r| - 1] == p[n] + [c];
      assert d != sep && r[|r| - 1] == q[m] + [d];
      assert p[n] == r[n][..|r[n]| - 1] && q[m] == r[m][..|r[m]| - 1];
      assert p == r[..n] + [p[n]] && q == r[..m] + [q[m]];
    }
  }
}
