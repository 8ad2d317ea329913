/** JavaScript strings as UTF-16 code units, and their UTF-8 bytes (identity.ts). */
module CodeUnits {
  import opened Wrappers
  import opened Ordering

  type CodeUnit = u: int | 0 <= u < 0x1_0000
  type Byte = b: int | 0 <= b < 0x100
  type Text = seq<CodeUnit>

  /** A Unicode scalar value: a code point that is not a surrogate. */
  type Scalar = c: int | 0 <= c < 0xD800 || 0xE000 <= c < 0x11_0000

  predicate Leading(u: int) { 0xD800 <= u <= 0xDBFF }
  predicate Trailing(u: int) { 0xDC00 <= u <= 0xDFFF }

  // -- UTF-16 -----------------------------------------------------------------

  function UnitsOf(c: Scalar): Text {
    if c < 0x1_0000 then
      [c as CodeUnit]
    else
      var high: CodeUnit, low: CodeUnit := 0xD800 + (c - 0x1_0000) / 0x400, 0xDC00 + (c - 0x1_0000) % 0x400;
      [high, low]
  }

  /** The string spelling some scalar values. */
  function Units(cs: seq<Scalar>): Text {
    if cs == [] then [] else UnitsOf(cs[0]) + Units(cs[1..])
  }

  /** The string is a concatenation of non-surrogates and surrogate pairs: it spells some scalar values. */
  ghost predicate WellFormed(t: Text) {
    exists cs :: Units(cs) == t
  }

  /** Reading scalar values off the front of a string. */
  function Scalars(t: Text): Option<seq<Scalar>> {
    if t == [] then Some([])
    else if Leading(t[0]) then
      if |t| >= 2 && Trailing(t[1]) then
        match Scalars(t[2..])
        case None => None
        case Some(cs) => Some([0x1_0000 + (t[0] - 0xD800) * 0x400 + (t[1] - 0xDC00)] + cs)
      else None
    else if Trailing(t[0]) then None
    else
      match Scalars(t[1..])
      case None => None
      case Some(cs) => Some([t[0]] + cs)
  }

  lemma PairOf(c: Scalar)
    requires c >= 0x1_0000
    ensures |UnitsOf(c)| == 2 && Leading(UnitsOf(c)[0]) && Trailing(UnitsOf(c)[1])
    ensures 0x1_0000 + (UnitsOf(c)[0] as int - 0xD800) * 0x400 + (UnitsOf(c)[1] as int - 0xDC00) == c
  {
  }

  lemma PlainStep(u: CodeUnit, rest: Text)
    requires !Leading(u) && !Trailing(u) && Scalars(rest).Some?
    ensures Scalars([u] + rest) == Some([u] + Scalars(rest).value)
  {
    assert ([u] + rest)[1..] == rest;
  }

  lemma PairStep(high: CodeUnit, low: CodeUnit, rest: Text)
    requires Leading(high) && Trailing(low) && Scalars(rest).Some?
    ensures Scalars([high, low] + rest)
         == Some([0x1_0000 + (high - 0xD800) * 0x400 + (low - 0xDC00)] + Scalars(rest).value)
  {
    assert ([high, low] + rest)[2..] == rest;
  }

  lemma ScalarsStep(c: Scalar, rest: Text)
    requires Scalars(rest).Some?
    ensures Scalars(UnitsOf(c) + rest) == Some([c] + Scalars(rest).value)
  {
    if c < 0x1_0000 {
      PlainStep(c, rest);
    } else {
      PairOf(c);
      PairStep(UnitsOf(c)[0], UnitsOf(c)[1], rest);
    }
  }

  lemma {:induction false} ScalarsOfUnits(cs: seq<Scalar>)
    ensures Scalars(Units(cs)) == Some(cs)
  {
    if cs != [] {
      ScalarsOfUnits(cs[1..]);
      ScalarsStep(cs[0], Units(cs[1..]));
      assert cs == [cs[0]] + cs[1..];
    }
  }

  lemma PairBack(high: CodeUnit, low: CodeUnit)
    requires Leading(high) && Trailing(low)
    ensures UnitsOf(0x1_0000 + (high as int - 0xD800) * 0x400 + (low as int - 0xDC00)) == [high, low]
  {
  }

  lemma {:induction false} UnitsOfScalars(t: Text)
    ensures Scalars(t).Some? ==> Units(Scalars(t).value) == t
  {
    if t != [] {
      if Leading(t[0]) {
        if |t| >= 2 && Trailing(t[1]) {
          UnitsOfScalars(t[2..]);
          PairBack(t[0], t[1]);
          assert t == [t[0], t[1]] + t[2..];
        }
      } else {
        UnitsOfScalars(t[1..]);
        assert t == [t[0]] + t[1..];
      }
    }
  }

  /** The decoding exists exactly for well-formed strings. */
  lemma ScalarsDecide(t: Text)
    ensures Scalars(t).Some? <==> WellFormed(t)
  {
    UnitsOfScalars(t);
    if WellFormed(t) {
      var cs :| Units(cs) == t;
      ScalarsOfUnits(cs);
    }
  }

  /** `hasLoneSurrogate` finds one exactly when the string spells no scalar values. */
  method HasLoneSurrogate(value: Text) returns (lone: bool)
    ensures lone <==> !WellFormed(value)
  {
    ScalarsDecide(value);
    var index := 0;
    assert value[0..] == value;
    while index < |value|
      invariant 0 <= index <= |value|
      invariant Scalars(value).Some? <==> Scalars(value[index..]).Some?
    {
      var unit := value[index];
      if 0xD800 <= unit <= 0xDBFF {
        if !(index + 1 < |value| && 0xDC00 <= value[index + 1] <= 0xDFFF) {
          return true;
        }
        assert value[index..][2..] == value[index + 2..];
        index := index + 1;
      } else if 0xDC00 <= unit <= 0xDFFF {
        return true;
      } else {
        assert value[index..][1..] == value[index + 1..];
      }
      index := index + 1;
    }
    return false;
  }

  lemma Regroup<T>(a: seq<T>, b: seq<T>, c: seq<T>)
    ensures (a + b) + c == a + (b + c)
  {
  }

  lemma FirstOfConcat<T>(a: seq<T>, b: seq<T>)
    requires a != []
    ensures (a + b)[0] == a[0] && (a + b)[1..] == a[1..] + b
  {
  }

  lemma {:induction false} UnitsConcat(a: seq<Scalar>, b: seq<Scalar>)
    ensures Units(a + b) == Units(a) + Units(b)
  {
    if a == [] {
      assert a + b == b;
    } else {
      UnitsConcat(a[1..], b);
      FirstOfConcat(a, b);
      Regroup(UnitsOf(a[0]), Units(a[1..]), Units(b));
    }
  }

  lemma WellFormedConcat(a: Text, b: Text)
    requires WellFormed(a) && WellFormed(b)
    ensures WellFormed(a + b)
  {
    var x :| Units(x) == a;
    var y :| Units(y) == b;
    UnitsConcat(x, y);
    assert Units(x + y) == a + b;
  }

  /** A string of plain characters is well formed. */
  lemma {:induction false} PlainIsWellFormed(t: Text)
    requires forall i :: 0 <= i < |t| ==> t[i] < 0xD800
    ensures WellFormed(t)
  {
    if t == [] {
      assert Units([]) == t;
    } else {
      PlainIsWellFormed(t[1..]);
      assert Units([t[0]]) == [t[0]];
      WellFormedConcat([t[0]], t[1..]);
      assert [t[0]] + t[1..] == t;
    }
  }

  // -- UTF-8 ------------------------------------------------------------------

  /** One scalar value in UTF-8 (RFC 3629 section 3). */
  function BytesOf(c: Scalar): seq<Byte> {
    var sixes, twelves, rest := c / 64, c / 64 / 64, c / 64 / 64 / 64;
    if c < 0x80 then [c as Byte]
    else if c < 0x800 then [Head(0xC0, sixes), Tail(c)]
    else if c < 0x1_0000 then [Head(0xE0, twelves), Tail(sixes), Tail(c)]
    else [Head(0xF0, rest), Tail(twelves), Tail(sixes), Tail(c)]
  }

  function Head(mark: Byte, bits: int): Byte
    requires 0 <= bits < 0x100 - mark
  {
    mark + bits
  }

  function Tail(bits: int): Byte {
    0x80 + bits % 64
  }

  function BytesOfAll(cs: seq<Scalar>): seq<Byte> {
    if cs == [] then [] else BytesOf(cs[0]) + BytesOfAll(cs[1..])
  }

  /** `TextEncoder.encode` of a well-formed string. */
  function Utf8(t: Text): seq<Byte> {
    match Scalars(t)
    case None => []
    case Some(cs) => BytesOfAll(cs)
  }

  /** Two sequences are ordered by the first place where they differ. */
  lemma {:induction false} FirstDifference(a: seq<int>, b: seq<int>, k: nat)
    requires k < |a| && k < |b| && (forall i :: 0 <= i < k ==> a[i] == b[i]) && a[k] < b[k]
    ensures Less(a, b)
  {
    if k > 0 {
      FirstDifference(a[1..], b[1..], k - 1);
    }
  }

  /** Numbers in one block of 64 differ in their last six bits. */
  lemma SixBits(c: nat, d: nat)
    requires c < d
    ensures c / 64 <= d / 64
    ensures c / 64 == d / 64 ==> Tail(c) < Tail(d)
  {
  }

  /** How many bytes a scalar value takes, and that a longer encoding starts with a greater byte. */
  lemma FirstByte(c: Scalar, d: Scalar)
    requires c < d
    ensures |BytesOf(c)| <= |BytesOf(d)|
    ensures |BytesOf(c)| < |BytesOf(d)| ==> BytesOf(c)[0] < BytesOf(d)[0]
  {
  }

  /** The bytes first differ at `k`, in the order of the scalar values. */
  predicate DifferAt(c: Scalar, d: Scalar, k: nat) {
    && k < |BytesOf(c)| && k < |BytesOf(d)|
    && (forall i :: 0 <= i < k ==> BytesOf(c)[i] == BytesOf(d)[i]) && BytesOf(c)[k] < BytesOf(d)[k]
  }

  lemma TwoBytesDiffer(c: Scalar, d: Scalar) returns (k: nat)
    requires 0x80 <= c < d < 0x800
    ensures DifferAt(c, d, k)
  {
    SixBits(c, d);
    k := if c / 64 == d / 64 then 1 else 0;
  }

  lemma ThreeBytesDiffer(c: Scalar, d: Scalar) returns (k: nat)
    requires 0x800 <= c < d < 0x1_0000
    ensures DifferAt(c, d, k)
  {
    SixBits(c, d);
    if c / 64 == d / 64 {
      k := 2;
    } else {
      SixBits(c / 64, d / 64);
      k := if c / 64 / 64 == d / 64 / 64 then 1 else 0;
    }
  }

  lemma FourBytesDiffer(c: Scalar, d: Scalar) returns (k: nat)
    requires 0x1_0000 <= c < d
    ensures DifferAt(c, d, k)
  {
    SixBits(c, d);
    if c / 64 == d / 64 {
      k := 3;
    } else {
      SixBits(c / 64, d / 64);
      if c / 64 / 64 == d / 64 / 64 {
        k := 2;
      } else {
        SixBits(c / 64 / 64, d / 64 / 64);
        k := if c / 64 / 64 / 64 == d / 64 / 64 / 64 then 1 else 0;
      }
    }
  }

  /** Two scalar values have a first byte that tells them apart. */
  lemma BytesDiffer(c: Scalar, d: Scalar) returns (k: nat)
    requires c < d
    ensures DifferAt(c, d, k)
  {
    FirstByte(c, d);
    if |BytesOf(c)| < |BytesOf(d)| || d < 0x80 {
      k := 0;
    } else if d < 0x800 {
      k := TwoBytesDiffer(c, d);
    } else if d < 0x1_0000 {
      k := ThreeBytesDiffer(c, d);
    } else {
      k := FourBytesDiffer(c, d);
    }
  }

  /** Whatever follows them, the bytes of a smaller scalar value come first. */
  lemma BytesKeepOrder(c: Scalar, d: Scalar, x: seq<Byte>, y: seq<Byte>)
    requires c < d
    ensures Less(BytesOf(c) + x, BytesOf(d) + y)
  {
    var k := BytesDiffer(c, d);
    var a, b := BytesOf(c) + x, BytesOf(d) + y;
    FirstDifference(a, b, k);
  }

  lemma {:induction false} SharedPrefix(p: seq<int>, a: seq<int>, b: seq<int>)
    ensures Less(p + a, p + b) <==> Less(a, b)
  {
    if p == [] {
      assert p + a == a && p + b == b;
    } else {
      SharedPrefix(p[1..], a, b);
      assert (p + a)[1..] == p[1..] + a && (p + b)[1..] == p[1..] + b;
    }
  }

  /** Byte order is scalar-value order. */
  lemma {:induction false} BytesOrderScalars(a: seq<Scalar>, b: seq<Scalar>)
    ensures Less(BytesOfAll(a), BytesOfAll(b)) <==> Less(a, b)
  {
    if a != [] && b != [] {
      var x, y := BytesOfAll(a[1..]), BytesOfAll(b[1..]);
      if a[0] == b[0] {
        BytesOrderScalars(a[1..], b[1..]);
        SharedPrefix(BytesOf(a[0]), x, y);
      } else if a[0] < b[0] {
        BytesKeepOrder(a[0], b[0], x, y);
      } else {
        BytesKeepOrder(b[0], a[0], y, x);
        LessIsTotal(BytesOfAll(a), BytesOfAll(b));
      }
    }
  }

  /** Code-unit order is another order: every astral character comes before the high ones of the basic plane. */
  lemma CodeUnitOrderDiffers(high: Scalar, astral: Scalar)
    requires 0xE000 <= high < 0x1_0000 <= astral
    ensures Less(UnitsOf(astral), UnitsOf(high)) && Less(BytesOf(high), BytesOf(astral))
  {
    BytesKeepOrder(high, astral, [], []);
    assert BytesOf(high) + [] == BytesOf(high) && BytesOf(astral) + [] == BytesOf(astral);
  }

  /** Different well-formed strings have different bytes. */
  lemma Utf8IsInjective(s: Text, t: Text)
    requires WellFormed(s) && WellFormed(t)
    ensures Utf8(s) == Utf8(t) <==> s == t
  {
    ScalarsDecide(s);
    ScalarsDecide(t);
    var a, b := Scalars(s).value, Scalars(t).value;
    UnitsOfScalars(s);
    UnitsOfScalars(t);
    BytesOrderScalars(a, b);
    BytesOrderScalars(b, a);
    LessIsTotal(a, b);
    LessIsTotal(BytesOfAll(a), BytesOfAll(b));
  }

  // -- reading UTF-8 ----------------------------------------------------------

  predicate Continues(b: int) { 0x80 <= b < 0xC0 }

  /** Reading scalar values off the front of some bytes (RFC 3629 section 3), as far as the printer goes. */
  function ReadUtf8(bytes: seq<int>): Option<seq<int>> {
    if bytes == [] then Some([])
    else if bytes[0] < 0x80 then Before(bytes[0], ReadUtf8(bytes[1..]))
    else if 0xC0 <= bytes[0] < 0xE0 && |bytes| >= 2 && Continues(bytes[1]) then
      Before((bytes[0] - 0xC0) * 0x40 + (bytes[1] - 0x80), ReadUtf8(bytes[2..]))
    else if 0xE0 <= bytes[0] < 0xF0 && |bytes| >= 3 && Continues(bytes[1]) && Continues(bytes[2]) then
      Before((bytes[0] - 0xE0) * 0x1000 + (bytes[1] - 0x80) * 0x40 + (bytes[2] - 0x80), ReadUtf8(bytes[3..]))
    else if 0xF0 <= bytes[0] < 0xF8 && |bytes| >= 4
            && Continues(bytes[1]) && Continues(bytes[2]) && Continues(bytes[3]) then
      Before((bytes[0] - 0xF0) * 0x4_0000 + (bytes[1] - 0x80) * 0x1000 + (bytes[2] - 0x80) * 0x40 + (bytes[3] - 0x80),
             ReadUtf8(bytes[4..]))
    else None
  }

  function Before(c: int, cs: Option<seq<int>>): Option<seq<int>> {
    match cs
    case None => None
    case Some(rest) => Some([c] + rest)
  }

  lemma TwoBytesRead(c: Scalar, rest: seq<Byte>)
    requires 0x80 <= c < 0x800
    ensures ReadUtf8(BytesOf(c) + rest) == Before(c, ReadUtf8(rest))
  {
    assert (BytesOf(c) + rest)[2..] == rest;
  }

  lemma ThreeBytesRead(c: Scalar, rest: seq<Byte>)
    requires 0x800 <= c < 0x1_0000
    ensures ReadUtf8(BytesOf(c) + rest) == Before(c, ReadUtf8(rest))
  {
    assert (BytesOf(c) + rest)[3..] == rest;
  }

  lemma FourBytesRead(c: Scalar, rest: seq<Byte>)
    requires 0x1_0000 <= c
    ensures ReadUtf8(BytesOf(c) + rest) == Before(c, ReadUtf8(rest))
  {
    assert (BytesOf(c) + rest)[4..] == rest;
  }

  lemma {:induction false} BytesRead(cs: seq<Scalar>)
    ensures ReadUtf8(BytesOfAll(cs)) == Some(cs)
  {
    if cs != [] {
      var c, rest := cs[0], BytesOfAll(cs[1..]);
      BytesRead(cs[1..]);
      assert cs == [c] + cs[1..];
      if c < 0x80 {
        assert ([c] + rest)[1..] == rest;
      } else if c < 0x800 {
        TwoBytesRead(c, rest);
      } else if c < 0x1_0000 {
        ThreeBytesRead(c, rest);
      } else {
        FourBytesRead(c, rest);
      }
    }
  }

  /** The bytes of a string read back as the scalar values that it spells. */
  lemma Utf8ReadsBack(cs: seq<Scalar>)
    ensures ReadUtf8(Utf8(Units(cs))) == Some(cs)
  {
    ScalarsOfUnits(cs);
    BytesRead(cs);
  }
}
