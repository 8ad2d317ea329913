/** RFC 8785 canonical JSON: the printer of identity.ts, and a reader that inverts it. */
module CanonicalJson {
  import opened Wrappers
  import opened Ordering
  import opened CodeUnits

  const QUOTE: CodeUnit := 0x22
  const COMMA: CodeUnit := 0x2C
  const MINUS: CodeUnit := 0x2D
  const COLON: CodeUnit := 0x3A
  const BACKSLASH: CodeUnit := 0x5C
  const OPEN_ARRAY: CodeUnit := 0x5B
  const CLOSE_ARRAY: CodeUnit := 0x5D
  const OPEN_OBJECT: CodeUnit := 0x7B
  const CLOSE_OBJECT: CodeUnit := 0x7D
  const LETTER_U: CodeUnit := 0x75

  /** Nesting that is refused. */
  const MAX_CANONICAL_DEPTH := 100

  function Ascii(s: string): Text
    requires forall i :: 0 <= i < |s| ==> s[i] < '\U{0080}'
  {
    seq(|s|, i requires 0 <= i < |s| => s[i] as int)
  }

  predicate NumeralStart(u: CodeUnit) { 0x30 <= u <= 0x39 || u == MINUS }
  predicate NumeralUnit(u: CodeUnit) { NumeralStart(u) || u == 0x2B || u == 0x2E || u == 0x65 }

  predicate IsNumeral(t: Text) {
    t != [] && NumeralStart(t[0]) && forall i :: 0 <= i < |t| ==> NumeralUnit(t[i])
  }

  /** A finite double other than -0 is known by its `Number::toString` numeral, which no other one has. */
  datatype Number = Decimal(numeral: Text) | NegativeZero | NotFinite

  /** A JavaScript value; `NoJson` stands for those JSON has no form for. An object lists its own members. */
  datatype Value = Null | Bool(b: bool) | Num(number: Number) | Str(s: Text)
                 | Arr(items: seq<Value>) | Obj(members: seq<Member>) | NoJson

  datatype Member = Member(name: Text, value: Value)

  function NameOf(m: Member): seq<int> { m.name }

  function Zero(): Number { Decimal(Ascii("0")) }

  /** What holds of every JavaScript value: numerals are numerals, and no object has two members of one name. */
  ghost predicate Valid(v: Value) {
    match v
    case Num(Decimal(t)) => IsNumeral(t)
    case Arr(items) => forall i :: 0 <= i < |items| ==> Valid(items[i])
    case Obj(ms) => DistinctNames(ms) && forall i :: 0 <= i < |ms| ==> Valid(ms[i].value)
    case _ => true
  }

  ghost predicate DistinctNames(ms: seq<Member>) {
    forall i, j :: 0 <= i < j < |ms| ==> ms[i].name != ms[j].name
  }

  // -- the printer, as the source runs it -------------------------------------

  function HexDigit(n: nat): CodeUnit
    requires n < 16
  {
    if n < 10 then 0x30 + n else 0x57 + n
  }

  /** One code unit inside a JSON string, escaped as little as may be. */
  function Escape(u: CodeUnit): Text {
    if u == QUOTE || u == BACKSLASH then [BACKSLASH, u]
    else if u == 0x08 then [BACKSLASH, 0x62]
    else if u == 0x09 then [BACKSLASH, 0x74]
    else if u == 0x0A then [BACKSLASH, 0x6E]
    else if u == 0x0C then [BACKSLASH, 0x66]
    else if u == 0x0D then [BACKSLASH, 0x72]
    else if u < 0x20 then [BACKSLASH, LETTER_U, HexDigit(0), HexDigit(0), HexDigit(u / 16), HexDigit(u % 16)]
    else [u]
  }

  function Escaped(s: Text): Text {
    if s == [] then [] else Escape(s[0]) + Escaped(s[1..])
  }

  function Quoted(s: Text): Text {
    [QUOTE] + Escaped(s) + [QUOTE]
  }

  function Join(parts: seq<Text>): Text {
    if parts == [] then []
    else if |parts| == 1 then parts[0]
    else parts[0] + [COMMA] + Join(parts[1..])
  }

  function EncodeString(s: Text): Option<Text> {
    if Scalars(s).None? then None else Some(Quoted(s))
  }

  function EncodeNumber(n: Number): Option<Text> {
    match n
    case NotFinite => None
    case NegativeZero => Some(Ascii("0"))
    case Decimal(t) => Some(t)
  }

  /** `encode`: the canonical text of a value met at some depth, or a refusal. */
  function Encode(v: Value, depth: nat): Option<Text>
    decreases MAX_CANONICAL_DEPTH + 1 - depth, 0
  {
    if depth > MAX_CANONICAL_DEPTH then None
    else
      match v
      case Null => Some(Ascii("null"))
      case Bool(b) => Some(if b then Ascii("true") else Ascii("false"))
      case Num(n) => EncodeNumber(n)
      case Str(s) => EncodeString(s)
      case NoJson => None
      case Arr(items) =>
        (match EncodeItems(items, depth + 1)
         case None => None
         case Some(parts) => Some([OPEN_ARRAY] + Join(parts) + [CLOSE_ARRAY]))
      case Obj(ms) =>
        (match EncodeMembers(SortBy(NameOf, ms), depth + 1)
         case None => None
         case Some(parts) => Some([OPEN_OBJECT] + Join(parts) + [CLOSE_OBJECT]))
  }

  function EncodeItems(items: seq<Value>, depth: nat): Option<seq<Text>>
    decreases MAX_CANONICAL_DEPTH + 1 - depth, |items| + 1
  {
    if items == [] then Some([])
    else
      match (Encode(items[0], depth), EncodeItems(items[1..], depth))
      case (Some(first), Some(rest)) => Some([first] + rest)
      case _ => None
  }

  function EncodeMembers(ms: seq<Member>, depth: nat): Option<seq<Text>>
    decreases MAX_CANONICAL_DEPTH + 1 - depth, |ms| + 1
  {
    if ms == [] then Some([])
    else
      match (Encode(ms[0].value, depth), EncodeString(ms[0].name), EncodeMembers(ms[1..], depth))
      case (Some(encoded), Some(name), Some(rest)) => Some([name + [COLON] + encoded] + rest)
      case _ => None
  }

  function CanonicalText(v: Value): Option<Text> {
    Encode(v, 0)
  }

  // -- what is accepted, and how it is laid out -------------------------------

  /** The value is one up to member order and -0: every object in name order, zero unsigned. */
  function Norm(v: Value): Value {
    match v
    case Num(NegativeZero) => Num(Zero())
    case Arr(items) => Arr(seq(|items|, i requires 0 <= i < |items| => Norm(items[i])))
    case Obj(ms) => Obj(SortBy(NameOf, NormMembers(ms)))
    case _ => v
  }

  function NormMembers(ms: seq<Member>): (r: seq<Member>) {
    seq(|ms|, i requires 0 <= i < |ms| => Member(ms[i].name, Norm(ms[i].value)))
  }

  /** Nothing in the value is without a JSON form. */
  predicate Printable(v: Value) {
    match v
    case Num(n) => n != NotFinite
    case Str(s) => Scalars(s).Some?
    case Arr(items) => forall i :: 0 <= i < |items| ==> Printable(items[i])
    case Obj(ms) => forall i :: 0 <= i < |ms| ==> Scalars(ms[i].name).Some? && Printable(ms[i].value)
    case NoJson => false
    case _ => true
  }

  /** The nesting of a value below the depth it stands at fits. */
  predicate Fits(v: Value, depth: int) {
    && depth <= MAX_CANONICAL_DEPTH
    && match v
       case Arr(items) => forall i :: 0 <= i < |items| ==> Fits(items[i], depth + 1)
       case Obj(ms) => forall i :: 0 <= i < |ms| ==> Fits(ms[i].value, depth + 1)
       case _ => true
  }

  /** A printable value laid out in the order it stands in. */
  function Print(v: Value): Text {
    match v
    case Null => Ascii("null")
    case Bool(b) => if b then Ascii("true") else Ascii("false")
    case Num(n) => EncodeNumber(n).GetOr([])
    case Str(s) => Quoted(s)
    case NoJson => []
    case Arr(items) => [OPEN_ARRAY] + Join(PrintItems(items)) + [CLOSE_ARRAY]
    case Obj(ms) => [OPEN_OBJECT] + Join(PrintMembers(ms)) + [CLOSE_OBJECT]
  }

  function PrintItems(items: seq<Value>): seq<Text> {
    if items == [] then [] else [Print(items[0])] + PrintItems(items[1..])
  }

  function PrintMember(m: Member): Text {
    Quoted(m.name) + [COLON] + Print(m.value)
  }

  function PrintMembers(ms: seq<Member>): seq<Text> {
    if ms == [] then [] else [PrintMember(ms[0])] + PrintMembers(ms[1..])
  }

  /** The recursive printer lays out the normal form, and refuses exactly what is unprintable or too deep. */
  lemma {:induction false} EncodeIsExact(v: Value, depth: nat)
    ensures Encode(v, depth) == if Printable(v) && Fits(v, depth) then Some(Print(Norm(v))) else None
    decreases v
  {
    if depth <= MAX_CANONICAL_DEPTH {
      match v {
        case Arr(items) =>
          forall i | 0 <= i < |items| ensures EncodesExactly(items[i], depth + 1) {
            EncodeIsExact(items[i], depth + 1);
          }
          EncodeArrayIsExact(items, depth);
        case Obj(ms) =>
          forall i | 0 <= i < |ms| ensures EncodesExactly(ms[i].value, depth + 1) {
            EncodeIsExact(ms[i].value, depth + 1);
          }
          EncodeObjectIsExact(ms, depth);
        case _ =>
      }
    }
  }

  lemma EncodeArrayIsExact(items: seq<Value>, depth: nat)
    requires depth <= MAX_CANONICAL_DEPTH
    requires forall i :: 0 <= i < |items| ==> EncodesExactly(items[i], depth + 1)
    ensures EncodesExactly(Arr(items), depth)
  {
    var norms := Norm(Arr(items)).items;
    EncodeItemsIsExact(items, norms, depth + 1);
    ItemsPrintIsPrintable(items, depth);
  }

  lemma ItemsPrintIsPrintable(items: seq<Value>, depth: nat)
    requires depth <= MAX_CANONICAL_DEPTH
    ensures ItemsPrint(items, depth + 1) <==> Printable(Arr(items)) && Fits(Arr(items), depth)
  {
  }

  ghost predicate ItemsPrint(items: seq<Value>, depth: nat) {
    forall i :: 0 <= i < |items| ==> ItemPrints(items[i], depth)
  }

  ghost predicate ItemPrints(v: Value, depth: nat) {
    Printable(v) && Fits(v, depth)
  }

  lemma EncodeObjectIsExact(ms: seq<Member>, depth: nat)
    requires depth <= MAX_CANONICAL_DEPTH
    requires forall i :: 0 <= i < |ms| ==> EncodesExactly(ms[i].value, depth + 1)
    ensures EncodesExactly(Obj(ms), depth)
  {
    EncodeSortedIsExact(ms, depth + 1);
    AllPrintIsPrintable(ms, depth);
  }

  lemma EncodeSortedIsExact(ms: seq<Member>, depth: nat)
    requires forall i :: 0 <= i < |ms| ==> EncodesExactly(ms[i].value, depth)
    ensures EncodeMembers(SortBy(NameOf, ms), depth) ==
            if AllPrint(ms, depth) then Some(PrintMembers(SortBy(NameOf, NormMembers(ms)))) else None
  {
    var sorted := SortBy(NameOf, ms);
    SortByElements(NameOf, ms);
    EncodeMembersIsExact(sorted, depth);
    SortedNorms(ms);
    assert AllPrint(sorted, depth) <==> AllPrint(ms, depth);
  }

  lemma AllPrintIsPrintable(ms: seq<Member>, depth: nat)
    requires depth <= MAX_CANONICAL_DEPTH
    ensures AllPrint(ms, depth + 1) <==> Printable(Obj(ms)) && Fits(Obj(ms), depth)
  {
    assert AllPrint(ms, depth + 1) <==> forall i :: 0 <= i < |ms| ==> MemberPrints(ms[i], depth + 1);
  }

  ghost predicate AllPrint(ms: seq<Member>, depth: nat) {
    forall m :: m in ms ==> MemberPrints(m, depth)
  }

  /** Normalising the members and sorting them commute. */
  lemma SortedNorms(ms: seq<Member>)
    ensures SortBy(NameOf, NormMembers(ms)) == NormMembers(SortBy(NameOf, ms))
  {
    forall m ensures NameOf(NormMember(m)) == NameOf(m) {
    }
    SortByCommutes(NormMember, NameOf, NameOf, ms);
    NormMembersIsMap(ms);
    NormMembersIsMap(SortBy(NameOf, ms));
  }

  ghost predicate EncodesExactly(v: Value, depth: nat) {
    Encode(v, depth) == if Printable(v) && Fits(v, depth) then Some(Print(Norm(v))) else None
  }

  lemma {:induction false} EncodeItemsIsExact(items: seq<Value>, norms: seq<Value>, depth: nat)
    requires |norms| == |items|
    requires forall i :: 0 <= i < |items| ==> norms[i] == Norm(items[i]) && EncodesExactly(items[i], depth)
    ensures EncodeItems(items, depth) == if ItemsPrint(items, depth) then Some(PrintItems(norms)) else None
  {
    if items != [] {
      var rest := items[1..];
      EncodeItemsIsExact(rest, norms[1..], depth);
      assert ItemsPrint(items, depth) <==> ItemPrints(items[0], depth) && ItemsPrint(rest, depth) by {
        assert items == [items[0]] + rest;
      }
    }
  }

  function NormMember(m: Member): Member { Member(m.name, Norm(m.value)) }

  lemma NormMembersIsMap(ms: seq<Member>)
    ensures NormMembers(ms) == Map(NormMember, ms)
  {
  }

  ghost predicate MemberPrints(m: Member, depth: nat) {
    Scalars(m.name).Some? && Printable(m.value) && Fits(m.value, depth)
  }

  lemma {:induction false} EncodeMembersIsExact(ms: seq<Member>, depth: nat)
    requires forall m :: m in ms ==> EncodesExactly(m.value, depth)
    ensures EncodeMembers(ms, depth) == if AllPrint(ms, depth) then Some(PrintMembers(NormMembers(ms))) else None
  {
    if ms != [] {
      var first, rest := ms[0], ms[1..];
      EncodeMembersIsExact(rest, depth);
      assert AllPrint(ms, depth) <==> MemberPrints(first, depth) && AllPrint(rest, depth) by {
        assert ms == [first] + rest;
      }
      assert NormMembers(ms)[1..] == NormMembers(rest);
      assert EncodesExactly(first.value, depth);
      assert Quoted(first.name) + [COLON] + Print(Norm(first.value)) == PrintMember(NormMember(first));
    }
  }

  /** Member order never affects the text, nor whether there is one. */
  lemma MemberOrderIsIrrelevant(a: seq<Member>, b: seq<Member>, depth: nat)
    requires DistinctNames(a) && Reordered(a, b)
    ensures Encode(Obj(a), depth) == Encode(Obj(b), depth)
  {
    ReorderedIsSameCounts(a, b);
    forall x, y | x in a && y in b && NameOf(x) == NameOf(y) ensures x == y {
      assert y in multiset(a);
      var i :| 0 <= i < |a| && a[i] == x;
      var j :| 0 <= j < |a| && a[j] == y;
    }
    SortByIsCanonical(NameOf, a, b);
  }

  // -- how deep a value may nest ----------------------------------------------

  /** How many levels stand below a value. */
  function Height(v: Value): nat {
    match v
    case Arr(items) => HeightOfItems(items)
    case Obj(ms) => HeightOfMembers(ms)
    case _ => 0
  }

  function HeightOfItems(items: seq<Value>): nat {
    if items == [] then 0 else Max(1 + Height(items[0]), HeightOfItems(items[1..]))
  }

  function HeightOfMember(m: Member): nat {
    Height(m.value)
  }

  function HeightOfMembers(ms: seq<Member>): nat {
    if ms == [] then 0 else Max(1 + HeightOfMember(ms[0]), HeightOfMembers(ms[1..]))
  }

  function Max(a: nat, b: nat): nat {
    if a < b then b else a
  }

  lemma {:induction false} HeightOfItemsFits(items: seq<Value>, n: int)
    ensures HeightOfItems(items) <= n <==> 0 <= n && forall i :: 0 <= i < |items| ==> 1 + Height(items[i]) <= n
  {
    if items != [] {
      HeightOfItemsFits(items[1..], n);
      assert items == [items[0]] + items[1..];
    }
  }

  lemma {:induction false} HeightOfMembersFits(ms: seq<Member>, n: int)
    ensures HeightOfMembers(ms) <= n <==> 0 <= n && forall i :: 0 <= i < |ms| ==> 1 + Height(ms[i].value) <= n
  {
    if ms != [] {
      HeightOfMembersFits(ms[1..], n);
      assert ms == [ms[0]] + ms[1..];
    }
  }

  lemma {:induction false} FitsIsHeight(v: Value, depth: int)
    ensures Fits(v, depth) <==> depth + Height(v) <= 100
    decreases v
  {
    match v {
      case Arr(items) =>
        forall i | 0 <= i < |items| ensures Fits(items[i], depth + 1) <==> depth + 1 + Height(items[i]) <= 100 {
          FitsIsHeight(items[i], depth + 1);
        }
        HeightOfItemsFits(items, 100 - depth);
      case Obj(ms) =>
        forall i | 0 <= i < |ms| ensures Fits(ms[i].value, depth + 1) <==> depth + 1 + Height(ms[i].value) <= 100 {
          FitsIsHeight(ms[i].value, depth + 1);
        }
        HeightOfMembersFits(ms, 100 - depth);
      case _ =>
    }
  }

  /** A value has a canonical text exactly when it is printable and nests at most 100 levels. */
  lemma TextExists(v: Value)
    ensures CanonicalText(v).Some? <==> Printable(v) && Height(v) <= 100
  {
    EncodeIsExact(v, 0);
    FitsIsHeight(v, 0);
  }

  // -- numerals ---------------------------------------------------------------

  predicate DigitsOnly(t: Text) {
    t != [] && forall i :: 0 <= i < |t| ==> 0x30 <= t[i] <= 0x39
  }

  /** What ECMAScript prints for a finite double is a numeral: digits, a point and digits, and a signed exponent. */
  lemma DoublesHaveNumerals(negative: bool, whole: Text, fraction: Text, exponent: Text, small: bool)
    requires DigitsOnly(whole) && (fraction != [] ==> DigitsOnly(fraction)) && (exponent != [] ==> DigitsOnly(exponent))
    ensures var point := if fraction == [] then [] else Ascii(".") + fraction;
            var power := if exponent == [] then [] else (if small then Ascii("e-") else Ascii("e+")) + exponent;
            IsNumeral((if negative then Ascii("-") else []) + whole + point + power)
  {
    var point := if fraction == [] then [] else Ascii(".") + fraction;
    var power := if exponent == [] then [] else (if small then Ascii("e-") else Ascii("e+")) + exponent;
    assert forall i :: 0 <= i < |point| ==> NumeralUnit(point[i]);
    assert forall i :: 0 <= i < |power| ==> NumeralUnit(power[i]);
  }
}
