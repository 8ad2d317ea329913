/**
 A reader of compact JSON (RFC 8259) that knows nothing of the printer of identity.ts but the values, and shows it to be
 invertible and its text to be the shortest. It takes no white space and, as canonical text must, only lower-case
 hexadecimal.
 */
module CanonicalReader {
  import opened Wrappers
  import opened Ordering
  import opened CodeUnits
  import opened CanonicalJson

  datatype Parse<+T> = Failure | Success(value: T, rest: Text)

  // -- strings and numerals ---------------------------------------------------

  function HexValue(u: CodeUnit): (r: Option<int>)
    ensures r.Some? ==> 0 <= r.value < 16
  {
    if 0x30 <= u <= 0x39 then Some(u - 0x30)
    else if 0x61 <= u <= 0x66 then Some(u - 0x57)
    else None
  }

  /** The code unit a two-character escape stands for. */
  function Unescape(u: CodeUnit): Option<CodeUnit> {
    if u == '"' as int || u == '\\' as int || u == '/' as int then Some(u)
    else if u == 'b' as int then Some(0x08)
    else if u == 't' as int then Some(0x09)
    else if u == 'n' as int then Some(0x0A)
    else if u == 'f' as int then Some(0x0C)
    else if u == 'r' as int then Some(0x0D)
    else None
  }

  /** One character of a string: raw, unless it is a control, a quote or a backslash; or escaped. */
  function ReadUnit(t: Text): (p: Parse<CodeUnit>)
    ensures p.Success? ==> |p.rest| < |t|
  {
    if t == [] || t[0] == '"' as int || t[0] < 0x20 then Failure
    else if t[0] != '\\' as int then Success(t[0], t[1..])
    else if |t| < 2 then Failure
    else if t[1] != 'u' as int then
      match Unescape(t[1])
      case None => Failure
      case Some(u) => Success(u, t[2..])
    else if |t| < 6 then Failure
    else
      match (HexValue(t[2]), HexValue(t[3]), HexValue(t[4]), HexValue(t[5]))
      case (Some(a), Some(b), Some(c), Some(d)) => Success(((a * 16 + b) * 16 + c) * 16 + d, t[6..])
      case _ => Failure
  }

  function Prefixed(u: CodeUnit, p: Parse<Text>): Parse<Text> {
    match p
    case Failure => Failure
    case Success(s, rest) => Success([u] + s, rest)
  }

  /** The rest of a string whose opening quote has been read. */
  function ReadBody(t: Text): (p: Parse<Text>)
    ensures p.Success? ==> |p.rest| < |t|
  {
    if t == [] then Failure
    else if t[0] == '"' as int then Success([], t[1..])
    else
      match ReadUnit(t)
      case Failure => Failure
      case Success(u, rest) => Prefixed(u, ReadBody(rest))
  }

  /** The longest prefix a numeral could be made of. */
  function NumeralRun(t: Text): (r: Text)
    ensures r <= t
    ensures forall i :: 0 <= i < |r| ==> NumeralUnit(r[i])
  {
    if t != [] && NumeralUnit(t[0]) then [t[0]] + NumeralRun(t[1..]) else []
  }

  // -- values -----------------------------------------------------------------

  predicate StartsWith(t: Text, word: string) {
    |word| <= |t| && forall i :: 0 <= i < |word| ==> t[i] == word[i] as int
  }

  function ReadValue(t: Text): (p: Parse<Value>)
    ensures p.Success? ==> |p.rest| < |t|
    decreases |t|, 0
  {
    if t == [] then Failure
    else if t[0] == '"' as int then
      match ReadBody(t[1..])
      case Failure => Failure
      case Success(s, rest) => Success(Str(s), rest)
    else if t[0] == '[' as int then
      if |t| >= 2 && t[1] == ']' as int then Success(Arr([]), t[2..])
      else
        match ReadItems(t[1..])
        case Failure => Failure
        case Success(items, rest) => Success(Arr(items), rest)
    else if t[0] == '{' as int then
      if |t| >= 2 && t[1] == '}' as int then Success(Obj([]), t[2..])
      else
        match ReadMembers(t[1..])
        case Failure => Failure
        case Success(ms, rest) => Success(Obj(ms), rest)
    else if NumeralStart(t[0]) then
      Success(Num(Decimal(NumeralRun(t))), t[|NumeralRun(t)|..])
    else if StartsWith(t, "null") then Success(Null, t[4..])
    else if StartsWith(t, "true") then Success(Bool(true), t[4..])
    else if StartsWith(t, "false") then Success(Bool(false), t[5..])
    else Failure
  }

  /** One or more items and the closing bracket. */
  function ReadItems(t: Text): (p: Parse<seq<Value>>)
    ensures p.Success? ==> |p.rest| < |t|
    decreases |t|, 1
  {
    match ReadValue(t)
    case Failure => Failure
    case Success(v, rest) =>
      if rest == [] then Failure
      else if rest[0] == ']' as int then Success([v], rest[1..])
      else if rest[0] != ',' as int then Failure
      else
        match ReadItems(rest[1..])
        case Failure => Failure
        case Success(items, after) => Success([v] + items, after)
  }

  function ReadMember(t: Text): (p: Parse<Member>)
    ensures p.Success? ==> |p.rest| < |t|
    decreases |t|, 1
  {
    if t == [] || t[0] != '"' as int then Failure
    else
      match ReadBody(t[1..])
      case Failure => Failure
      case Success(name, rest) =>
        if rest == [] || rest[0] != ':' as int then Failure
        else
          match ReadValue(rest[1..])
          case Failure => Failure
          case Success(v, after) => Success(Member(name, v), after)
  }

  /** One or more members and the closing brace. */
  function ReadMembers(t: Text): (p: Parse<seq<Member>>)
    ensures p.Success? ==> |p.rest| < |t|
    decreases |t|, 2
  {
    match ReadMember(t)
    case Failure => Failure
    case Success(m, rest) =>
      if rest == [] then Failure
      else if rest[0] == '}' as int then Success([m], rest[1..])
      else if rest[0] != ',' as int then Failure
      else
        match ReadMembers(rest[1..])
        case Failure => Failure
        case Success(ms, after) => Success([m] + ms, after)
  }

  /** A whole text. */
  function ReadText(t: Text): Option<Value> {
    var p := ReadValue(t);
    if p.Success? && p.rest == [] then Some(p.value) else None
  }

  // -- reading back what was printed ------------------------------------------

  lemma HexDigitReads(n: nat)
    requires n < 16
    ensures HexValue(HexDigit(n)) == Some(n)
  {
  }

  lemma PlainReads(u: CodeUnit, t: Text)
    requires u >= 0x20 && u != QUOTE && u != BACKSLASH
    ensures ReadUnit([u] + t) == Success(u, t)
  {
    Reopen(u, t);
  }

  lemma PairReads(c: CodeUnit, u: CodeUnit, t: Text)
    requires c != LETTER_U && Unescape(c) == Some(u)
    ensures ReadUnit([BACKSLASH, c] + t) == Success(u, t)
  {
    assert ([BACKSLASH, c] + t)[2..] == t;
  }

  lemma HexReads(u: CodeUnit, t: Text)
    requires u < 0x20
    ensures ReadUnit([BACKSLASH, LETTER_U, HexDigit(0), HexDigit(0), HexDigit(u / 16), HexDigit(u % 16)] + t)
         == Success(u, t)
  {
    var e := [BACKSLASH, LETTER_U, HexDigit(0), HexDigit(0), HexDigit(u / 16), HexDigit(u % 16)];
    assert (e + t)[6..] == t;
    HexDigitReads(0);
    HexDigitReads(u / 16);
    HexDigitReads(u % 16);
  }

  lemma UnitReads(u: CodeUnit, t: Text)
    ensures ReadUnit(Escape(u) + t) == Success(u, t)
  {
    var e := Escape(u);
    if |e| == 1 {
      PlainReads(u, t);
    } else if |e| == 2 {
      PairReads(e[1], u, t);
    } else {
      HexReads(u, t);
    }
  }

  lemma EscapeReads(u: CodeUnit, t: Text)
    ensures ReadBody(Escape(u) + t) == Prefixed(u, ReadBody(t))
  {
    UnitReads(u, t);
  }

  lemma Reopen(u: CodeUnit, t: Text)
    ensures ([u] + t)[0] == u && ([u] + t)[1..] == t
  {
  }

  lemma {:induction false} BodyReads(s: Text, t: Text)
    ensures ReadBody(Escaped(s) + ([QUOTE] + t)) == Success(s, t)
  {
    if s == [] {
      Reopen(QUOTE, t);
      assert Escaped(s) + ([QUOTE] + t) == [QUOTE] + t;
    } else {
      var close := [QUOTE] + t;
      BodyReads(s[1..], t);
      EscapeReads(s[0], Escaped(s[1..]) + close);
      Regroup(Escape(s[0]), Escaped(s[1..]), close);
      assert s == [s[0]] + s[1..];
    }
  }

  /** No numeral runs on into what follows. */
  predicate Delimited(t: Text) {
    t == [] || !NumeralUnit(t[0])
  }

  lemma {:induction false} NumeralReads(n: Text, t: Text)
    requires Delimited(t) && forall i :: 0 <= i < |n| ==> NumeralUnit(n[i])
    ensures NumeralRun(n + t) == n
  {
    if n == [] {
      assert n + t == t;
    } else {
      NumeralReads(n[1..], t);
      assert (n + t)[1..] == n[1..] + t;
    }
  }

  /** What the printer lays out with nothing left to normalise: valid, printable, and with no negative zero. */
  ghost predicate Plain(v: Value) {
    match v
    case Num(n) => n.Decimal? && IsNumeral(n.numeral)
    case Arr(items) => forall i :: 0 <= i < |items| ==> Plain(items[i])
    case Obj(ms) => forall i :: 0 <= i < |ms| ==> Plain(ms[i].value)
    case NoJson => false
    case _ => true
  }

  lemma NumeralsRead(n: Text, t: Text)
    requires IsNumeral(n) && Delimited(t)
    ensures ReadValue(n + t) == Success(Num(Decimal(n)), t)
  {
    NumeralReads(n, t);
    assert (n + t)[|n|..] == t;
  }

  lemma StringReads(s: Text, t: Text)
    ensures ReadValue(Quoted(s) + t) == Success(Str(s), t)
  {
    BodyReads(s, t);
    Bracketed(QUOTE, Escaped(s), QUOTE, t);
  }

  lemma WordReads(v: Value, t: Text)
    requires v.Null? || v.Bool?
    ensures ReadValue(Print(v) + t) == Success(v, t)
  {
    var p := Print(v);
    assert (p + t)[|p|..] == t && p <= p + t;
    assert StartsWith(p + t, if v.Null? then "null" else if v.b then "true" else "false");
  }

  ghost predicate ReadsBack(v: Value) {
    forall t :: Delimited(t) ==> ReadValue(Print(v) + t) == Success(v, t)
  }

  /** Every printed value is read back, whatever follows it. */
  lemma {:induction false} PrintReads(v: Value)
    requires Plain(v)
    ensures ReadsBack(v)
  {
    forall t | Delimited(t) ensures ReadValue(Print(v) + t) == Success(v, t) {
      match v {
        case Num(n) => NumeralsRead(n.numeral, t);
        case Str(s) => StringReads(s, t);
        case Arr(items) =>
          forall i | 0 <= i < |items| ensures ReadsBack(items[i]) {
            PrintReads(items[i]);
          }
          ArrayReads(items, t);
        case Obj(ms) =>
          forall i | 0 <= i < |ms| ensures ReadsBack(ms[i].value) {
            PrintReads(ms[i].value);
          }
          ObjectReads(ms, t);
        case _ => WordReads(v, t);
      }
    }
  }

  lemma PrintStarts(v: Value)
    requires Plain(v)
    ensures Print(v) != [] && Print(v)[0] != CLOSE_ARRAY
  {
  }

  lemma {:induction false} ItemsRead(items: seq<Value>, t: Text)
    requires items != [] && forall i :: 0 <= i < |items| ==> ReadsBack(items[i])
    ensures ReadItems(Join(PrintItems(items)) + ([CLOSE_ARRAY] + t)) == Success(items, t)
  {
    var first, rest, close := Print(items[0]), items[1..], [CLOSE_ARRAY] + t;
    assert items == [items[0]] + rest;
    if rest == [] {
      assert items == [items[0]] && PrintItems(items) == [first];
      LastItemReads(items[0], first + close, t);
    } else {
      var more := Join(PrintItems(rest)) + close;
      ItemsRead(rest, t);
      Regroup(first + [COMMA], Join(PrintItems(rest)), close);
      Regroup(first, [COMMA], more);
      NextItemReads(items[0], first + ([COMMA] + more), more);
    }
  }

  lemma LastItemReads(v: Value, text: Text, t: Text)
    requires ReadsBack(v) && text == Print(v) + ([CLOSE_ARRAY] + t)
    ensures ReadItems(text) == Success([v], t)
  {
    Reopen(CLOSE_ARRAY, t);
    assert Delimited([CLOSE_ARRAY] + t);
  }

  lemma NextItemReads(v: Value, text: Text, more: Text)
    requires ReadsBack(v) && text == Print(v) + ([COMMA] + more)
    ensures ReadItems(text) == match ReadItems(more)
                               case Failure => Failure
                               case Success(items, after) => Success([v] + items, after)
  {
    Reopen(COMMA, more);
    assert Delimited([COMMA] + more);
  }

  /** A list between brackets is the opening one, what stands inside, and the rest. */
  lemma Bracketed(open: CodeUnit, inner: Text, close: CodeUnit, t: Text)
    ensures ([open] + inner + [close] + t)[0] == open
    ensures ([open] + inner + [close] + t)[1..] == inner + ([close] + t)
  {
  }

  lemma ArrayReads(items: seq<Value>, t: Text)
    requires Plain(Arr(items))
    requires forall i :: 0 <= i < |items| ==> ReadsBack(items[i])
    ensures ReadValue(Print(Arr(items)) + t) == Success(Arr(items), t)
  {
    var inner := Join(PrintItems(items));
    Bracketed(OPEN_ARRAY, inner, CLOSE_ARRAY, t);
    if items == [] {
      assert [OPEN_ARRAY] + [] + [CLOSE_ARRAY] + t == [OPEN_ARRAY, CLOSE_ARRAY] + t;
    } else {
      ItemsRead(items, t);
      PrintStarts(items[0]);
      assert inner[0] == Print(items[0])[0];
    }
  }

  lemma MemberText(m: Member, t: Text)
    ensures PrintMember(m) + t == [QUOTE] + (Escaped(m.name) + ([QUOTE] + ([COLON] + (Print(m.value) + t))))
  {
  }

  lemma MemberReads(m: Member, t: Text)
    requires ReadsBack(m.value) && Delimited(t)
    ensures ReadMember(PrintMember(m) + t) == Success(m, t)
  {
    var after := [COLON] + (Print(m.value) + t);
    MemberText(m, t);
    Reopen(QUOTE, Escaped(m.name) + ([QUOTE] + after));
    BodyReads(m.name, after);
    Reopen(COLON, Print(m.value) + t);
  }

  lemma {:induction false} MembersRead(ms: seq<Member>, t: Text)
    requires ms != [] && forall i :: 0 <= i < |ms| ==> ReadsBack(ms[i].value)
    ensures ReadMembers(Join(PrintMembers(ms)) + ([CLOSE_OBJECT] + t)) == Success(ms, t)
  {
    var first, rest, close := PrintMember(ms[0]), ms[1..], [CLOSE_OBJECT] + t;
    assert ms == [ms[0]] + rest;
    if rest == [] {
      assert ms == [ms[0]] && PrintMembers(ms) == [first];
      Reopen(CLOSE_OBJECT, t);
      MemberReads(ms[0], close);
    } else {
      var more := Join(PrintMembers(rest)) + close;
      MembersRead(rest, t);
      MemberReads(ms[0], [COMMA] + more);
      Regroup(first + [COMMA], Join(PrintMembers(rest)), close);
      Regroup(first, [COMMA], more);
      Reopen(COMMA, more);
    }
  }

  lemma ObjectReads(ms: seq<Member>, t: Text)
    requires forall i :: 0 <= i < |ms| ==> ReadsBack(ms[i].value)
    ensures ReadValue(Print(Obj(ms)) + t) == Success(Obj(ms), t)
  {
    var inner := Join(PrintMembers(ms));
    Bracketed(OPEN_OBJECT, inner, CLOSE_OBJECT, t);
    if ms == [] {
      assert [OPEN_OBJECT] + [] + [CLOSE_OBJECT] + t == [OPEN_OBJECT, CLOSE_OBJECT] + t;
    } else {
      MembersRead(ms, t);
      MemberText(ms[0], []);
      assert inner[0] == QUOTE;
    }
  }

  // -- what the text determines -----------------------------------------------

  /** A value as the printer sees it, whatever names and numerals mean. */
  lemma {:induction false} NormIsPlain(v: Value)
    requires Valid(v) && Printable(v)
    ensures Plain(Norm(v))
    decreases v
  {
    match v {
      case Arr(items) =>
        forall i | 0 <= i < |items| ensures Plain(Norm(items[i])) {
          NormIsPlain(items[i]);
        }
      case Obj(ms) =>
        var sorted := SortBy(NameOf, NormMembers(ms));
        SortByElements(NameOf, NormMembers(ms));
        forall k | 0 <= k < |sorted| ensures Plain(sorted[k].value) {
          assert sorted[k] in sorted;
          var i :| 0 <= i < |ms| && NormMembers(ms)[i] == sorted[k];
          NormIsPlain(ms[i].value);
        }
      case _ =>
    }
  }

  /** Canonical text is invertible: reading it gives the value back, up to member order and -0. */
  lemma TextReadsBack(v: Value)
    requires Valid(v) && CanonicalText(v).Some?
    ensures ReadText(CanonicalText(v).value) == Some(Norm(v))
  {
    EncodeIsExact(v, 0);
    NormIsPlain(v);
    PrintReads(Norm(v));
    var t := Print(Norm(v));
    assert t + [] == t && Delimited([]);
  }

  /** In the text of a value every object lists its members in strictly increasing code-unit order. */
  ghost predicate Ascending(v: Value) {
    match v
    case Arr(items) => forall i :: 0 <= i < |items| ==> Ascending(items[i])
    case Obj(ms) =>
      && NamesAscend(ms)
      && (forall i :: 0 <= i < |ms| ==> Ascending(ms[i].value))
    case _ => true
  }

  lemma {:induction false} NormIsAscending(v: Value)
    requires Valid(v)
    ensures Ascending(Norm(v))
    decreases v
  {
    match v {
      case Arr(items) =>
        forall i | 0 <= i < |items| ensures Ascending(Norm(items[i])) {
          NormIsAscending(items[i]);
        }
      case Obj(ms) =>
        var norms := NormMembers(ms);
        var sorted := SortBy(NameOf, norms);
        SortByElements(NameOf, norms);
        SortedNamesAscend(norms);
        forall k | 0 <= k < |sorted| ensures Ascending(sorted[k].value) {
          assert sorted[k] in sorted;
          var i :| 0 <= i < |ms| && norms[i] == sorted[k];
          NormIsAscending(ms[i].value);
        }
      case _ =>
    }
  }

  lemma SortingKeepsNamesDistinct(ms: seq<Member>)
    requires DistinctNames(ms)
    ensures DistinctNames(SortBy(NameOf, ms))
  {
    var sorted := SortBy(NameOf, ms);
    SortBySorts(NameOf, ms);
    var p := CountsPermute(sorted, ms);
    forall i, j | 0 <= i < j < |sorted| ensures sorted[i].name != sorted[j].name {
      assert p[i] != p[j];
    }
  }

  ghost predicate NamesAscend(ms: seq<Member>) {
    forall i, j :: 0 <= i < j < |ms| ==> Less(ms[i].name, ms[j].name)
  }

  lemma SortedNamesAscend(ms: seq<Member>)
    requires DistinctNames(ms)
    ensures NamesAscend(SortBy(NameOf, ms))
  {
    var sorted := SortBy(NameOf, ms);
    SortBySorts(NameOf, ms);
    SortingKeepsNamesDistinct(ms);
    forall i, j | 0 <= i < j < |sorted| ensures Less(sorted[i].name, sorted[j].name) {
      assert !Less(NameOf(sorted[j]), NameOf(sorted[i]));
      LessIsTotal(sorted[i].name, sorted[j].name);
    }
  }

  /** The text itself: whatever it reads as has its keys in strictly increasing order, in every object. */
  lemma KeysAscend(v: Value)
    requires Valid(v) && CanonicalText(v).Some?
    ensures ReadText(CanonicalText(v).value).Some? && Ascending(ReadText(CanonicalText(v).value).value)
  {
    TextReadsBack(v);
    NormIsAscending(v);
  }

  // -- sameness ---------------------------------------------------------------

  function Names(ms: seq<Member>): set<Text> {
    set m | m in ms :: m.name
  }

  /** Equal up to the order of object members and the sign of zero. */
  ghost predicate Same(v: Value, w: Value) {
    match (v, w)
    case (Num(m), Num(n)) => m == n || {m, n} == {NegativeZero, Zero()}
    case (Arr(a), Arr(b)) => |a| == |b| && forall i :: 0 <= i < |a| ==> Same(a[i], b[i])
    case (Obj(a), Obj(b)) =>
      && Names(a) == Names(b)
      && (forall i, j :: 0 <= i < |a| && 0 <= j < |b| && a[i].name == b[j].name ==> Same(a[i].value, b[j].value))
    case _ => v == w
  }

  /** The normal form is a complete invariant of sameness. */
  lemma {:induction false} NormDecidesSame(v: Value, w: Value)
    requires Valid(v) && Valid(w)
    ensures Norm(v) == Norm(w) <==> Same(v, w)
    decreases v
  {
    match (v, w) {
      case (Arr(a), Arr(b)) =>
        var x, y := Norm(v).items, Norm(w).items;
        assert |x| == |a| && |y| == |b|;
        if |a| == |b| {
          forall i | 0 <= i < |a| ensures x[i] == y[i] <==> Same(a[i], b[i]) {
            NormDecidesSame(a[i], b[i]);
          }
          if Same(v, w) {
            assert x == y;
          }
        }
      case (Obj(a), Obj(b)) =>
        forall i, j | 0 <= i < |a| && 0 <= j < |b|
          ensures Norm(a[i].value) == Norm(b[j].value) <==> Same(a[i].value, b[j].value)
        {
          NormDecidesSame(a[i].value, b[j].value);
        }
        MembersDecide(NormMembers(a), NormMembers(b));
        ObjectsDecide(a, b);
      case _ =>
    }
  }

  lemma ObjectsDecide(a: seq<Member>, b: seq<Member>)
    requires forall i, j :: 0 <= i < |a| && 0 <= j < |b| ==>
                              (Norm(a[i].value) == Norm(b[j].value) <==> Same(a[i].value, b[j].value))
    ensures Agree(NormMembers(a), NormMembers(b)) <==> Same(Obj(a), Obj(b))
  {
    NormKeepsNames(a);
    NormKeepsNames(b);
    var x, y := NormMembers(a), NormMembers(b);
    if Agree(x, y) {
      forall i, j | 0 <= i < |a| && 0 <= j < |b| && a[i].name == b[j].name ensures Same(a[i].value, b[j].value) {
        assert x[i].name == y[j].name;
      }
    }
    if Same(Obj(a), Obj(b)) {
      forall i, j | 0 <= i < |x| && 0 <= j < |y| && x[i].name == y[j].name ensures x[i].value == y[j].value {
        assert a[i].name == b[j].name;
      }
    }
  }

  lemma NormKeepsNames(ms: seq<Member>)
    ensures Names(NormMembers(ms)) == Names(ms)
  {
    var norms := NormMembers(ms);
    forall m | m in ms ensures m.name in Names(norms) {
      var i :| 0 <= i < |ms| && ms[i] == m;
      assert norms[i] in norms && norms[i].name == m.name;
    }
    forall m | m in norms ensures m.name in Names(ms) {
      var i :| 0 <= i < |ms| && norms[i] == m;
      assert ms[i] in ms && ms[i].name == m.name;
    }
  }

  /** Members sort to the same list exactly when they have the same names with equal values. */
  lemma MembersDecide(a: seq<Member>, b: seq<Member>)
    requires DistinctNames(a) && DistinctNames(b)
    ensures SortBy(NameOf, a) == SortBy(NameOf, b) <==> Agree(a, b)
  {
    if SortBy(NameOf, a) == SortBy(NameOf, b) {
      SortByElements(NameOf, a);
      SortByElements(NameOf, b);
      SameElementsAgree(a, b);
    }
    if Agree(a, b) {
      AgreeingCounts(a, b);
      assert Separates(NameOf, a, b);
      SortByIsCanonical(NameOf, a, b);
    }
  }

  ghost predicate Agree(a: seq<Member>, b: seq<Member>) {
    && Names(a) == Names(b)
    && forall i, j :: 0 <= i < |a| && 0 <= j < |b| && a[i].name == b[j].name ==> a[i].value == b[j].value
  }

  lemma SameElementsAgree(a: seq<Member>, b: seq<Member>)
    requires DistinctNames(b) && forall m :: m in a <==> m in b
    ensures Agree(a, b)
  {
    forall i, j | 0 <= i < |a| && 0 <= j < |b| && a[i].name == b[j].name ensures a[i].value == b[j].value {
      assert a[i] in b;
      var k :| 0 <= k < |b| && b[k] == a[i];
    }
  }

  lemma AgreeingCounts(a: seq<Member>, b: seq<Member>)
    requires DistinctNames(a) && DistinctNames(b) && Agree(a, b)
    ensures multiset(a) == multiset(b)
  {
    forall m ensures multiset(a)[m] == multiset(b)[m] {
      AgreeingElement(a, b, m);
      DistinctOnce(a, m);
      DistinctOnce(b, m);
    }
  }

  lemma AgreeingElement(a: seq<Member>, b: seq<Member>, m: Member)
    requires Agree(a, b)
    ensures m in a <==> m in b
  {
    if m in a {
      assert m.name in Names(b);
      var i :| 0 <= i < |a| && a[i] == m;
      var j :| 0 <= j < |b| && b[j].name == m.name;
    }
    if m in b {
      assert m.name in Names(a);
      var j :| 0 <= j < |b| && b[j] == m;
      var i :| 0 <= i < |a| && a[i].name == m.name;
    }
  }

  lemma {:induction false} DistinctOnce(ms: seq<Member>, m: Member)
    requires DistinctNames(ms)
    ensures multiset(ms)[m] == if m in ms then 1 else 0
  {
    if ms != [] {
      DistinctOnce(ms[1..], m);
      assert ms == [ms[0]] + ms[1..];
    }
  }

  /** Two accepted values have one text exactly when they are the same up to member order and -0. */
  lemma TextDecidesSame(v: Value, w: Value)
    requires Valid(v) && Valid(w) && CanonicalText(v).Some? && CanonicalText(w).Some?
    ensures CanonicalText(v) == CanonicalText(w) <==> Same(v, w)
  {
    TextReadsBack(v);
    TextReadsBack(w);
    EncodeIsExact(v, 0);
    EncodeIsExact(w, 0);
    NormDecidesSame(v, w);
  }
}
