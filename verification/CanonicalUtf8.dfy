/** The UTF-8 bytes of canonical JSON, which are hashed and which order arrays (identity.ts). */
module CanonicalUtf8 {
  import opened Wrappers
  import opened Ordering
  import opened CodeUnits
  import opened CanonicalJson
  import opened CanonicalReader

  // -- canonical text has a UTF-8 encoding ------------------------------------

  lemma {:induction false} EscapedConcat(a: Text, b: Text)
    ensures Escaped(a + b) == Escaped(a) + Escaped(b)
  {
    if a == [] {
      assert a + b == b;
    } else {
      EscapedConcat(a[1..], b);
      FirstOfConcat(a, b);
      Regroup(Escape(a[0]), Escaped(a[1..]), Escaped(b));
    }
  }

  lemma UnitsOfOne(c: Scalar)
    ensures WellFormed(UnitsOf(c))
  {
    assert Units([c]) == UnitsOf(c);
  }

  lemma EscapedScalar(c: Scalar)
    ensures WellFormed(Escaped(UnitsOf(c)))
  {
    var units := UnitsOf(c);
    if c >= 0x1_0000 {
      assert Escape(units[0]) == [units[0]] && Escape(units[1]) == [units[1]];
      assert Escaped(units[1..]) == [units[1]];
      assert Escaped(units) == units;
      UnitsOfOne(c);
    } else {
      assert Escaped(units) == Escape(c);
      if Escape(c) == [c] {
        UnitsOfOne(c);
      } else {
        PlainIsWellFormed(Escape(c));
      }
    }
  }

  lemma {:induction false} EscapedIsWellFormed(cs: seq<Scalar>)
    ensures WellFormed(Escaped(Units(cs)))
  {
    if cs == [] {
      PlainIsWellFormed([]);
    } else {
      EscapedIsWellFormed(cs[1..]);
      EscapedScalar(cs[0]);
      EscapedConcat(UnitsOf(cs[0]), Units(cs[1..]));
      WellFormedConcat(Escaped(UnitsOf(cs[0])), Escaped(Units(cs[1..])));
    }
  }

  lemma QuotedIsWellFormed(s: Text)
    requires Scalars(s).Some?
    ensures WellFormed(Quoted(s))
  {
    UnitsOfScalars(s);
    EscapedIsWellFormed(Scalars(s).value);
    BracketedIsWellFormed(QUOTE, Escaped(s), QUOTE);
  }

  lemma BracketedIsWellFormed(open: CodeUnit, inner: Text, close: CodeUnit)
    requires open < 0xD800 && close < 0xD800 && WellFormed(inner)
    ensures WellFormed([open] + inner + [close])
  {
    PlainIsWellFormed([open]);
    PlainIsWellFormed([close]);
    WellFormedConcat([open], inner);
    WellFormedConcat([open] + inner, [close]);
  }

  lemma {:induction false} JoinIsWellFormed(parts: seq<Text>)
    requires forall i :: 0 <= i < |parts| ==> WellFormed(parts[i])
    ensures WellFormed(Join(parts))
  {
    PlainIsWellFormed([]);
    PlainIsWellFormed([COMMA]);
    if |parts| > 1 {
      JoinIsWellFormed(parts[1..]);
      WellFormedConcat(parts[0], [COMMA]);
      WellFormedConcat(parts[0] + [COMMA], Join(parts[1..]));
    }
  }

  /** Text laid out from printable parts is well formed, so it has bytes. */
  lemma {:induction false} PrintIsWellFormed(v: Value)
    requires Plain(v) && Printable(v)
    ensures WellFormed(Print(v))
  {
    match v {
      case Null => PlainIsWellFormed(Print(v));
      case Bool(_) => PlainIsWellFormed(Print(v));
      case Num(_) => PlainIsWellFormed(Print(v));
      case Str(s) => QuotedIsWellFormed(s);
      case Arr(items) =>
        forall i | 0 <= i < |items| ensures WellFormed(Print(items[i])) {
          PrintIsWellFormed(items[i]);
        }
        PrintItemsAt(items);
        JoinIsWellFormed(PrintItems(items));
        BracketedIsWellFormed(OPEN_ARRAY, Join(PrintItems(items)), CLOSE_ARRAY);
      case Obj(ms) =>
        forall i | 0 <= i < |ms| ensures WellFormed(PrintMember(ms[i])) {
          PrintIsWellFormed(ms[i].value);
          QuotedIsWellFormed(ms[i].name);
          PlainIsWellFormed([COLON]);
          WellFormedConcat(Quoted(ms[i].name), [COLON]);
          WellFormedConcat(Quoted(ms[i].name) + [COLON], Print(ms[i].value));
        }
        PrintMembersAt(ms);
        JoinIsWellFormed(PrintMembers(ms));
        BracketedIsWellFormed(OPEN_OBJECT, Join(PrintMembers(ms)), CLOSE_OBJECT);
    }
  }

  lemma {:induction false} PrintItemsAt(items: seq<Value>)
    ensures |PrintItems(items)| == |items| && forall i :: 0 <= i < |items| ==> PrintItems(items)[i] == Print(items[i])
  {
    if items != [] {
      PrintItemsAt(items[1..]);
    }
  }

  lemma {:induction false} PrintMembersAt(ms: seq<Member>)
    ensures |PrintMembers(ms)| == |ms| && forall i :: 0 <= i < |ms| ==> PrintMembers(ms)[i] == PrintMember(ms[i])
  {
    if ms != [] {
      PrintMembersAt(ms[1..]);
    }
  }

  // -- bytes ------------------------------------------------------------------

  function CanonicalBytes(v: Value): Option<seq<Byte>> {
    match CanonicalText(v)
    case None => None
    case Some(t) => Some(Utf8(t))
  }

  /** The bytes of a normal form. */
  function BytesOfNorm(n: Value): seq<int> { Utf8(Print(n)) }

  /** What orders a value: its canonical bytes, where it has any. */
  function KeyOf(v: Value): seq<int> { BytesOfNorm(Norm(v)) }

  lemma KeyIsCanonicalBytes(v: Value)
    requires CanonicalBytes(v).Some?
    ensures CanonicalBytes(v).value == KeyOf(v)
  {
    EncodeIsExact(v, 0);
  }

  lemma {:induction false} NormIsPrintable(v: Value)
    requires Printable(v)
    ensures Printable(Norm(v))
    decreases v
  {
    match v {
      case Arr(items) =>
        forall i | 0 <= i < |items| ensures Printable(Norm(items[i])) {
          NormIsPrintable(items[i]);
        }
      case Obj(ms) =>
        var norms := NormMembers(ms);
        SortByElements(NameOf, norms);
        var sorted := SortBy(NameOf, norms);
        forall k | 0 <= k < |sorted| ensures Scalars(sorted[k].name).Some? && Printable(sorted[k].value) {
          assert sorted[k] in sorted;
          var i :| 0 <= i < |ms| && norms[i] == sorted[k];
          NormIsPrintable(ms[i].value);
        }
      case _ =>
    }
  }

  /** Equal bytes mean the same value, at any depth. */
  lemma KeyDecides(v: Value, w: Value)
    requires Valid(v) && Valid(w) && Printable(v) && Printable(w)
    ensures KeyOf(v) == KeyOf(w) <==> Norm(v) == Norm(w)
  {
    var m, n := Norm(v), Norm(w);
    NormIsPlain(v);
    NormIsPlain(w);
    NormIsPrintable(v);
    NormIsPrintable(w);
    PrintIsWellFormed(m);
    PrintIsWellFormed(n);
    Utf8IsInjective(Print(m), Print(n));
    PrintReads(m);
    PrintReads(n);
    assert Delimited([]);
    assert ReadValue(Print(m) + []) == Success(m, []) && ReadValue(Print(n) + []) == Success(n, []);
  }

  /** Two accepted values have the same bytes exactly when they are the same up to member order and -0. */
  lemma BytesDecideSame(v: Value, w: Value)
    requires Valid(v) && Valid(w) && CanonicalBytes(v).Some? && CanonicalBytes(w).Some?
    ensures CanonicalBytes(v) == CanonicalBytes(w) <==> Same(v, w)
  {
    EncodeIsExact(v, 0);
    EncodeIsExact(w, 0);
    KeyDecides(v, w);
    NormDecidesSame(v, w);
  }
}
