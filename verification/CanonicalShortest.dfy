/**
 Canonical text is the shortest: of all texts that read as a value with its keys in ascending sequence, the printer of
 identity.ts gives the one of least length, and there is no other of that length (RFC 8785 section 3.2.2.2).
 */
module CanonicalShortest {
  import opened Wrappers
  import opened CodeUnits
  import opened CanonicalJson
  import opened CanonicalReader

  /** What was read off `t`, leaving `rest`, is at least as long as `text`, and is `text` if it is no longer. */
  predicate Shortest(t: Text, text: Text, rest: Text) {
    |text| + |rest| <= |t| && (|text| + |rest| == |t| ==> t == text + rest)
  }

  /** One after the other. */
  lemma ShortestThen(t: Text, a: Text, middle: Text, b: Text, rest: Text)
    requires Shortest(t, a, middle) && Shortest(middle, b, rest)
    ensures Shortest(t, a + b, rest)
  {
    Regroup(a, b, rest);
  }

  lemma ShortestUnit(t: Text, u: CodeUnit)
    requires t != [] && t[0] == u
    ensures Shortest(t, [u], t[1..])
  {
    assert t == [u] + t[1..];
  }

  // -- strings ----------------------------------------------------------------

  /** No reading of one code unit is shorter than its escape, and none of the same length is another. */
  lemma UnitIsShortest(t: Text)
    requires ReadUnit(t).Success?
    ensures Shortest(t, Escape(ReadUnit(t).value), ReadUnit(t).rest)
  {
    var u, rest := ReadUnit(t).value, ReadUnit(t).rest;
    if t[0] != BACKSLASH {
      ShortestUnit(t, u);
    } else if t[1] != LETTER_U {
      assert t == [BACKSLASH, t[1]] + rest;
    } else if |Escape(u)| == 6 {
      HexIsDetermined(t);
      assert t == [t[0], t[1], t[2], t[3], t[4], t[5]] + rest;
    }
  }

  lemma HexIsDetermined(t: Text)
    requires |t| >= 6 && t[0] == BACKSLASH && t[1] == LETTER_U && ReadUnit(t).Success?
    requires |Escape(ReadUnit(t).value)| == 6
    ensures Escape(ReadUnit(t).value) == [t[0], t[1], t[2], t[3], t[4], t[5]]
  {
    var a, b, c, d := HexValue(t[2]).value, HexValue(t[3]).value, HexValue(t[4]).value, HexValue(t[5]).value;
    var u := ReadUnit(t).value;
    assert a == 0 && b == 0 && c == u / 16 && d == u % 16;
    DigitIsDetermined(t[2]);
    DigitIsDetermined(t[3]);
    DigitIsDetermined(t[4]);
    DigitIsDetermined(t[5]);
  }

  lemma DigitIsDetermined(u: CodeUnit)
    requires HexValue(u).Some?
    ensures HexDigit(HexValue(u).value) == u
  {
  }

  lemma {:induction false} BodyIsShortest(t: Text)
    requires ReadBody(t).Success?
    ensures Shortest(t, Escaped(ReadBody(t).value) + [QUOTE], ReadBody(t).rest)
    decreases |t|
  {
    if t[0] == QUOTE {
      ShortestUnit(t, QUOTE);
      assert Escaped([]) + [QUOTE] == [QUOTE];
    } else {
      var u, middle := ReadUnit(t).value, ReadUnit(t).rest;
      var s, rest := ReadBody(middle).value, ReadBody(middle).rest;
      UnitIsShortest(t);
      BodyIsShortest(middle);
      ShortestThen(t, Escape(u), middle, Escaped(s) + [QUOTE], rest);
      Regroup(Escape(u), Escaped(s), [QUOTE]);
      Reopen(u, s);
    }
  }

  /** Of the bodies that read as one string, the escaped one is the shortest, and the only one so short. */
  lemma EscapedIsShortest(s: Text, t: Text)
    requires ReadBody(t + [QUOTE]) == Success(s, [])
    ensures |Escaped(s)| <= |t|
    ensures |Escaped(s)| == |t| ==> t == Escaped(s)
  {
    BodyIsShortest(t + [QUOTE]);
    ClosedAlike(t, Escaped(s));
  }

  lemma ClosedAlike(a: Text, b: Text)
    requires Shortest(a + [QUOTE], b + [QUOTE], [])
    ensures |b| <= |a|
    ensures |b| == |a| ==> a == b
  {
    if |b| == |a| {
      assert (a + [QUOTE])[..|a|] == a && (b + [QUOTE] + [])[..|b|] == b;
    }
  }

  /** Of the spellings of one unit, its escape is the shortest, and the only one so short. */
  lemma EscapeIsMinimal(u: CodeUnit, t: Text)
    requires ReadBody(t + [QUOTE]) == Success([u], [])
    ensures |Escape(u)| <= |t|
    ensures |Escape(u)| == |t| ==> t == Escape(u)
  {
    EscapedIsShortest([u], t);
    EscapedOne(u);
  }

  /** A unit that may stand raw does, and hexadecimal is for control characters, with its digits in lower case. */
  lemma EscapeIsPlain(u: CodeUnit)
    ensures ReadUnit([u]) == Success(u, []) ==> Escape(u) == [u]
    ensures |Escape(u)| == 6 ==>
              u < 0x20 && forall i :: 2 <= i < 6 ==> 0x30 <= Escape(u)[i] <= 0x39 || 0x61 <= Escape(u)[i] <= 0x66
  {
  }

  lemma EscapedOne(u: CodeUnit)
    ensures Escaped([u]) == Escape(u)
  {
    assert [u][1..] == [];
  }

  lemma QuotedIsShortest(t: Text)
    requires t != [] && t[0] == QUOTE && ReadBody(t[1..]).Success?
    ensures Shortest(t, Quoted(ReadBody(t[1..]).value), ReadBody(t[1..]).rest)
  {
    var s := ReadBody(t[1..]).value;
    ShortestUnit(t, QUOTE);
    BodyIsShortest(t[1..]);
    ShortestThen(t, [QUOTE], t[1..], Escaped(s) + [QUOTE], ReadBody(t[1..]).rest);
    Regroup([QUOTE], Escaped(s), [QUOTE]);
  }

  // -- values -----------------------------------------------------------------

  lemma {:induction false} ValueIsShortest(t: Text)
    requires ReadValue(t).Success?
    ensures Shortest(t, Print(ReadValue(t).value), ReadValue(t).rest)
    decreases |t|, 1
  {
    if t[0] == QUOTE {
      QuotedIsShortest(t);
    } else if t[0] == OPEN_ARRAY {
      ArrayIsShortest(t);
    } else if t[0] == OPEN_OBJECT {
      ObjectIsShortest(t);
    } else if NumeralStart(t[0]) {
      assert t == NumeralRun(t) + t[|NumeralRun(t)|..];
    } else {
      WordIsShortest(t);
    }
  }

  lemma WordIsShortest(t: Text)
    requires ReadValue(t).Success? && (ReadValue(t).value.Null? || ReadValue(t).value.Bool?)
    ensures Shortest(t, Print(ReadValue(t).value), ReadValue(t).rest)
  {
    var n := |t| - |ReadValue(t).rest|;
    assert t == t[..n] + t[n..];
    assert t[..n] == Print(ReadValue(t).value);
  }

  lemma {:induction false} ArrayIsShortest(t: Text)
    requires ReadValue(t).Success? && t[0] == OPEN_ARRAY
    ensures Shortest(t, Print(ReadValue(t).value), ReadValue(t).rest)
    decreases |t|, 0
  {
    if |t| >= 2 && t[1] == CLOSE_ARRAY {
      assert t == [OPEN_ARRAY, CLOSE_ARRAY] + t[2..];
      assert Print(Arr([])) == [OPEN_ARRAY, CLOSE_ARRAY];
    } else {
      var items, rest := ReadItems(t[1..]).value, ReadItems(t[1..]).rest;
      var inner := Join(PrintItems(items));
      ItemsAreShortest(t[1..]);
      ShortestUnit(t, OPEN_ARRAY);
      ShortestThen(t, [OPEN_ARRAY], t[1..], inner + [CLOSE_ARRAY], rest);
      Regroup([OPEN_ARRAY], inner, [CLOSE_ARRAY]);
    }
  }

  lemma {:induction false} ItemsAreShortest(t: Text)
    requires ReadItems(t).Success?
    ensures ReadItems(t).value != []
    ensures Shortest(t, Join(PrintItems(ReadItems(t).value)) + [CLOSE_ARRAY], ReadItems(t).rest)
    decreases |t|, 2
  {
    var v, middle := ReadValue(t).value, ReadValue(t).rest;
    ValueIsShortest(t);
    ShortestUnit(middle, middle[0]);
    if middle[0] == CLOSE_ARRAY {
      ShortestThen(t, Print(v), middle, [CLOSE_ARRAY], middle[1..]);
      assert PrintItems([v]) == [Print(v)];
    } else {
      var items, rest := ReadItems(middle[1..]).value, ReadItems(middle[1..]).rest;
      ItemsAreShortest(middle[1..]);
      MoreIsShortest(t, Print(v), middle, PrintItems(items), CLOSE_ARRAY, rest);
      PrintItemsFirst(v, items);
    }
  }

  lemma PrintItemsFirst(v: Value, items: seq<Value>)
    ensures PrintItems([v] + items) == [Print(v)] + PrintItems(items)
  {
    assert ([v] + items)[1..] == items;
  }

  /** One part, a comma, and more parts up to the closing bracket. */
  lemma MoreIsShortest(t: Text, first: Text, middle: Text, parts: seq<Text>, close: CodeUnit, rest: Text)
    requires Shortest(t, first, middle) && middle != [] && middle[0] == COMMA && parts != []
    requires Shortest(middle[1..], Join(parts) + [close], rest)
    ensures Shortest(t, Join([first] + parts) + [close], rest)
  {
    var more := Join(parts);
    ShortestUnit(middle, COMMA);
    ShortestThen(t, first, middle, [COMMA], middle[1..]);
    ShortestThen(t, first + [COMMA], middle[1..], more + [close], rest);
    assert ([first] + parts)[1..] == parts;
    Regroup(first + [COMMA], more, [close]);
  }

  lemma {:induction false} ObjectIsShortest(t: Text)
    requires ReadValue(t).Success? && t[0] == OPEN_OBJECT
    ensures Shortest(t, Print(ReadValue(t).value), ReadValue(t).rest)
    decreases |t|, 0
  {
    if |t| >= 2 && t[1] == CLOSE_OBJECT {
      assert t == [OPEN_OBJECT, CLOSE_OBJECT] + t[2..];
      assert Print(Obj([])) == [OPEN_OBJECT, CLOSE_OBJECT];
    } else {
      var ms, rest := ReadMembers(t[1..]).value, ReadMembers(t[1..]).rest;
      var inner := Join(PrintMembers(ms));
      MembersAreShortest(t[1..]);
      ShortestUnit(t, OPEN_OBJECT);
      ShortestThen(t, [OPEN_OBJECT], t[1..], inner + [CLOSE_OBJECT], rest);
      Regroup([OPEN_OBJECT], inner, [CLOSE_OBJECT]);
    }
  }

  lemma {:induction false} MemberIsShortest(t: Text)
    requires ReadMember(t).Success?
    ensures Shortest(t, PrintMember(ReadMember(t).value), ReadMember(t).rest)
    decreases |t|, 2
  {
    var name, colon := ReadBody(t[1..]).value, ReadBody(t[1..]).rest;
    var v, rest := ReadValue(colon[1..]).value, ReadValue(colon[1..]).rest;
    QuotedIsShortest(t);
    ShortestUnit(colon, COLON);
    ValueIsShortest(colon[1..]);
    ShortestThen(t, Quoted(name), colon, [COLON], colon[1..]);
    ShortestThen(t, Quoted(name) + [COLON], colon[1..], Print(v), rest);
  }

  lemma {:induction false} MembersAreShortest(t: Text)
    requires ReadMembers(t).Success?
    ensures ReadMembers(t).value != []
    ensures Shortest(t, Join(PrintMembers(ReadMembers(t).value)) + [CLOSE_OBJECT], ReadMembers(t).rest)
    decreases |t|, 3
  {
    var m, middle := ReadMember(t).value, ReadMember(t).rest;
    MemberIsShortest(t);
    ShortestUnit(middle, middle[0]);
    if middle[0] == CLOSE_OBJECT {
      ShortestThen(t, PrintMember(m), middle, [CLOSE_OBJECT], middle[1..]);
      assert PrintMembers([m]) == [PrintMember(m)];
    } else {
      var ms, rest := ReadMembers(middle[1..]).value, ReadMembers(middle[1..]).rest;
      MembersAreShortest(middle[1..]);
      MoreIsShortest(t, PrintMember(m), middle, PrintMembers(ms), CLOSE_OBJECT, rest);
      PrintMembersFirst(m, ms);
    }
  }

  lemma PrintMembersFirst(m: Member, ms: seq<Member>)
    ensures PrintMembers([m] + ms) == [PrintMember(m)] + PrintMembers(ms)
  {
    assert ([m] + ms)[1..] == ms;
  }

  /** Canonical text is the shortest text that reads as the normal form, and the only one of its length. */
  lemma CanonicalTextIsShortest(v: Value, t: Text)
    requires Valid(v) && CanonicalText(v).Some? && ReadText(t) == Some(Norm(v))
    ensures |CanonicalText(v).value| <= |t|
    ensures |CanonicalText(v).value| == |t| ==> t == CanonicalText(v).value
  {
    EncodeIsExact(v, 0);
    ValueIsShortest(t);
    assert Print(Norm(v)) + [] == Print(Norm(v));
  }
}
