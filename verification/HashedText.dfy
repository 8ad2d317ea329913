/** What the hashes of identity.ts are spelled from, character by character. */
module HashedText {
  import opened Wrappers
  import opened Ordering
  import opened CodeUnits
  import opened CanonicalJson
  import opened CanonicalReader
  import opened CanonicalUtf8
  import opened SchemaIdentity
  import opened SchemaEquivalence
  import opened SchemaAcceptance
  import opened ToolIdentity

  // -- the spelling of a hash -------------------------------------------------

  /** Two lower-case hexadecimal digits for each byte, the high one first. */
  ghost predicate SpellsBytes(t: Text, bytes: seq<Byte>) {
    && |t| == 2 * |bytes|
    && forall i :: 0 <= i < |bytes| ==> SpellsByte(t[2 * i], t[2 * i + 1], bytes[i])
  }

  ghost predicate SpellsByte(high: CodeUnit, low: CodeUnit, b: Byte) {
    HexValue(high).Some? && HexValue(low).Some? && 16 * HexValue(high).value + HexValue(low).value == b
  }

  lemma {:induction false} HexSpells(bytes: seq<Byte>)
    ensures SpellsBytes(Hex(bytes), bytes)
  {
    if bytes != [] {
      var rest := bytes[1..];
      HexSpells(rest);
      assert forall i :: 1 <= i < |bytes| ==> bytes[i] == rest[i - 1];
      forall i | 0 <= i < |bytes| ensures SpellsByte(Hex(bytes)[2 * i], Hex(bytes)[2 * i + 1], bytes[i]) {
        if i == 0 {
          DigitsSpell(bytes[0]);
        } else {
          assert SpellsByte(Hex(rest)[2 * (i - 1)], Hex(rest)[2 * (i - 1) + 1], rest[i - 1]);
        }
      }
    }
  }

  lemma DigitsSpell(b: Byte)
    ensures SpellsByte(HexDigit(b / 16), HexDigit(b % 16), b)
  {
    HexDigitReads(b / 16);
    HexDigitReads(b % 16);
  }

  /** `sha256:` and the hexadecimal of the digest of the text's UTF-8 bytes. */
  ghost predicate IsHashOf(h: Text, digest: Digest, text: Text) {
    |h| >= 7 && Named(h[..7], "sha256:") && SpellsBytes(h[7..], digest(Utf8(text)))
  }

  lemma HashIsSpelled(digest: Digest, v: Value)
    ensures ContentHash(digest, v).Some? <==> CanonicalText(v).Some?
    ensures CanonicalText(v).Some? ==> IsHashOf(ContentHash(digest, v).value, digest, CanonicalText(v).value)
  {
    if CanonicalText(v).Some? {
      var digested := digest(Utf8(CanonicalText(v).value));
      HexSpells(digested);
      assert HashText(digested)[..7] == Ascii("sha256:") && HashText(digested)[7..] == Hex(digested);
    }
  }

  // -- the documents ----------------------------------------------------------

  function HintText(hint: Option<bool>): Text {
    match hint
    case None => Ascii("null")
    case Some(b) => if b then Ascii("true") else Ascii("false")
  }

  /** A name that may stand raw in a string. */
  predicate RawName(name: string) {
    name != "" && forall i :: 0 <= i < |name| ==> ' ' <= name[i] < '\U{0080}' && name[i] != '"' && name[i] != '\\'
  }

  /** A member's name in quotes, and the colon. */
  function Key(name: string): Text
    requires forall i :: 0 <= i < |name| ==> name[i] < '\U{0080}'
  {
    Ascii("\"") + Ascii(name) + Ascii("\":")
  }

  function HintsText(tool: Tool): Text {
    TextOfTwo("read_only_hint", HintText(tool.readOnlyHint),
              "untrusted_content_hint", HintText(tool.untrustedContentHint))
  }

  function TextOfTwo(first: string, a: Text, second: string, b: Text): Text
    requires RawName(first) && RawName(second)
  {
    Ascii("{") + (Key(first) + a) + (Ascii(",") + (Key(second) + b)) + Ascii("}")
  }

  function IdentityText(p: Identity): Text {
    HashNamesAreRaw();
    TextOfFour("description_hash", Quoted(p.descriptionHash), "hints_hash", Quoted(p.hintsHash),
               "name_hash", Quoted(p.nameHash), "schema_hash", Quoted(p.schemaHash))
  }

  lemma HashNamesAreRaw()
    ensures RawName("description_hash") && RawName("hints_hash") && RawName("name_hash") && RawName("schema_hash")
  {
    assert RawName("description_hash");
    assert RawName("hints_hash");
    assert RawName("name_hash");
  }

  function TextOfFour(first: string, a: Text, second: string, b: Text,
                      third: string, c: Text, last: string, d: Text): Text
    requires RawName(first) && RawName(second) && RawName(third) && RawName(last)
  {
    Ascii("{") + (Key(first) + a) + (Ascii(",") + (Key(second) + b)) + (Ascii(",") + (Key(third) + c))
    + (Ascii(",") + (Key(last) + d)) + Ascii("}")
  }

  // -- laying out an object ---------------------------------------------------

  /** Characters that may stand raw do. */
  lemma {:induction false} RawIsEscaped(s: Text)
    requires forall i :: 0 <= i < |s| ==> s[i] >= 0x20 && s[i] != 0x22 && s[i] != 0x5C
    ensures Escaped(s) == s
  {
    if s != [] {
      RawIsEscaped(s[1..]);
      assert s == [s[0]] + s[1..];
    }
  }

  lemma MemberIsSpelled(name: string, v: Value)
    requires RawName(name)
    ensures PrintMember(Member(Ascii(name), v)) == Key(name) + Print(v)
  {
    RawIsEscaped(Ascii(name));
    assert Ascii("\"") == [QUOTE] && Ascii("\":") == [QUOTE] + [COLON];
    var n, p := Ascii(name), Print(v);
    assert (([QUOTE] + n + [QUOTE]) + [COLON]) + p == ([QUOTE] + n + ([QUOTE] + [COLON])) + p;
  }

  lemma JoinTwo(a: Text, b: Text)
    ensures Join([a, b]) == a + ([COMMA] + b)
  {
    assert [a, b][1..] == [b];
  }

  lemma JoinFour(a: Text, b: Text, c: Text, d: Text)
    ensures Join([a, b, c, d]) == a + ([COMMA] + b) + ([COMMA] + c) + ([COMMA] + d)
  {
    assert [a, b, c, d][1..] == [b, c, d] && [b, c, d][1..] == [c, d];
    JoinTwo(c, d);
    assert Join([b, c, d]) == b + [COMMA] + Join([c, d]);
    assert Join([a, b, c, d]) == a + [COMMA] + Join([b, c, d]);
  }

  /** A leaf is its own normal form. */
  predicate Leaf(v: Value) {
    v.Null? || v.Bool? || v.Str?
  }

  /** Members in ascending sequence, with leaves under them, are laid out as they are. */
  lemma LeavesAreSorted(ms: seq<Member>, sorted: seq<Member>)
    requires NamesAscend(sorted) && multiset(sorted) == multiset(ms) && forall i :: 0 <= i < |ms| ==> Leaf(ms[i].value)
    ensures Norm(Obj(ms)) == Obj(sorted)
  {
    assert NormMembers(ms) == ms;
    forall i, j | 0 <= i < j < |sorted| ensures !Less(NameOf(sorted[j]), NameOf(sorted[i])) {
      LessIsTotal(sorted[i].name, sorted[j].name);
    }
    SortBySorts(NameOf, ms);
    forall x, y | x in SortBy(NameOf, ms) && y in sorted && NameOf(x) == NameOf(y) ensures x == y {
      AscendingNamesDiffer(ms, sorted, x, y);
    }
    SortedIsUnique(NameOf, SortBy(NameOf, ms), sorted);
  }

  lemma AscendingNamesDiffer(ms: seq<Member>, sorted: seq<Member>, x: Member, y: Member)
    requires NamesAscend(sorted) && multiset(sorted) == multiset(ms)
    requires x in SortBy(NameOf, ms) && y in sorted && x.name == y.name
    ensures x == y
  {
    SortByElements(NameOf, ms);
    assert x in multiset(sorted);
    var i :| 0 <= i < |sorted| && sorted[i] == x;
    var j :| 0 <= j < |sorted| && sorted[j] == y;
    LessIsTotal(x.name, x.name);
  }

  lemma FirstLetters(a: Text, b: Text)
    requires a != [] && b != [] && a[0] < b[0]
    ensures Less(a, b)
  {
  }

  lemma Brackets(inner: Text)
    ensures [OPEN_OBJECT] + inner + [CLOSE_OBJECT] == Ascii("{") + inner + Ascii("}")
    ensures Ascii(",") == [COMMA]
  {
  }

  lemma TwoAreSorted(m: Member, n: Member)
    requires Less(m.name, n.name) && Leaf(m.value) && Leaf(n.value)
    ensures Norm(Obj([m, n])) == Obj([m, n])
  {
    LeavesAreSorted([m, n], [m, n]);
  }

  lemma TwoAreLaidOut(m: Member, n: Member)
    ensures Print(Obj([m, n])) == Ascii("{") + PrintMember(m) + (Ascii(",") + PrintMember(n)) + Ascii("}")
  {
    var ms, a, b := [m, n], PrintMember(m), PrintMember(n);
    PrintMembersAt(ms);
    assert PrintMembers(ms) == [a, b];
    JoinTwo(a, b);
    Brackets(Join([a, b]));
    Regroup(Ascii("{"), a, Ascii(",") + b);
  }

  lemma FourAreLaidOut(k: Member, l: Member, m: Member, n: Member)
    ensures Print(Obj([k, l, m, n]))
         == Ascii("{") + PrintMember(k) + (Ascii(",") + PrintMember(l)) + (Ascii(",") + PrintMember(m))
            + (Ascii(",") + PrintMember(n)) + Ascii("}")
  {
    var a, b, c, d := PrintMember(k), PrintMember(l), PrintMember(m), PrintMember(n);
    PrintMembersAt([k, l, m, n]);
    assert PrintMembers([k, l, m, n]) == [a, b, c, d];
    JoinFour(a, b, c, d);
    Brackets(Join([a, b, c, d]));
    RegroupFour(Ascii("{"), a, Ascii(",") + b, Ascii(",") + c, Ascii(",") + d);
  }

  lemma RegroupFour(open: Text, a: Text, b: Text, c: Text, d: Text)
    ensures open + (a + b + c + d) == open + a + b + c + d
  {
  }

  lemma TwoKeys(first: string, second: string, x: Value, y: Value)
    requires RawName(first) && RawName(second) && first[0] < second[0] && Leaf(x) && Leaf(y)
    ensures Print(Norm(Obj([Member(Ascii(first), x), Member(Ascii(second), y)])))
         == TextOfTwo(first, Print(x), second, Print(y))
  {
    FirstLetters(Ascii(first), Ascii(second));
    TwoAreSorted(Member(Ascii(first), x), Member(Ascii(second), y));
    TwoAreLaidOut(Member(Ascii(first), x), Member(Ascii(second), y));
    MemberIsSpelled(first, x);
    MemberIsSpelled(second, y);
  }

  lemma HintPrints(hint: Option<bool>)
    ensures Print(HintValue(hint)) == HintText(hint) && Leaf(HintValue(hint))
  {
  }

  lemma AcceptedIsPrinted(v: Value)
    requires CanonicalText(v).Some?
    ensures CanonicalText(v) == Some(Print(Norm(v)))
  {
    EncodeIsExact(v, 0);
  }

  lemma HintsAreLaidOut(tool: Tool)
    ensures Print(Norm(HintsDocument(tool))) == HintsText(tool)
  {
    var x, y := HintValue(tool.readOnlyHint), HintValue(tool.untrustedContentHint);
    HintPrints(tool.readOnlyHint);
    HintPrints(tool.untrustedContentHint);
    TwoKeys("read_only_hint", "untrusted_content_hint", x, y);
  }

  lemma HintsAreSpelled(tool: Tool)
    ensures CanonicalText(HintsDocument(tool)) == Some(HintsText(tool))
  {
    HintsAreAccepted(tool);
    AcceptedIsPrinted(HintsDocument(tool));
    HintsAreLaidOut(tool);
  }

  /** The composite's document lists its four hashes in ascending sequence, not as they are given. */
  lemma FourKeys(first: string, second: string, third: string, last: string, a: Value, b: Value, c: Value, d: Value)
    requires RawName(first) && RawName(second) && RawName(third) && RawName(last)
    requires first[0] < second[0] < third[0] < last[0]
    requires Leaf(a) && Leaf(b) && Leaf(c) && Leaf(d)
    ensures Print(Norm(Obj([Member(Ascii(third), c), Member(Ascii(first), a), Member(Ascii(second), b),
                            Member(Ascii(last), d)])))
         == TextOfFour(first, Print(a), second, Print(b), third, Print(c), last, Print(d))
  {
    var k, l := Member(Ascii(first), a), Member(Ascii(second), b);
    var m, n := Member(Ascii(third), c), Member(Ascii(last), d);
    FourAreSorted(k, l, m, n);
    FourAreLaidOut(k, l, m, n);
    MemberIsSpelled(first, a);
    MemberIsSpelled(second, b);
    MemberIsSpelled(third, c);
    MemberIsSpelled(last, d);
  }

  lemma FourAreSorted(k: Member, l: Member, m: Member, n: Member)
    requires k.name != [] && l.name != [] && m.name != [] && n.name != []
    requires k.name[0] < l.name[0] < m.name[0] < n.name[0]
    requires Leaf(k.value) && Leaf(l.value) && Leaf(m.value) && Leaf(n.value)
    ensures Norm(Obj([m, k, l, n])) == Obj([k, l, m, n])
  {
    FourAscend(k, l, m, n);
    FourReordered(m, k, l, n);
    LeavesAreSorted([m, k, l, n], [k, l, m, n]);
  }

  lemma FourAscend(k: Member, l: Member, m: Member, n: Member)
    requires k.name != [] && l.name != [] && m.name != [] && n.name != []
    requires k.name[0] < l.name[0] < m.name[0] < n.name[0]
    ensures NamesAscend([k, l, m, n])
  {
  }

  lemma IdentityIsLaidOut(p: Identity)
    ensures Print(Norm(DocumentOf(p))) == IdentityText(p)
  {
    HashNamesAreRaw();
    FourKeys("description_hash", "hints_hash", "name_hash", "schema_hash",
             Str(p.descriptionHash), Str(p.hintsHash), Str(p.nameHash), Str(p.schemaHash));
  }

  lemma IdentityIsSpelled(p: Identity)
    requires CanonicalText(DocumentOf(p)).Some?
    ensures CanonicalText(DocumentOf(p)) == Some(IdentityText(p))
  {
    AcceptedIsPrinted(DocumentOf(p));
    IdentityIsLaidOut(p);
  }

  lemma FourReordered(a: Member, b: Member, c: Member, d: Member)
    ensures multiset([a, b, c, d]) == multiset([b, c, a, d])
  {
    assert [a, b, c, d] == [a] + [b, c] + [d] && [b, c, a, d] == [b, c] + [a] + [d];
  }

  // -- the five hashes --------------------------------------------------------

  /** Each hash of an identity, character by character, from the tool alone. */
  lemma IdentityIsHashed(digest: Digest, tool: Tool)
    requires IdentityOf(digest, tool).Some?
    ensures SchemaText(Obj(tool.inputSchema)).Some?
    ensures var p := IdentityOf(digest, tool).value;
            && IsHashOf(p.nameHash, digest, Quoted(tool.name))
            && IsHashOf(p.descriptionHash, digest, Quoted(tool.description))
            && IsHashOf(p.hintsHash, digest, HintsText(tool))
            && IsHashOf(p.schemaHash, digest, SchemaText(Obj(tool.inputSchema)).value)
            && IsHashOf(p.identityHash, digest, IdentityText(p))
  {
    var p := IdentityOf(digest, tool).value;
    HashIsSpelled(digest, Str(tool.name));
    HashIsSpelled(digest, Str(tool.description));
    HashIsSpelled(digest, HintsDocument(tool));
    HashIsSpelled(digest, CanonicalSchema(Obj(tool.inputSchema)).value);
    HashIsSpelled(digest, DocumentOf(p));
    HintsAreSpelled(tool);
    IdentityIsSpelled(p);
  }
}
