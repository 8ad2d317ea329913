/** How a tool is identified: four sub-hashes and their composite (identity.ts). */
module ToolIdentity {
  import opened Wrappers
  import opened CodeUnits
  import opened CanonicalJson
  import opened CanonicalReader
  import opened CanonicalUtf8
  import opened SchemaIdentity
  import opened SchemaEquivalence

  /** A captured definition; a hint that was not declared stays absent. */
  datatype Tool = Tool(
    name: Text, description: Text, readOnlyHint: Option<bool>, untrustedContentHint: Option<bool>,
    inputSchema: seq<Member>)

  datatype Identity = Identity(
    nameHash: Text, descriptionHash: Text, hintsHash: Text, schemaHash: Text, identityHash: Text)

  /** What the platform's digest computes; nothing is asked of it but that it is a function. */
  type Digest = seq<Byte> -> seq<Byte>

  function Hex(bytes: seq<Byte>): Text {
    if bytes == [] then [] else [HexDigit(bytes[0] / 16), HexDigit(bytes[0] % 16)] + Hex(bytes[1..])
  }

  /** `sha256:` and the digest of the canonical bytes in hexadecimal. */
  function ContentHash(digest: Digest, v: Value): Option<Text> {
    match CanonicalBytes(v)
    case None => None
    case Some(bytes) => Some(HashText(digest(bytes)))
  }

  function HashText(digested: seq<Byte>): Text {
    Ascii("sha256:") + Hex(digested)
  }

  function HintValue(hint: Option<bool>): Value {
    match hint
    case None => Null
    case Some(b) => Bool(b)
  }

  function HintsDocument(tool: Tool): Value {
    Obj([Member(Ascii("read_only_hint"), HintValue(tool.readOnlyHint)),
         Member(Ascii("untrusted_content_hint"), HintValue(tool.untrustedContentHint))])
  }

  function IdentityDocument(nameHash: Text, descriptionHash: Text, hintsHash: Text, schemaHash: Text): Value {
    Obj([Member(Ascii("name_hash"), Str(nameHash)), Member(Ascii("description_hash"), Str(descriptionHash)),
         Member(Ascii("hints_hash"), Str(hintsHash)), Member(Ascii("schema_hash"), Str(schemaHash))])
  }

  /** `toolIdentity`: refused as soon as one of its documents is. */
  function IdentityOf(digest: Digest, tool: Tool): Option<Identity> {
    match CanonicalSchema(Obj(tool.inputSchema))
    case None => None
    case Some(schema) =>
      match (ContentHash(digest, Str(tool.name)), ContentHash(digest, Str(tool.description)),
             ContentHash(digest, HintsDocument(tool)), ContentHash(digest, schema))
      case (Some(name), Some(description), Some(hints), Some(schemaHash)) =>
        (match ContentHash(digest, IdentityDocument(name, description, hints, schemaHash))
         case None => None
         case Some(identity) => Some(Identity(name, description, hints, schemaHash, identity)))
      case _ => None
  }

  // -- what a hash decides ----------------------------------------------------

  lemma {:induction false} HexIsInjective(a: seq<Byte>, b: seq<Byte>)
    requires Hex(a) == Hex(b)
    ensures a == b
  {
    if a != [] || b != [] {
      var x, y := Hex(a), Hex(b);
      assert a != [] && b != [];
      assert x[0] == y[0] && x[1] == y[1];
      DigitIsInjective(a[0] / 16, b[0] / 16);
      DigitIsInjective(a[0] % 16, b[0] % 16);
      assert x[2..] == Hex(a[1..]) && y[2..] == Hex(b[1..]);
      HexIsInjective(a[1..], b[1..]);
      assert a == [a[0]] + a[1..] && b == [b[0]] + b[1..];
    }
  }

  lemma DigitIsInjective(m: nat, n: nat)
    requires m < 16 && n < 16 && HexDigit(m) == HexDigit(n)
    ensures m == n
  {
  }

  /** The digest fails to tell the bytes of two values apart. */
  ghost predicate Collide(digest: Digest, v: Value, w: Value) {
    && CanonicalBytes(v).Some? && CanonicalBytes(w).Some?
    && CanonicalBytes(v) != CanonicalBytes(w)
    && digest(CanonicalBytes(v).value) == digest(CanonicalBytes(w).value)
  }

  /** Two accepted values have one hash exactly when they are the same or the digest collides on them. */
  lemma HashDecides(digest: Digest, v: Value, w: Value)
    requires Valid(v) && Valid(w) && ContentHash(digest, v).Some? && ContentHash(digest, w).Some?
    ensures ContentHash(digest, v) == ContentHash(digest, w) <==> Same(v, w) || Collide(digest, v, w)
  {
    BytesDecideSame(v, w);
    var x, y := digest(CanonicalBytes(v).value), digest(CanonicalBytes(w).value);
    if HashText(x) == HashText(y) {
      assert HashText(x)[7..] == Hex(x) && HashText(y)[7..] == Hex(y);
      HexIsInjective(x, y);
    }
  }

  // -- what the identity decides ----------------------------------------------

  ghost predicate ValidTool(tool: Tool) {
    Valid(Obj(tool.inputSchema))
  }

  /** Tools that differ in nothing the identity is meant to notice. */
  ghost predicate SameTool(a: Tool, b: Tool) {
    && a.name == b.name && a.description == b.description
    && a.readOnlyHint == b.readOnlyHint && a.untrustedContentHint == b.untrustedContentHint
    && SameSchema(Obj(a.inputSchema), Obj(b.inputSchema))
  }

  lemma HintNamesDiffer()
    ensures Ascii("read_only_hint") != Ascii("untrusted_content_hint")
  {
    assert Ascii("read_only_hint")[0] == 0x72 && Ascii("untrusted_content_hint")[0] == 0x75;
  }

  lemma HintsDecide(a: Tool, b: Tool)
    ensures Valid(HintsDocument(a)) && Valid(HintsDocument(b))
    ensures Same(HintsDocument(a), HintsDocument(b)) <==>
            a.readOnlyHint == b.readOnlyHint && a.untrustedContentHint == b.untrustedContentHint
  {
    HintNamesDiffer();
    var x, y := HintsDocument(a).members, HintsDocument(b).members;
    AlignedDecide(x, y);
    assert Same(HintsDocument(a), HintsDocument(b)) <==> Same(x[0].value, y[0].value) && Same(x[1].value, y[1].value);
  }

  lemma SameNames(x: seq<Member>, y: seq<Member>)
    requires |x| == |y| && forall i :: 0 <= i < |x| ==> x[i].name == y[i].name
    ensures Names(x) == Names(y)
  {
    forall m | m in x ensures m.name in Names(y) {
      var i :| 0 <= i < |x| && x[i] == m;
      assert y[i] in y && y[i].name == m.name;
    }
    forall m | m in y ensures m.name in Names(x) {
      var i :| 0 <= i < |y| && y[i] == m;
      assert x[i] in x && x[i].name == m.name;
    }
  }

  /** Objects listing the same names in the same order are the same when their values are, one by one. */
  lemma AlignedDecide(x: seq<Member>, y: seq<Member>)
    requires DistinctNames(x) && Aligned(x, y)
    ensures Same(Obj(x), Obj(y)) <==> SameValues(x, y)
  {
    if Same(Obj(x), Obj(y)) {
      forall k | 0 <= k < |x| ensures Same(x[k].value, y[k].value) {
        assert x[k].name == y[k].name;
      }
    }
    if SameValues(x, y) {
      AlignedAreSame(x, y);
    }
  }

  ghost predicate Aligned(x: seq<Member>, y: seq<Member>) {
    |x| == |y| && forall i :: 0 <= i < |x| ==> x[i].name == y[i].name
  }

  ghost predicate SameValues(x: seq<Member>, y: seq<Member>)
    requires |x| == |y|
  {
    forall k :: 0 <= k < |x| ==> Same(x[k].value, y[k].value)
  }

  lemma AlignedAreSame(x: seq<Member>, y: seq<Member>)
    requires DistinctNames(x) && Aligned(x, y) && SameValues(x, y)
    ensures Same(Obj(x), Obj(y))
  {
    SameNames(x, y);
    forall i, j | 0 <= i < |x| && 0 <= j < |y| && x[i].name == y[j].name ensures Same(x[i].value, y[j].value) {
      assert x[j].name == y[j].name;
    }
  }

  lemma IdentityNamesDiffer()
    ensures var names := [Ascii("name_hash"), Ascii("description_hash"), Ascii("hints_hash"), Ascii("schema_hash")];
            forall i, j :: 0 <= i < j < 4 ==> names[i] != names[j]
  {
    assert Ascii("name_hash")[0] == 0x6E && Ascii("description_hash")[0] == 0x64;
    assert Ascii("hints_hash")[0] == 0x68 && Ascii("schema_hash")[0] == 0x73;
  }

  lemma DocumentIsValid(p: Identity)
    ensures Valid(DocumentOf(p))
  {
    IdentityNamesDiffer();
  }

  lemma IdentityDocumentsDecide(p: Identity, q: Identity)
    ensures Same(DocumentOf(p), DocumentOf(q)) <==>
            && p.nameHash == q.nameHash && p.descriptionHash == q.descriptionHash
            && p.hintsHash == q.hintsHash && p.schemaHash == q.schemaHash
  {
    DocumentIsValid(p);
    var x, y := DocumentOf(p).members, DocumentOf(q).members;
    AlignedDecide(x, y);
    assert Same(DocumentOf(p), DocumentOf(q)) <==>
           && Same(x[0].value, y[0].value) && Same(x[1].value, y[1].value)
           && Same(x[2].value, y[2].value) && Same(x[3].value, y[3].value);
  }

  function DocumentOf(p: Identity): Value {
    IdentityDocument(p.nameHash, p.descriptionHash, p.hintsHash, p.schemaHash)
  }

  // -- when there is an identity ----------------------------------------------

  lemma PlainIsPrintable(t: Text)
    requires forall i :: 0 <= i < |t| ==> t[i] < 0xD800
    ensures Scalars(t).Some?
  {
    PlainIsWellFormed(t);
    ScalarsDecide(t);
  }

  lemma {:induction false} HexIsPlain(bytes: seq<Byte>)
    ensures forall i :: 0 <= i < |Hex(bytes)| ==> Hex(bytes)[i] < 0xD800
  {
    if bytes != [] {
      HexIsPlain(bytes[1..]);
    }
  }

  lemma HashTextIsPrintable(digested: seq<Byte>)
    ensures Scalars(HashText(digested)).Some?
  {
    HexIsPlain(digested);
    PlainIsPrintable(HashText(digested));
  }

  /** A plain name with a plain leaf under it. */
  predicate FlatMember(m: Member) {
    && (forall i :: 0 <= i < |m.name| ==> m.name[i] < 0xD800)
    && (m.value.Null? || m.value.Bool? || (m.value.Str? && Scalars(m.value.s).Some?))
  }

  lemma FlatIsAccepted(ms: seq<Member>)
    requires forall i :: 0 <= i < |ms| ==> FlatMember(ms[i])
    ensures CanonicalText(Obj(ms)).Some?
  {
    forall i | 0 <= i < |ms| ensures Scalars(ms[i].name).Some? {
      PlainIsPrintable(ms[i].name);
    }
    assert Printable(Obj(ms)) by {
      assert forall i :: 0 <= i < |ms| ==> FlatMember(ms[i]);
    }
    assert Fits(Obj(ms), 0) by {
      assert forall i :: 0 <= i < |ms| ==> FlatMember(ms[i]);
    }
    EncodeIsExact(Obj(ms), 0);
  }

  lemma HintsAreAccepted(tool: Tool)
    ensures CanonicalText(HintsDocument(tool)).Some?
  {
    var ms := HintsDocument(tool).members;
    assert FlatMember(ms[0]) && FlatMember(ms[1]);
    FlatIsAccepted(ms);
  }

  lemma DocumentIsAccepted(p: Identity)
    requires Scalars(p.nameHash).Some? && Scalars(p.descriptionHash).Some?
    requires Scalars(p.hintsHash).Some? && Scalars(p.schemaHash).Some?
    ensures CanonicalText(DocumentOf(p)).Some?
  {
    var ms := DocumentOf(p).members;
    forall i | 0 <= i < |ms| ensures FlatMember(ms[i]) {
      PlainNames(p, i);
    }
    FlatIsAccepted(ms);
  }

  lemma PlainNames(p: Identity, i: nat)
    requires i < 4
    ensures var m := DocumentOf(p).members[i];
            && (forall k :: 0 <= k < |m.name| ==> m.name[k] < 0xD800)
            && m.value == Str([p.nameHash, p.descriptionHash, p.hintsHash, p.schemaHash][i])
  {
  }

  /** A tool has an identity exactly when its two strings are well formed and its schema has a canonical text. */
  lemma IdentityExists(digest: Digest, tool: Tool)
    ensures IdentityOf(digest, tool).Some? <==>
            WellFormed(tool.name) && WellFormed(tool.description) && SchemaText(Obj(tool.inputSchema)).Some?
  {
    ScalarsDecide(tool.name);
    ScalarsDecide(tool.description);
    EncodeIsExact(Str(tool.name), 0);
    EncodeIsExact(Str(tool.description), 0);
    HintsAreAccepted(tool);
    if WellFormed(tool.name) && WellFormed(tool.description) && SchemaText(Obj(tool.inputSchema)).Some? {
      var name, description := CanonicalBytes(Str(tool.name)).value, CanonicalBytes(Str(tool.description)).value;
      var hints, schema := CanonicalBytes(HintsDocument(tool)).value, CanonicalBytes(Schema(tool)).value;
      HashTextIsPrintable(digest(name));
      HashTextIsPrintable(digest(description));
      HashTextIsPrintable(digest(hints));
      HashTextIsPrintable(digest(schema));
      DocumentIsAccepted(Identity(HashText(digest(name)), HashText(digest(description)),
                                  HashText(digest(hints)), HashText(digest(schema)), []));
    }
  }

  lemma SchemasDecide(a: Tool, b: Tool)
    requires ValidTool(a) && ValidTool(b)
    requires SchemaText(Obj(a.inputSchema)).Some? && SchemaText(Obj(b.inputSchema)).Some?
    ensures var x, y := CanonicalSchema(Obj(a.inputSchema)).value, CanonicalSchema(Obj(b.inputSchema)).value;
            Valid(x) && Valid(y) && (Same(x, y) <==> SameSchema(Obj(a.inputSchema), Obj(b.inputSchema)))
  {
    var x, y := CanonicalSchema(Obj(a.inputSchema)).value, CanonicalSchema(Obj(b.inputSchema)).value;
    CanonicalIsValid(Obj(a.inputSchema), 0);
    CanonicalIsValid(Obj(b.inputSchema), 0);
    SchemaTextDecides(Obj(a.inputSchema), Obj(b.inputSchema));
    TextDecidesSame(x, y);
  }

  /** Each sub-hash moves exactly when its part of the definition does, short of a collision on that part. */
  lemma PartsDecide(digest: Digest, a: Tool, b: Tool)
    requires ValidTool(a) && ValidTool(b) && IdentityOf(digest, a).Some? && IdentityOf(digest, b).Some?
    ensures var p, q := IdentityOf(digest, a).value, IdentityOf(digest, b).value;
            && (p.nameHash == q.nameHash <==> a.name == b.name || Collide(digest, Str(a.name), Str(b.name)))
            && (p.descriptionHash == q.descriptionHash <==>
                a.description == b.description || Collide(digest, Str(a.description), Str(b.description)))
            && (p.hintsHash == q.hintsHash <==>
                (a.readOnlyHint == b.readOnlyHint && a.untrustedContentHint == b.untrustedContentHint) ||
                Collide(digest, HintsDocument(a), HintsDocument(b)))
            && (p.schemaHash == q.schemaHash <==>
                SameSchema(Obj(a.inputSchema), Obj(b.inputSchema)) || Collide(digest, Schema(a), Schema(b)))
  {
    HashDecides(digest, Str(a.name), Str(b.name));
    HashDecides(digest, Str(a.description), Str(b.description));
    HintsDecide(a, b);
    HashDecides(digest, HintsDocument(a), HintsDocument(b));
    SchemasDecide(a, b);
    HashDecides(digest, Schema(a), Schema(b));
  }

  function Schema(tool: Tool): Value {
    CanonicalSchema(Obj(tool.inputSchema)).GetOr(Null)
  }

  /** The digest collides on the documents of one of the five hashes. */
  ghost predicate AnyCollision(digest: Digest, a: Tool, b: Tool)
    requires IdentityOf(digest, a).Some? && IdentityOf(digest, b).Some?
  {
    || Collide(digest, Str(a.name), Str(b.name))
    || Collide(digest, Str(a.description), Str(b.description))
    || Collide(digest, HintsDocument(a), HintsDocument(b))
    || Collide(digest, Schema(a), Schema(b))
    || Collide(digest, DocumentOf(IdentityOf(digest, a).value), DocumentOf(IdentityOf(digest, b).value))
  }

  /** The four sub-hashes agree: each part is the same, or the digest collides on it. */
  ghost predicate PartsAgree(digest: Digest, a: Tool, b: Tool) {
    && (a.name == b.name || Collide(digest, Str(a.name), Str(b.name)))
    && (a.description == b.description || Collide(digest, Str(a.description), Str(b.description)))
    && ((a.readOnlyHint == b.readOnlyHint && a.untrustedContentHint == b.untrustedContentHint)
        || Collide(digest, HintsDocument(a), HintsDocument(b)))
    && (SameSchema(Obj(a.inputSchema), Obj(b.inputSchema)) || Collide(digest, Schema(a), Schema(b)))
  }

  /**
   The composite separates tools exactly: it is equal if and only if every part is the same or collides, or the digest
   collides on the two documents made of the sub-hashes.
   */
  lemma IdentityDecides(digest: Digest, a: Tool, b: Tool)
    requires ValidTool(a) && ValidTool(b) && IdentityOf(digest, a).Some? && IdentityOf(digest, b).Some?
    ensures var p, q := IdentityOf(digest, a).value, IdentityOf(digest, b).value;
            p.identityHash == q.identityHash
            <==> PartsAgree(digest, a, b) || Collide(digest, DocumentOf(p), DocumentOf(q))
    ensures SameTool(a, b) ==> IdentityOf(digest, a) == IdentityOf(digest, b)
    ensures IdentityOf(digest, a).value.identityHash == IdentityOf(digest, b).value.identityHash ==>
              SameTool(a, b) || AnyCollision(digest, a, b)
  {
    var p, q := IdentityOf(digest, a).value, IdentityOf(digest, b).value;
    PartsDecide(digest, a, b);
    DocumentIsValid(p);
    DocumentIsValid(q);
    IdentityDocumentsDecide(p, q);
    HashDecides(digest, DocumentOf(p), DocumentOf(q));
  }
}
