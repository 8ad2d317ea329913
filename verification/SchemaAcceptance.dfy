/** Which schemas identity.ts canonicalises, told from their members and depth alone. */
module SchemaAcceptance {
  import opened CodeUnits
  import opened CanonicalJson
  import opened SchemaIdentity
  import opened SchemaEquivalence

  /** The text spells these characters. */
  predicate Named(t: Text, name: string) {
    |t| == |name| && forall i :: 0 <= i < |t| ==> t[i] == name[i] as int
  }

  lemma NamedIsAscii(t: Text, name: string)
    requires forall i :: 0 <= i < |name| ==> name[i] < '\U{0080}'
    ensures Named(t, name) <==> t == Ascii(name)
  {
  }

  /** The keywords, by name: which arrays are sets, which member is lost, which pointers name the root. */
  lemma KeywordsAreNamed(t: Text)
    ensures UnorderedScalars(t) <==> Named(t, "required") || Named(t, "enum")
    ensures UnorderedSchemas(t) <==> Named(t, "anyOf") || Named(t, "oneOf") || Named(t, "allOf")
    ensures IsLost(t) <==> Named(t, "__proto__")
    ensures NamesRoot(t) <==> Named(t, "#") || Named(t, "#/")
  {
    NamedIsAscii(t, "required");
    NamedIsAscii(t, "enum");
    NamedIsAscii(t, "anyOf");
    NamedIsAscii(t, "oneOf");
    NamedIsAscii(t, "allOf");
    NamedIsAscii(t, "__proto__");
    NamedIsAscii(t, "#");
    NamedIsAscii(t, "#/");
  }

  // -- references to the root -------------------------------------------------

  /** Somewhere in the value a member `$ref` holds a string that names the document root. */
  ghost predicate RefersToRoot(v: Value) {
    match v
    case Arr(items) => exists i :: 0 <= i < |items| && RefersToRoot(items[i])
    case Obj(ms) => exists i :: 0 <= i < |ms| && (IsRootRef(ms[i].name, ms[i].value) || RefersToRoot(ms[i].value))
    case _ => false
  }

  predicate IsRootRef(name: Text, item: Value) {
    Named(name, "$ref") && item.Str? && (Named(item.s, "#") || Named(item.s, "#/"))
  }

  /** The walk over pointers finds exactly that. */
  lemma {:induction false} CyclicIsRootRef(v: Value)
    ensures Cyclic(v) <==> RefersToRoot(v)
  {
    match v {
      case Arr(items) =>
        RefsOfItemsAt(items);
        forall i | 0 <= i < |items| ensures Cyclic(items[i]) <==> RefersToRoot(items[i]) {
          CyclicIsRootRef(items[i]);
        }
        CyclicItems(items);
      case Obj(ms) =>
        RefsOfMembersAt(ms);
        forall i | 0 <= i < |ms|
          ensures CyclicMember(ms[i]) <==> IsRootRef(ms[i].name, ms[i].value) || RefersToRoot(ms[i].value)
        {
          CyclicIsRootRef(ms[i].value);
          CyclicMemberIsRootRef(ms[i]);
        }
        CyclicMembers(ms);
      case _ =>
    }
  }

  predicate CyclicMember(m: Member) {
    exists t :: t in RefsOfMember(m) && NamesRoot(t)
  }

  lemma CyclicItems(items: seq<Value>)
    ensures Cyclic(Arr(items)) <==> exists i :: 0 <= i < |items| && Cyclic(items[i])
  {
    RefsOfItemsAt(items);
    if i :| 0 <= i < |items| && Cyclic(items[i]) {
      var t :| t in Refs(items[i]) && NamesRoot(t);
      assert t in Refs(Arr(items));
    }
    if Cyclic(Arr(items)) {
      var t :| t in Refs(Arr(items)) && NamesRoot(t);
      assert t in RefsOfItems(items);
      var i :| 0 <= i < |items| && t in Refs(items[i]);
      assert Cyclic(items[i]);
    }
  }

  lemma CyclicMembers(ms: seq<Member>)
    ensures Cyclic(Obj(ms)) <==> exists i :: 0 <= i < |ms| && CyclicMember(ms[i])
  {
    RefsOfMembersAt(ms);
    if i :| 0 <= i < |ms| && CyclicMember(ms[i]) {
      var t :| t in RefsOfMember(ms[i]) && NamesRoot(t);
      assert t in Refs(Obj(ms));
    }
    if Cyclic(Obj(ms)) {
      var t :| t in Refs(Obj(ms)) && NamesRoot(t);
      assert t in RefsOfMembers(ms);
      var i :| 0 <= i < |ms| && t in RefsOfMember(ms[i]);
      assert CyclicMember(ms[i]);
    }
  }

  lemma CyclicMemberIsRootRef(m: Member)
    ensures CyclicMember(m) <==> IsRootRef(m.name, m.value) || Cyclic(m.value)
  {
    NamedIsAscii(m.name, "$ref");
    if m.value.Str? {
      KeywordsAreNamed(m.value.s);
    }
  }

  // -- acceptance -------------------------------------------------------------

  /** Every schema in the value stands at most 32 levels deep, and no sort meets a member without canonical text. */
  ghost predicate Acceptable(v: Value, depth: int)
    decreases v, 0
  {
    && depth <= 32
    && match v
       case Arr(items) => forall i :: 0 <= i < |items| ==> Acceptable(items[i], depth + 1)
       case Obj(ms) => forall i :: 0 <= i < |ms| ==> AcceptableMember(ms[i].name, ms[i].value, depth)
       case _ => true
  }

  ghost predicate AcceptableMember(name: Text, item: Value, depth: int)
    decreases item, 1
  {
    if (Named(name, "required") || Named(name, "enum")) && item.Arr? then
      |item.items| < 2 || forall i :: 0 <= i < |item.items| ==> CanonicalText(item.items[i]).Some?
    else if (Named(name, "anyOf") || Named(name, "oneOf") || Named(name, "allOf")) && item.Arr? then
      && (forall i :: 0 <= i < |item.items| ==> Acceptable(item.items[i], depth + 1))
      && (|item.items| < 2 || forall i :: 0 <= i < |item.items| ==> HasText(item.items[i], depth + 1))
    else Acceptable(item, depth + 1)
  }

  /** The canonical form of a schema has a canonical text. */
  ghost predicate HasText(v: Value, depth: int) {
    depth >= 0 && Canonical(v, depth).Some? && CanonicalText(Canonical(v, depth).value).Some?
  }

  lemma {:induction false} CanonicalExists(v: Value, depth: nat)
    requires !RefersToRoot(v)
    ensures Canonical(v, depth).Some? <==> Acceptable(v, depth)
    decreases v, 0
  {
    match v {
      case Arr(items) =>
        forall i | 0 <= i < |items| ensures Canonical(items[i], depth + 1).Some? <==> Acceptable(items[i], depth + 1) {
          CanonicalExists(items[i], depth + 1);
        }
        CanonicalItemsAt(items, depth + 1);
      case Obj(ms) =>
        CyclicIsRootRef(v);
        forall i | 0 <= i < |ms|
          ensures CanonicalMember(ms[i], depth).Some? <==> AcceptableMember(ms[i].name, ms[i].value, depth)
        {
          MemberExists(ms[i].name, ms[i].value, depth);
          assert ms[i] == Member(ms[i].name, ms[i].value);
        }
        CanonicalMembersExist(ms, depth);
      case _ =>
    }
  }

  lemma {:induction false} MemberExists(name: Text, item: Value, depth: nat)
    requires !RefersToRoot(item)
    ensures CanonicalMember(Member(name, item), depth).Some? <==> AcceptableMember(name, item, depth)
    decreases item, 1
  {
    KeywordsAreNamed(name);
    if UnorderedSchemas(name) && item.Arr? {
      forall i | 0 <= i < |item.items|
        ensures Canonical(item.items[i], depth + 1).Some? <==> Acceptable(item.items[i], depth + 1)
      {
        CanonicalExists(item.items[i], depth + 1);
      }
      CanonicalItemsAt(item.items, depth + 1);
    } else if !(UnorderedScalars(name) && item.Arr?) {
      CanonicalExists(item, depth + 1);
    }
  }

  lemma {:induction false} CanonicalMembersExist(ms: seq<Member>, depth: nat)
    ensures CanonicalMembers(ms, depth).Some? <==> forall i :: 0 <= i < |ms| ==> CanonicalMember(ms[i], depth).Some?
  {
    if ms != [] {
      CanonicalMembersExist(ms[1..], depth);
      assert ms == [ms[0]] + ms[1..];
    }
  }

  /** A schema object is canonicalised exactly when it does not refer to its root and is acceptable. */
  lemma SchemaExists(ms: seq<Member>)
    ensures CanonicalSchema(Obj(ms)).Some? <==> !RefersToRoot(Obj(ms)) && Acceptable(Obj(ms), 0)
  {
    CyclicIsRootRef(Obj(ms));
    if !RefersToRoot(Obj(ms)) {
      CanonicalExists(Obj(ms), 0);
    }
  }
}
