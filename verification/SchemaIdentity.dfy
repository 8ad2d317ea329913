/** Schema canonicalisation (identity.ts): what it identifies, and that it identifies nothing else. */
module SchemaIdentity {
  import opened Wrappers
  import opened Ordering
  import opened CodeUnits
  import opened CanonicalJson
  import opened CanonicalReader
  import opened CanonicalUtf8

  /** Nesting a tool's input schema may reach. */
  const MAX_TOOL_SCHEMA_DEPTH := 32

  /** Keywords whose array is a set of values. */
  predicate UnorderedScalars(name: Text) { name == Ascii("required") || name == Ascii("enum") }

  /** Keywords whose array is a set of schemas. */
  predicate UnorderedSchemas(name: Text) { name == Ascii("anyOf") || name == Ascii("oneOf") || name == Ascii("allOf") }

  /** Assigning to a plain object under this name sets its prototype and leaves no member. */
  predicate IsLost(name: Text) { name == Ascii("__proto__") }

  predicate NamesRoot(target: Text) { target == Ascii("#") || target == Ascii("#/") }

  // -- $ref cycles ------------------------------------------------------------

  /** The pointers standing under a `$ref` anywhere in a value. */
  function Refs(v: Value): set<Text> {
    match v
    case Arr(items) => RefsOfItems(items)
    case Obj(ms) => RefsOfMembers(ms)
    case _ => {}
  }

  function RefsOfItems(items: seq<Value>): set<Text> {
    if items == [] then {} else Refs(items[0]) + RefsOfItems(items[1..])
  }

  function RefsOfMember(m: Member): set<Text> {
    if m.name == Ascii("$ref") && m.value.Str? then {m.value.s} else Refs(m.value)
  }

  function RefsOfMembers(ms: seq<Member>): set<Text> {
    if ms == [] then {} else RefsOfMember(ms[0]) + RefsOfMembers(ms[1..])
  }

  /** Some `$ref` in the value names the document root. */
  predicate Cyclic(v: Value) {
    exists t :: t in Refs(v) && NamesRoot(t)
  }

  /** `hasRefCycle`: a walk that gathers the pointers, then a look through them. */
  class RefWalker {
    var targets: set<Text>

    constructor ()
      ensures targets == {}
    {
      targets := {};
    }

    method Walk(value: Value)
      modifies this
      ensures targets == old(targets) + Refs(value)
      decreases value
    {
      match value {
        case Arr(items) =>
          for i := 0 to |items|
            invariant targets + RefsOfItems(items[i..]) == old(targets) + RefsOfItems(items)
          {
            assert items[i..][1..] == items[i + 1..];
            Walk(items[i]);
          }
        case Obj(ms) =>
          for i := 0 to |ms|
            invariant targets + RefsOfMembers(ms[i..]) == old(targets) + RefsOfMembers(ms)
          {
            assert ms[i..][1..] == ms[i + 1..];
            var item := ms[i].value;
            if ms[i].name == Ascii("$ref") && item.Str? {
              targets := targets + {item.s};
            } else {
              Walk(item);
            }
          }
        case _ =>
      }
    }

    method HasRefCycle(schema: Value) returns (cyclic: bool)
      requires targets == {}
      modifies this
      ensures cyclic <==> Cyclic(schema)
    {
      Walk(schema);
      var left := targets;
      while left != {}
        invariant left <= targets
        invariant forall t :: t in targets && NamesRoot(t) ==> t in left
        decreases left
      {
        var target :| target in left;
        if NamesRoot(target) {
          return true;
        }
        left := left - {target};
      }
      return false;
    }
  }

  // -- canonicalisation -------------------------------------------------------

  /** An array in the order of its members' canonical bytes; the comparator refuses a member without any. */
  function SortCanonically(items: seq<Value>): Option<seq<Value>> {
    if |items| >= 2 && exists i :: 0 <= i < |items| && CanonicalBytes(items[i]).None? then None
    else Some(SortBy(KeyOf, items))
  }

  function CanonicalSchema(schema: Value): Option<Value> {
    Canonical(schema, 0)
  }

  /** The canonical form of a schema value met at some depth, or a refusal. */
  function Canonical(v: Value, depth: nat): Option<Value> {
    if depth > MAX_TOOL_SCHEMA_DEPTH then None
    else
      match v
      case Arr(items) =>
        (match CanonicalItems(items, depth + 1)
         case None => None
         case Some(r) => Some(Arr(r)))
      case Obj(ms) =>
        if Cyclic(v) then None
        else
          (match CanonicalMembers(ms, depth)
           case None => None
           case Some(r) => Some(Obj(r)))
      case _ => Some(v)
  }

  function CanonicalItems(items: seq<Value>, depth: nat): Option<seq<Value>> {
    if items == [] then Some([])
    else
      match (Canonical(items[0], depth), CanonicalItems(items[1..], depth))
      case (Some(first), Some(rest)) => Some([first] + rest)
      case _ => None
  }

  /** The canonical form of one member's value, which depends on its name. */
  function CanonicalMember(m: Member, depth: nat): Option<Value> {
    match m
    case Member(name, item) =>
      if UnorderedScalars(name) && item.Arr? then AsArray(SortCanonically(item.items))
      else if UnorderedSchemas(name) && item.Arr? then
        (match CanonicalItems(item.items, depth + 1)
         case None => None
         case Some(r) => AsArray(SortCanonically(r)))
      else Canonical(item, depth + 1)
  }

  function AsArray(items: Option<seq<Value>>): Option<Value> {
    match items
    case None => None
    case Some(r) => Some(Arr(r))
  }

  function CanonicalMembers(ms: seq<Member>, depth: nat): Option<seq<Member>> {
    if ms == [] then Some([])
    else
      match (CanonicalMember(ms[0], depth), CanonicalMembers(ms[1..], depth))
      case (Some(item), Some(rest)) => Some(if IsLost(ms[0].name) then rest else [Member(ms[0].name, item)] + rest)
      case _ => None
  }

  /** `canonicalizeSchemaValue`: the loop that fills a fresh object. */
  method CanonicalizeSchemaValue(value: Value, depth: nat) returns (r: Option<Value>)
    ensures r == Canonical(value, depth)
    decreases value, 1
  {
    if depth > MAX_TOOL_SCHEMA_DEPTH {
      return None;
    }
    match value {
      case Arr(items) =>
        var parts := CanonicalizeAll(value, depth + 1);
        return AsArray(parts);
      case Obj(members) =>
        var walker := new RefWalker();
        var cyclic := walker.HasRefCycle(value);
        if cyclic {
          return None;
        }
        var result: seq<Member> := [];
        assert members[0..] == members;
        AppendedEnds(result, CanonicalMembers(members, depth));
        for i := 0 to |members|
          invariant CanonicalMembers(members, depth) == Appended(result, CanonicalMembers(members[i..], depth))
        {
          var key, item := members[i].name, members[i].value;
          assert members[i..][0] == members[i] && members[i..][1..] == members[i + 1..];
          var canonical: Option<Value>;
          if UnorderedScalars(key) && item.Arr? {
            canonical := AsArray(SortCanonically(item.items));
          } else if UnorderedSchemas(key) && item.Arr? {
            var parts := CanonicalizeAll(item, depth + 1);
            canonical := if parts.None? then None else AsArray(SortCanonically(parts.value));
          } else {
            canonical := CanonicalizeSchemaValue(item, depth + 1);
          }
          assert canonical == CanonicalMember(members[i], depth);
          if canonical.None? {
            return None;
          }
          if !IsLost(key) {
            ghost var rest := CanonicalMembers(members[i + 1..], depth);
            if rest.Some? {
              AppendedNext(result, Member(key, canonical.value), rest.value);
            }
            result := result + [Member(key, canonical.value)];
          }
        }
        AppendedEnds(result, None);
        return Some(Obj(result));
      case _ =>
        return Some(value);
    }
  }

  /** What a loop has gathered, with what the rest of the list will give. */
  function Appended<T>(gathered: seq<T>, rest: Option<seq<T>>): Option<seq<T>> {
    match rest
    case None => None
    case Some(r) => Some(gathered + r)
  }

  lemma AppendedEnds<T>(gathered: seq<T>, rest: Option<seq<T>>)
    ensures Appended([], rest) == rest
    ensures Appended(gathered, Some([])) == Some(gathered)
  {
    assert rest.Some? ==> [] + rest.value == rest.value;
    assert gathered + [] == gathered;
  }

  lemma AppendedNext<T>(gathered: seq<T>, x: T, rest: seq<T>)
    ensures Appended(gathered, Some([x] + rest)) == Appended(gathered + [x], Some(rest))
  {
    assert gathered + ([x] + rest) == (gathered + [x]) + rest;
  }

  /** `map` over an array. */
  method CanonicalizeAll(value: Value, depth: nat) returns (r: Option<seq<Value>>)
    requires value.Arr?
    ensures r == CanonicalItems(value.items, depth)
    decreases value, 0
  {
    var items, parts: seq<Value> := value.items, [];
    assert items[0..] == items;
    AppendedEnds(parts, CanonicalItems(items, depth));
    for i := 0 to |items|
      invariant CanonicalItems(items, depth) == Appended(parts, CanonicalItems(items[i..], depth))
    {
      assert items[i..][0] == items[i] && items[i..][1..] == items[i + 1..];
      var part := CanonicalizeSchemaValue(items[i], depth);
      if part.None? {
        return None;
      }
      ghost var rest := CanonicalItems(items[i + 1..], depth);
      if rest.Some? {
        AppendedNext(parts, part.value, rest.value);
      }
      parts := parts + [part.value];
    }
    AppendedEnds(parts, None);
    return Some(parts);
  }

  // -- what is the same schema ------------------------------------------------

  /** Position by position after a permutation, the values of two arrays are the same. */
  ghost predicate SameSet(a: seq<Value>, b: seq<Value>) {
    |a| == |b| && exists p :: Permutes(p, |a|) && forall i :: 0 <= i < |a| ==> Same(a[i], b[p[i]])
  }

  /**
   Two schemas are the same: equal up to member order, to -0, and to a permutation of the arrays under the unordered
   keywords, whose members are compared as schemas or, under `required` and `enum`, as they stand. What the member
   name that is lost carries does not matter.
   */
  ghost predicate SameSchema(v: Value, w: Value)
    decreases v, 0
  {
    match (v, w)
    case (Arr(a), Arr(b)) => |a| == |b| && forall i :: 0 <= i < |a| ==> SameSchema(a[i], b[i])
    case (Obj(a), Obj(b)) =>
      && (forall n :: !IsLost(n) ==> (n in Names(a) <==> n in Names(b)))
      && (forall i, j :: 0 <= i < |a| && 0 <= j < |b| && a[i].name == b[j].name && !IsLost(a[i].name) ==>
                           SameMember(a[i].name, a[i].value, b[j].value))
    case _ => Same(v, w)
  }

  ghost predicate SameMember(name: Text, v: Value, w: Value)
    decreases v, 1
  {
    if UnorderedScalars(name) && v.Arr? && w.Arr? then SameSet(v.items, w.items)
    else if UnorderedSchemas(name) && v.Arr? && w.Arr? then
      && |v.items| == |w.items|
      && exists p :: Permutes(p, |v.items|) && forall i :: 0 <= i < |v.items| ==> SameSchema(v.items[i], w.items[p[i]])
    else SameSchema(v, w)
  }
}
