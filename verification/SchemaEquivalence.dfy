/** Schema canonicalisation is a complete invariant of schema sameness, and idempotent (identity.ts). */
module SchemaEquivalence {
  import opened Wrappers
  import opened Ordering
  import opened CodeUnits
  import opened CanonicalJson
  import opened CanonicalReader
  import opened CanonicalUtf8
  import opened SchemaIdentity

  // -- the pieces of a canonical form -----------------------------------------

  lemma {:induction false} CanonicalItemsAt(items: seq<Value>, depth: nat)
    ensures CanonicalItems(items, depth).Some? <==> forall i :: 0 <= i < |items| ==> Canonical(items[i], depth).Some?
    ensures CanonicalItems(items, depth).Some? ==>
              && |CanonicalItems(items, depth).value| == |items|
              && forall i :: 0 <= i < |items| ==>
                               Some(CanonicalItems(items, depth).value[i]) == Canonical(items[i], depth)
  {
    if items != [] {
      CanonicalItemsAt(items[1..], depth);
      assert items == [items[0]] + items[1..];
    }
  }

  /** `result` holds the canonical form of every member but those that are lost, and nothing else. */
  ghost predicate Made(ms: seq<Member>, result: seq<Member>, depth: nat) {
    && (forall i :: 0 <= i < |ms| ==> CanonicalMember(ms[i], depth).Some?)
    && (forall i :: 0 <= i < |ms| && !IsLost(ms[i].name) ==> MadeMember(ms[i], depth) in result)
    && (forall k :: 0 <= k < |result| ==> MadeFrom(ms, result[k], depth))
  }

  function MadeMember(m: Member, depth: nat): Member {
    Member(m.name, CanonicalMember(m, depth).GetOr(Null))
  }

  ghost predicate MadeFrom(ms: seq<Member>, r: Member, depth: nat) {
    exists i :: 0 <= i < |ms| && !IsLost(ms[i].name) && r == MadeMember(ms[i], depth)
  }

  lemma MadeFromRest(ms: seq<Member>, r: Member, depth: nat)
    requires ms != [] && MadeFrom(ms[1..], r, depth)
    ensures MadeFrom(ms, r, depth)
    ensures DistinctNames(ms) ==> r.name != ms[0].name
  {
    var i :| 0 <= i < |ms[1..]| && !IsLost(ms[1..][i].name) && r == MadeMember(ms[1..][i], depth);
    assert ms[i + 1] == ms[1..][i];
  }

  /** One more member in front. */
  lemma MadeWithFirst(ms: seq<Member>, rest: seq<Member>, result: seq<Member>, depth: nat)
    requires ms != [] && Made(ms[1..], rest, depth) && CanonicalMember(ms[0], depth).Some?
    requires result == if IsLost(ms[0].name) then rest else [MadeMember(ms[0], depth)] + rest
    ensures Made(ms, result, depth)
  {
    forall k | 0 <= k < |result| ensures MadeFrom(ms, result[k], depth) {
      if result[k] in rest {
        var j :| 0 <= j < |rest| && rest[j] == result[k];
        MadeFromRest(ms, rest[j], depth);
      }
    }
    forall i | 0 <= i < |ms| ensures CanonicalMember(ms[i], depth).Some?
      ensures !IsLost(ms[i].name) ==> MadeMember(ms[i], depth) in result
    {
      assert i > 0 ==> ms[i] == ms[1..][i - 1];
    }
  }

  lemma {:induction false} CanonicalMembersAreMade(ms: seq<Member>, depth: nat)
    requires CanonicalMembers(ms, depth).Some?
    ensures Made(ms, CanonicalMembers(ms, depth).value, depth)
    ensures DistinctNames(ms) ==> DistinctNames(CanonicalMembers(ms, depth).value)
  {
    if ms != [] {
      var rest := CanonicalMembers(ms[1..], depth).value;
      CanonicalMembersAreMade(ms[1..], depth);
      MadeWithFirst(ms, rest, CanonicalMembers(ms, depth).value, depth);
      forall k | 0 <= k < |rest| && DistinctNames(ms) ensures rest[k].name != ms[0].name {
        MadeFromRest(ms, rest[k], depth);
      }
    }
  }

  lemma SortKeepsAll(items: seq<Value>)
    ensures |SortBy(KeyOf, items)| == |items|
    ensures forall x :: x in SortBy(KeyOf, items) <==> x in items
  {
    SortBySorts(KeyOf, items);
    SortByElements(KeyOf, items);
  }

  /**
   The sort of `byCanonicalBytes`: it refuses exactly when it has two members to compare and one of them has no bytes,
   and otherwise rearranges the members so that no canonical bytes stand in front of smaller ones.
   */
  lemma SortIsByCanonicalBytes(items: seq<Value>)
    ensures SortCanonically(items).None?
       <==> |items| >= 2 && exists i :: 0 <= i < |items| && CanonicalBytes(items[i]).None?
    ensures SortCanonically(items).Some? ==>
              && multiset(SortCanonically(items).value) == multiset(items)
              && InByteOrder(SortCanonically(items).value)
  {
    if SortCanonically(items).Some? {
      var sorted := SortCanonically(items).value;
      SortBySorts(KeyOf, items);
      SortKeepsAll(items);
      forall i, j | 0 <= i < j < |sorted| ensures Precedes(sorted[i], sorted[j]) {
        assert sorted[i] in items && sorted[j] in items;
        KeysPrecede(sorted[i], sorted[j]);
      }
    }
  }

  ghost predicate InByteOrder(items: seq<Value>) {
    forall i, j :: 0 <= i < j < |items| ==> Precedes(items[i], items[j])
  }

  /** Both have canonical bytes, and the first's are not greater. */
  predicate Precedes(v: Value, w: Value) {
    && CanonicalBytes(v).Some? && CanonicalBytes(w).Some?
    && !Less(CanonicalBytes(w).value, CanonicalBytes(v).value)
  }

  lemma KeysPrecede(v: Value, w: Value)
    requires CanonicalBytes(v).Some? && CanonicalBytes(w).Some?
    requires !Less(KeyOf(w), KeyOf(v))
    ensures Precedes(v, w)
  {
    KeyIsCanonicalBytes(v);
    KeyIsCanonicalBytes(w);
  }

  lemma SortedIsValid(items: seq<Value>)
    requires Valid(Arr(items))
    ensures Valid(Arr(SortBy(KeyOf, items)))
  {
    var sorted := SortBy(KeyOf, items);
    SortKeepsAll(items);
    forall k | 0 <= k < |sorted| ensures Valid(sorted[k]) {
      assert sorted[k] in items;
    }
  }

  /** Canonicalisation leaves a value. */
  lemma {:induction false} CanonicalIsValid(v: Value, depth: nat)
    requires Valid(v) && Canonical(v, depth).Some?
    ensures Valid(Canonical(v, depth).value)
    decreases v, 1
  {
    match v {
      case Arr(items) => CanonicalItemsAreValid(v, depth + 1);
      case Obj(ms) =>
        var result := CanonicalMembers(ms, depth).value;
        CanonicalMembersAreMade(ms, depth);
        forall k | 0 <= k < |result| ensures Valid(result[k].value) {
          assert MadeFrom(ms, result[k], depth);
          var i :| 0 <= i < |ms| && !IsLost(ms[i].name) && result[k] == MadeMember(ms[i], depth);
          CanonicalMemberIsValid(ms[i].name, ms[i].value, depth);
        }
      case _ =>
    }
  }

  lemma {:induction false} CanonicalMemberIsValid(name: Text, item: Value, depth: nat)
    requires Valid(item) && CanonicalMember(Member(name, item), depth).Some?
    ensures Valid(CanonicalMember(Member(name, item), depth).value)
    decreases item, 2
  {
    if UnorderedScalars(name) && item.Arr? {
      SortedIsValid(item.items);
    } else if UnorderedSchemas(name) && item.Arr? {
      CanonicalItemsAreValid(item, depth + 1);
      SortedIsValid(CanonicalItems(item.items, depth + 1).value);
    } else {
      CanonicalIsValid(item, depth + 1);
    }
  }

  lemma {:induction false} CanonicalItemsAreValid(v: Value, depth: nat)
    requires v.Arr? && Valid(v) && CanonicalItems(v.items, depth).Some?
    ensures Valid(Arr(CanonicalItems(v.items, depth).value))
    decreases v, 0
  {
    CanonicalItemsAt(v.items, depth);
    forall i | 0 <= i < |v.items| ensures Valid(CanonicalItems(v.items, depth).value[i]) {
      CanonicalIsValid(v.items[i], depth);
    }
  }

  // -- arrays taken as sets ---------------------------------------------------

  /** Up to a permutation, the values have the same normal forms. */
  ghost predicate NormsPermute(a: seq<Value>, b: seq<Value>) {
    |a| == |b| && exists p :: Permutes(p, |a|) && forall i :: 0 <= i < |a| ==> Norm(a[i]) == Norm(b[p[i]])
  }

  /** Sorted by their bytes, two arrays of printable values have one normal form exactly when they permute. */
  lemma SortedArraysDecide(a: seq<Value>, b: seq<Value>)
    requires forall x :: x in a || x in b ==> Valid(x) && Printable(x)
    ensures Norm(Arr(SortBy(KeyOf, a))) == Norm(Arr(SortBy(KeyOf, b))) <==> NormsPermute(a, b)
  {
    var x, y := Map(Norm, a), Map(Norm, b);
    NormOfSorted(a);
    NormOfSorted(b);
    BytesSeparate(a, b);
    SortByIsCanonical(BytesOfNorm, x, y);
    ReorderedIsSameCounts(x, y);
    MapPermutes(a, b);
  }

  lemma BytesSeparate(a: seq<Value>, b: seq<Value>)
    requires forall x :: x in a || x in b ==> Valid(x) && Printable(x)
    ensures Separates(BytesOfNorm, Map(Norm, a), Map(Norm, b))
  {
    var x, y := Map(Norm, a), Map(Norm, b);
    forall m, n | m in x && n in y && BytesOfNorm(m) == BytesOfNorm(n) ensures m == n {
      var i :| 0 <= i < |x| && x[i] == m;
      var j :| 0 <= j < |y| && y[j] == n;
      assert a[i] in a && b[j] in b;
      KeyDecides(a[i], b[j]);
    }
  }

  lemma NormOfSorted(a: seq<Value>)
    ensures Norm(Arr(SortBy(KeyOf, a))).items == SortBy(BytesOfNorm, Map(Norm, a))
  {
    forall v ensures BytesOfNorm(Norm(v)) == KeyOf(v) {
    }
    SortByCommutes(Norm, KeyOf, BytesOfNorm, a);
    assert Norm(Arr(SortBy(KeyOf, a))).items == Map(Norm, SortBy(KeyOf, a));
  }

  lemma MapPermutes(a: seq<Value>, b: seq<Value>)
    ensures Reordered(Map(Norm, a), Map(Norm, b)) <==> NormsPermute(a, b)
  {
    if |a| == |b| {
      forall p | Permutes(p, |a|) ensures NormsMatch(a, b, p) <==> MapsMatch(a, b, p) {
      }
    }
  }

  ghost predicate NormsMatch(a: seq<Value>, b: seq<Value>, p: seq<nat>)
    requires |a| == |b| && Permutes(p, |a|)
  {
    forall i :: 0 <= i < |a| ==> Norm(a[i]) == Norm(b[p[i]])
  }

  ghost predicate MapsMatch(a: seq<Value>, b: seq<Value>, p: seq<nat>)
    requires |a| == |b| && Permutes(p, |a|)
  {
    forall i :: 0 <= i < |a| ==> Map(Norm, a)[i] == Map(Norm, b)[p[i]]
  }

  lemma ScalarSetsDecide(a: seq<Value>, b: seq<Value>)
    requires forall x :: x in a || x in b ==> Valid(x)
    ensures NormsPermute(a, b) <==> SameSet(a, b)
  {
    forall i, j | 0 <= i < |a| && 0 <= j < |b| ensures Norm(a[i]) == Norm(b[j]) <==> Same(a[i], b[j]) {
      assert a[i] in a && b[j] in b;
      NormDecidesSame(a[i], b[j]);
    }
    if |a| == |b| {
      forall p | Permutes(p, |a|)
        ensures (forall i :: 0 <= i < |a| ==> Norm(a[i]) == Norm(b[p[i]]))
           <==> (forall i :: 0 <= i < |a| ==> Same(a[i], b[p[i]]))
      {
      }
    }
  }

  // -- objects ----------------------------------------------------------------

  ghost predicate MembersMatch(m: Member, n: Member, d: nat, e: nat) {
    Norm(MadeMember(m, d).value) == Norm(MadeMember(n, e).value) <==> SameMember(m.name, m.value, n.value)
  }

  lemma MadeNames(ms: seq<Member>, result: seq<Member>, depth: nat)
    requires Made(ms, result, depth)
    ensures forall n :: n in Names(result) <==> n in Names(ms) && !IsLost(n)
  {
    forall m | m in result ensures m.name in Names(ms) && !IsLost(m.name) {
      var k :| 0 <= k < |result| && result[k] == m;
      assert MadeFrom(ms, result[k], depth);
    }
    forall m | m in ms && !IsLost(m.name) ensures m.name in Names(result) {
      assert MadeMember(m, depth) in result;
    }
  }

  lemma MadeArePrintable(ms: seq<Member>, result: seq<Member>, depth: nat)
    requires Made(ms, result, depth) && Printable(Obj(result))
    ensures forall i :: 0 <= i < |ms| && !IsLost(ms[i].name) ==> Printable(MadeMember(ms[i], depth).value)
  {
    forall i | 0 <= i < |ms| && !IsLost(ms[i].name) ensures Printable(MadeMember(ms[i], depth).value) {
      assert MadeMember(ms[i], depth) in result;
      var k :| 0 <= k < |result| && result[k] == MadeMember(ms[i], depth);
    }
  }

  /** All members that stand under one name match. */
  ghost predicate AllMatch(a: seq<Member>, b: seq<Member>, d: nat, e: nat) {
    forall i, j :: 0 <= i < |a| && 0 <= j < |b| && a[i].name == b[j].name && !IsLost(a[i].name) ==>
                     MembersMatch(a[i], b[j], d, e)
  }

  lemma MadeAgree(a: seq<Member>, b: seq<Member>, x: seq<Member>, y: seq<Member>, d: nat, e: nat)
    requires Made(a, x, d) && Made(b, y, e) && AllMatch(a, b, d, e)
    requires SameSchema(Obj(a), Obj(b))
    ensures Agree(NormMembers(x), NormMembers(y))
  {
    NormKeepsNames(x);
    NormKeepsNames(y);
    MadeNames(a, x, d);
    MadeNames(b, y, e);
    forall k, l | 0 <= k < |x| && 0 <= l < |y| && x[k].name == y[l].name ensures Norm(x[k].value) == Norm(y[l].value) {
      MadePairAgrees(a, b, x[k], y[l], d, e);
    }
  }

  lemma MadePairAgrees(a: seq<Member>, b: seq<Member>, m: Member, n: Member, d: nat, e: nat)
    requires MadeFrom(a, m, d) && MadeFrom(b, n, e) && m.name == n.name
    requires AllMatch(a, b, d, e) && SameSchema(Obj(a), Obj(b))
    ensures Norm(m.value) == Norm(n.value)
  {
    var i :| 0 <= i < |a| && !IsLost(a[i].name) && m == MadeMember(a[i], d);
    var j :| 0 <= j < |b| && !IsLost(b[j].name) && n == MadeMember(b[j], e);
    assert MembersMatch(a[i], b[j], d, e);
    assert a[i].name == b[j].name;
  }

  lemma AgreeingAreSame(a: seq<Member>, b: seq<Member>, x: seq<Member>, y: seq<Member>, d: nat, e: nat)
    requires Made(a, x, d) && Made(b, y, e) && AllMatch(a, b, d, e)
    requires Agree(NormMembers(x), NormMembers(y))
    ensures SameSchema(Obj(a), Obj(b))
  {
    NormKeepsNames(x);
    NormKeepsNames(y);
    MadeNames(a, x, d);
    MadeNames(b, y, e);
    forall i, j | 0 <= i < |a| && 0 <= j < |b| && a[i].name == b[j].name && !IsLost(a[i].name)
      ensures SameMember(a[i].name, a[i].value, b[j].value)
    {
      assert MadeMember(a[i], d) in x && MadeMember(b[j], e) in y;
      var k :| 0 <= k < |x| && x[k] == MadeMember(a[i], d);
      var l :| 0 <= l < |y| && y[l] == MadeMember(b[j], e);
      assert NormMembers(x)[k].name == NormMembers(y)[l].name;
      assert MembersMatch(a[i], b[j], d, e);
    }
  }

  lemma ObjectsAreDecided(a: seq<Member>, b: seq<Member>, d: nat, e: nat)
    requires CanonicalMembers(a, d).Some? && CanonicalMembers(b, e).Some?
    requires DistinctNames(a) && DistinctNames(b) && AllMatch(a, b, d, e)
    ensures Norm(Obj(CanonicalMembers(a, d).value)) == Norm(Obj(CanonicalMembers(b, e).value))
       <==> SameSchema(Obj(a), Obj(b))
  {
    var x, y := CanonicalMembers(a, d).value, CanonicalMembers(b, e).value;
    CanonicalMembersAreMade(a, d);
    CanonicalMembersAreMade(b, e);
    MembersDecide(NormMembers(x), NormMembers(y));
    if SameSchema(Obj(a), Obj(b)) {
      MadeAgree(a, b, x, y, d, e);
    }
    if Agree(NormMembers(x), NormMembers(y)) {
      AgreeingAreSame(a, b, x, y, d, e);
    }
  }

  // -- the main result --------------------------------------------------------

  /** The normal forms of two canonical forms are equal exactly when the schemas are the same. */
  lemma {:induction false} CanonicalDecides(v: Value, w: Value, d: nat, e: nat)
    requires Valid(v) && Valid(w) && Canonical(v, d).Some? && Canonical(w, e).Some?
    requires Printable(Canonical(v, d).value) && Printable(Canonical(w, e).value)
    ensures Norm(Canonical(v, d).value) == Norm(Canonical(w, e).value) <==> SameSchema(v, w)
    decreases v, 1
  {
    match (v, w) {
      case (Arr(a), Arr(b)) => ArraysDecide(v, w, d + 1, e + 1);
      case (Obj(a), Obj(b)) =>
        CanonicalMembersAreMade(a, d);
        CanonicalMembersAreMade(b, e);
        MadeArePrintable(a, CanonicalMembers(a, d).value, d);
        MadeArePrintable(b, CanonicalMembers(b, e).value, e);
        forall i, j | 0 <= i < |a| && 0 <= j < |b| && a[i].name == b[j].name && !IsLost(a[i].name)
          ensures MembersMatch(a[i], b[j], d, e)
        {
          MemberDecides(a[i].name, a[i].value, b[j].value, d, e);
        }
        ObjectsAreDecided(a, b, d, e);
      case _ => NormDecidesSame(v, w);
    }
  }

  lemma {:induction false} ArraysDecide(v: Value, w: Value, d: nat, e: nat)
    requires v.Arr? && w.Arr? && Valid(v) && Valid(w)
    requires CanonicalItems(v.items, d).Some? && CanonicalItems(w.items, e).Some?
    requires Printable(Arr(CanonicalItems(v.items, d).value)) && Printable(Arr(CanonicalItems(w.items, e).value))
    ensures Norm(Arr(CanonicalItems(v.items, d).value)) == Norm(Arr(CanonicalItems(w.items, e).value))
       <==> SameSchema(v, w)
    decreases v, 0
  {
    var a, b := v.items, w.items;
    CanonicalItemsAt(a, d);
    CanonicalItemsAt(b, e);
    var x, y := Norm(Arr(CanonicalItems(a, d).value)).items, Norm(Arr(CanonicalItems(b, e).value)).items;
    assert |x| == |a| && |y| == |b|;
    if |a| == |b| {
      forall i | 0 <= i < |a| ensures x[i] == y[i] <==> SameSchema(a[i], b[i]) {
        CanonicalDecides(a[i], b[i], d, e);
      }
      if SameSchema(v, w) {
        assert x == y;
      }
    }
  }

  lemma {:induction false} MemberDecides(name: Text, v: Value, w: Value, d: nat, e: nat)
    requires Valid(v) && Valid(w) && Accepted(name, v, d) && Accepted(name, w, e)
    ensures MembersMatch(Member(name, v), Member(name, w), d, e)
    decreases v, 3
  {
    if UnorderedScalars(name) && v.Arr? && w.Arr? {
      ScalarMembersDecide(name, v, w, d, e);
    } else if UnorderedSchemas(name) && v.Arr? && w.Arr? {
      SchemaMembersDecide(name, v, w, d, e);
    } else if v.Arr? <==> w.Arr? {
      PlainMembersDecide(name, v, w, d, e);
    } else {
      MixedMembersDecide(name, v, w, d, e);
    }
  }

  ghost predicate Accepted(name: Text, item: Value, depth: nat) {
    var canonical := CanonicalMember(Member(name, item), depth);
    canonical.Some? && Printable(canonical.value)
  }

  lemma ScalarMembersDecide(name: Text, v: Value, w: Value, d: nat, e: nat)
    requires Valid(v) && Valid(w) && Accepted(name, v, d) && Accepted(name, w, e)
    requires UnorderedScalars(name) && v.Arr? && w.Arr?
    ensures MembersMatch(Member(name, v), Member(name, w), d, e)
  {
    SortedSetsDecide(v.items, w.items);
  }

  lemma {:induction false} SchemaMembersDecide(name: Text, v: Value, w: Value, d: nat, e: nat)
    requires Valid(v) && Valid(w) && Accepted(name, v, d) && Accepted(name, w, e)
    requires !UnorderedScalars(name) && UnorderedSchemas(name) && v.Arr? && w.Arr?
    ensures MembersMatch(Member(name, v), Member(name, w), d, e)
    decreases v, 2
  {
    SchemaSetsDecide(v, w, d + 1, e + 1);
  }

  lemma {:induction false} PlainMembersDecide(name: Text, v: Value, w: Value, d: nat, e: nat)
    requires Valid(v) && Valid(w) && Accepted(name, v, d) && Accepted(name, w, e)
    requires v.Arr? <==> w.Arr?
    requires v.Arr? ==> !UnorderedScalars(name) && !UnorderedSchemas(name)
    ensures MembersMatch(Member(name, v), Member(name, w), d, e)
    decreases v, 2
  {
    CanonicalDecides(v, w, d + 1, e + 1);
  }

  /** Only an array becomes an array. */
  lemma MixedMembersDecide(name: Text, v: Value, w: Value, d: nat, e: nat)
    requires Accepted(name, v, d) && Accepted(name, w, e) && v.Arr? != w.Arr?
    ensures MembersMatch(Member(name, v), Member(name, w), d, e)
  {
    ArraysStayArrays(name, v, d);
    ArraysStayArrays(name, w, e);
  }

  lemma ArraysStayArrays(name: Text, item: Value, depth: nat)
    requires CanonicalMember(Member(name, item), depth).Some?
    ensures CanonicalMember(Member(name, item), depth).value.Arr? <==> item.Arr?
  {
  }

  lemma SortedSetsDecide(a: seq<Value>, b: seq<Value>)
    requires Valid(Arr(a)) && Valid(Arr(b))
    requires Printable(Arr(SortBy(KeyOf, a))) && Printable(Arr(SortBy(KeyOf, b)))
    ensures Norm(Arr(SortBy(KeyOf, a))) == Norm(Arr(SortBy(KeyOf, b))) <==> SameSet(a, b)
  {
    SortedArePrintable(a);
    SortedArePrintable(b);
    SortedArraysDecide(a, b);
    ScalarSetsDecide(a, b);
  }

  lemma SortedArePrintable(items: seq<Value>)
    requires Printable(Arr(SortBy(KeyOf, items)))
    ensures forall x :: x in items ==> Printable(x)
  {
    SortKeepsAll(items);
  }

  lemma {:induction false} SchemaSetsDecide(v: Value, w: Value, d: nat, e: nat)
    requires v.Arr? && w.Arr? && Valid(v) && Valid(w)
    requires CanonicalItems(v.items, d).Some? && CanonicalItems(w.items, e).Some?
    requires Printable(Arr(SortBy(KeyOf, CanonicalItems(v.items, d).value)))
    requires Printable(Arr(SortBy(KeyOf, CanonicalItems(w.items, e).value)))
    ensures Norm(Arr(SortBy(KeyOf, CanonicalItems(v.items, d).value)))
         == Norm(Arr(SortBy(KeyOf, CanonicalItems(w.items, e).value)))
       <==> SameSchemaSet(v.items, w.items)
    decreases v, 0
  {
    var a, b := v.items, w.items;
    var x, y := CanonicalItems(a, d).value, CanonicalItems(b, e).value;
    CanonicalItemsAt(a, d);
    CanonicalItemsAt(b, e);
    CanonicalItemsAreValid(v, d);
    CanonicalItemsAreValid(w, e);
    SortedArePrintable(x);
    SortedArePrintable(y);
    SortedArraysDecide(x, y);
    forall i, j | 0 <= i < |a| && 0 <= j < |b| ensures Norm(x[i]) == Norm(y[j]) <==> SameSchema(a[i], b[j]) {
      assert x[i] in x && y[j] in y;
      CanonicalDecides(a[i], b[j], d, e);
    }
    MatchedSets(a, b, x, y);
  }

  lemma MatchedSets(a: seq<Value>, b: seq<Value>, x: seq<Value>, y: seq<Value>)
    requires |a| == |x| && |b| == |y|
    requires forall i, j :: 0 <= i < |a| && 0 <= j < |b| ==> (Norm(x[i]) == Norm(y[j]) <==> SameSchema(a[i], b[j]))
    ensures NormsPermute(x, y) <==> SameSchemaSet(a, b)
  {
    if |a| == |b| {
      forall p | Permutes(p, |a|)
        ensures (forall i :: 0 <= i < |a| ==> Norm(x[i]) == Norm(y[p[i]]))
           <==> (forall i :: 0 <= i < |a| ==> SameSchema(a[i], b[p[i]]))
      {
      }
    }
  }

  ghost predicate SameSchemaSet(a: seq<Value>, b: seq<Value>) {
    |a| == |b| && exists p :: Permutes(p, |a|) && forall i :: 0 <= i < |a| ==> SameSchema(a[i], b[p[i]])
  }

  /** The canonical text of a schema, or a refusal. */
  function SchemaText(schema: Value): Option<Text> {
    match CanonicalSchema(schema)
    case None => None
    case Some(c) => CanonicalText(c)
  }

  /** Completeness: two accepted schemas have one canonical text exactly when they are the same schema. */
  lemma SchemaTextDecides(v: Value, w: Value)
    requires Valid(v) && Valid(w) && SchemaText(v).Some? && SchemaText(w).Some?
    ensures SchemaText(v) == SchemaText(w) <==> SameSchema(v, w)
  {
    var c, k := CanonicalSchema(v).value, CanonicalSchema(w).value;
    CanonicalIsValid(v, 0);
    CanonicalIsValid(w, 0);
    EncodeIsExact(c, 0);
    EncodeIsExact(k, 0);
    TextDecidesSame(c, k);
    NormDecidesSame(c, k);
    CanonicalDecides(v, w, 0, 0);
  }

  // -- idempotence ------------------------------------------------------------

  lemma {:induction false} RefsOfItemsAt(items: seq<Value>)
    ensures forall t :: t in RefsOfItems(items) <==> exists i :: 0 <= i < |items| && t in Refs(items[i])
  {
    if items != [] {
      RefsOfItemsAt(items[1..]);
      assert items == [items[0]] + items[1..];
    }
  }

  lemma {:induction false} RefsOfMembersAt(ms: seq<Member>)
    ensures forall t :: t in RefsOfMembers(ms) <==> exists i :: 0 <= i < |ms| && t in RefsOfMember(ms[i])
  {
    if ms != [] {
      RefsOfMembersAt(ms[1..]);
      assert ms == [ms[0]] + ms[1..];
    }
  }

  lemma RefsOfSorted(items: seq<Value>)
    ensures Refs(Arr(SortBy(KeyOf, items))) <= Refs(Arr(items))
  {
    var sorted := SortBy(KeyOf, items);
    SortKeepsAll(items);
    RefsOfItemsAt(items);
    RefsOfItemsAt(sorted);
    forall t | t in RefsOfItems(sorted) ensures t in RefsOfItems(items) {
      var k :| 0 <= k < |sorted| && t in Refs(sorted[k]);
      assert sorted[k] in items;
    }
  }

  /** Canonicalising brings in no pointer. */
  lemma {:induction false} RefsShrink(v: Value, depth: nat)
    requires Canonical(v, depth).Some?
    ensures Refs(Canonical(v, depth).value) <= Refs(v)
    decreases v, 1
  {
    match v {
      case Arr(items) => RefsOfItemsShrink(v, depth + 1);
      case Obj(ms) =>
        var result := CanonicalMembers(ms, depth).value;
        CanonicalMembersAreMade(ms, depth);
        RefsOfMembersAt(ms);
        RefsOfMembersAt(result);
        forall t | t in RefsOfMembers(result) ensures t in RefsOfMembers(ms) {
          var k :| 0 <= k < |result| && t in RefsOfMember(result[k]);
          assert MadeFrom(ms, result[k], depth);
          var i :| 0 <= i < |ms| && !IsLost(ms[i].name) && result[k] == MadeMember(ms[i], depth);
          RefsOfMemberShrink(ms[i].name, ms[i].value, depth);
          assert t in RefsOfMember(Member(ms[i].name, ms[i].value));
        }
      case _ =>
    }
  }

  lemma {:induction false} RefsOfItemsShrink(v: Value, depth: nat)
    requires v.Arr? && CanonicalItems(v.items, depth).Some?
    ensures RefsOfItems(CanonicalItems(v.items, depth).value) <= RefsOfItems(v.items)
    decreases v, 0
  {
    var items, result := v.items, CanonicalItems(v.items, depth).value;
    CanonicalItemsAt(items, depth);
    RefsOfItemsAt(items);
    RefsOfItemsAt(result);
    forall i | 0 <= i < |items| ensures Refs(result[i]) <= Refs(items[i]) {
      RefsShrink(items[i], depth);
    }
  }

  lemma {:induction false} RefsOfMemberShrink(name: Text, item: Value, depth: nat)
    requires CanonicalMember(Member(name, item), depth).Some?
    ensures RefsOfMember(MadeMember(Member(name, item), depth)) <= RefsOfMember(Member(name, item))
    decreases item, 2
  {
    if UnorderedScalars(name) && item.Arr? {
      RefsOfSorted(item.items);
    } else if UnorderedSchemas(name) && item.Arr? {
      RefsOfItemsShrink(item, depth + 1);
      RefsOfSorted(CanonicalItems(item.items, depth + 1).value);
    } else {
      RefsShrink(item, depth + 1);
    }
  }

  lemma {:induction false} ItemsAreFixed(items: seq<Value>, depth: nat)
    requires forall i :: 0 <= i < |items| ==> Canonical(items[i], depth) == Some(items[i])
    ensures CanonicalItems(items, depth) == Some(items)
  {
    if items != [] {
      ItemsAreFixed(items[1..], depth);
      assert items == [items[0]] + items[1..];
    }
  }

  lemma {:induction false} MembersAreFixed(ms: seq<Member>, depth: nat)
    requires forall i :: 0 <= i < |ms| ==> !IsLost(ms[i].name) && CanonicalMember(ms[i], depth) == Some(ms[i].value)
    ensures CanonicalMembers(ms, depth) == Some(ms)
  {
    if ms != [] {
      MembersAreFixed(ms[1..], depth);
      assert ms == [ms[0]] + ms[1..];
    }
  }

  /** What has been sorted once sorts to itself, and the comparator accepts it again. */
  lemma SortIsFixed(items: seq<Value>)
    requires SortCanonically(items).Some?
    ensures SortCanonically(SortCanonically(items).value) == SortCanonically(items)
  {
    var sorted := SortBy(KeyOf, items);
    SortBySorts(KeyOf, items);
    SortKeepsAll(items);
    SortedIsFixed(KeyOf, sorted);
    forall k | 0 <= k < |sorted| && |items| >= 2 ensures CanonicalBytes(sorted[k]).Some? {
      assert sorted[k] in items;
    }
  }

  /** Idempotence: a canonical form is its own canonical form, member for member and in the same order. */
  lemma {:induction false} CanonicalIsFixed(v: Value, depth: nat)
    requires Canonical(v, depth).Some?
    ensures Canonical(Canonical(v, depth).value, depth) == Canonical(v, depth)
    decreases v, 1
  {
    match v {
      case Arr(items) => CanonicalItemsAreFixed(v, depth + 1);
      case Obj(ms) =>
        var result := CanonicalMembers(ms, depth).value;
        RefsShrink(v, depth);
        CanonicalMembersAreMade(ms, depth);
        forall k | 0 <= k < |result|
          ensures !IsLost(result[k].name) && CanonicalMember(result[k], depth) == Some(result[k].value)
        {
          assert MadeFrom(ms, result[k], depth);
          var i :| 0 <= i < |ms| && !IsLost(ms[i].name) && result[k] == MadeMember(ms[i], depth);
          CanonicalMemberIsFixed(ms[i].name, ms[i].value, depth);
          assert CanonicalMember(ms[i], depth).Some?;
          assert ms[i] == Member(ms[i].name, ms[i].value);
        }
        MembersAreFixed(result, depth);
      case _ =>
    }
  }

  lemma {:induction false} CanonicalItemsAreFixed(v: Value, depth: nat)
    requires v.Arr? && CanonicalItems(v.items, depth).Some?
    ensures forall x :: x in CanonicalItems(v.items, depth).value ==> Canonical(x, depth) == Some(x)
    ensures CanonicalItems(CanonicalItems(v.items, depth).value, depth) == CanonicalItems(v.items, depth)
    decreases v, 0
  {
    var items, result := v.items, CanonicalItems(v.items, depth).value;
    CanonicalItemsAt(items, depth);
    forall i | 0 <= i < |items| ensures Canonical(result[i], depth) == Some(result[i]) {
      CanonicalIsFixed(items[i], depth);
    }
    ItemsAreFixed(result, depth);
  }

  lemma {:induction false} CanonicalMemberIsFixed(name: Text, item: Value, depth: nat)
    requires CanonicalMember(Member(name, item), depth).Some?
    ensures CanonicalMember(MadeMember(Member(name, item), depth), depth) == CanonicalMember(Member(name, item), depth)
    decreases item, 2
  {
    if UnorderedScalars(name) && item.Arr? {
      SortIsFixed(item.items);
    } else if UnorderedSchemas(name) && item.Arr? {
      CanonicalItemsAreFixed(item, depth + 1);
      SortedSchemasAreFixed(CanonicalItems(item.items, depth + 1).value, depth + 1);
    } else {
      CanonicalIsFixed(item, depth + 1);
    }
  }

  lemma SortedSchemasAreFixed(items: seq<Value>, depth: nat)
    requires forall x :: x in items ==> Canonical(x, depth) == Some(x)
    requires SortCanonically(items).Some?
    ensures CanonicalItems(SortCanonically(items).value, depth) == SortCanonically(items)
    ensures SortCanonically(SortCanonically(items).value) == SortCanonically(items)
  {
    SortKeepsAll(items);
    ItemsAreFixed(SortCanonically(items).value, depth);
    SortIsFixed(items);
  }

  /** A canonical form is the schema it was made from. */
  lemma CanonicalIsSameSchema(v: Value, depth: nat)
    requires Valid(v) && Canonical(v, depth).Some? && Printable(Canonical(v, depth).value)
    ensures SameSchema(v, Canonical(v, depth).value)
  {
    CanonicalIsValid(v, depth);
    CanonicalIsFixed(v, depth);
    CanonicalDecides(v, Canonical(v, depth).value, depth, depth);
  }

  // -- the member name that is lost -------------------------------------------

  /** The canonical form forgets what stands under `__proto__`: these two objects differ, and have one text. */
  lemma ProtoIsForgotten()
    ensures var schema := Obj([Member(Ascii("__proto__"), Null)]);
            && !Same(schema, Obj([]))
            && CanonicalSchema(schema) == CanonicalSchema(Obj([])) == Some(Obj([]))
  {
    var m := Member(Ascii("__proto__"), Null);
    assert m in [m] && m.name in Names([m]);
    assert m.name !in Names([]);
    RefsOfMembersAt([m]);
    RefsOfMembersAt([]);
    assert Refs(Null) == {};
    assert CanonicalMember(m, 0) == Some(Null);
    assert CanonicalMembers([], 0) == Some([]);
    assert [m][1..] == [];
  }
}
