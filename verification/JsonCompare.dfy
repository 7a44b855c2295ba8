/** cJSON_Compare against the meaning of JSON values: objects as maps, arrays as sequences. */
module JsonCompare {
  import opened Bytes
  import opened JsonTree
  import opened Wrappers

  // ---- What is compared

  const TWO_52 := 0x10_0000_0000_0000

  function Abs(n: int): nat {
    if n < 0 then -n else n
  }

  function Larger(a: nat, b: nat): nat {
    if a > b then a else b
  }

  /** compare_double on integers: the difference is at most the larger magnitude times 2^-52. */
  predicate Near(a: int, b: int) {
    Abs(a - b) * TWO_52 <= Larger(Abs(a), Abs(b))
  }

  function Lower(c: byte): byte {
    if 0x41 <= c <= 0x5A then c + 0x20 else c
  }

  /** strcmp or case_insensitive_strcmp finds no difference. */
  predicate SameName(a: Text, b: Text, case_sensitive: bool) {
    if case_sensitive then a == b
    else |a| == |b| && forall i :: 0 <= i < |a| ==> Lower(a[i]) == Lower(b[i])
  }

  /** get_object_item: the first member of that name */
  function Find(m: seq<Member>, name: Text, case_sensitive: bool): (r: Option<Json>)
    ensures r.Some? ==> Weight(r.value) < 1 + WeightOfMembers(m)
  {
    if m == [] then None
    else if SameName(name, m[0].key, case_sensitive) then Some(m[0].value)
    else Find(m[1..], name, case_sensitive)
  }

  /** How many values there are in a tree. */
  function Weight(j: Json): nat
    decreases j, 0
  {
    match j
    case Array(items) => 1 + WeightOfItems(items)
    case Object(members) => 1 + WeightOfMembers(members)
    case _ => 1
  }

  function WeightOfItems(items: seq<Json>): nat
    decreases items, 1
  {
    if items == [] then 0 else Weight(items[0]) + WeightOfItems(items[1..])
  }

  function WeightOfMembers(m: seq<Member>): nat
    decreases m, 1
  {
    if m == [] then 0 else Weight(m[0].value) + WeightOfMembers(m[1..])
  }

  /** What cJSON_Compare answers for two different nodes. */
  predicate Same(a: Json, b: Json, cs: bool)
    decreases Weight(a) + Weight(b), 0
  {
    match (a, b)
    case (Null, Null) => true
    case (False, False) => true
    case (True, True) => true
    case (Number(m), Number(n)) => Near(m, n)
    case (String(s), String(t)) => s == t
    case (Array(s), Array(t)) => SameItems(s, t, cs)
    case (Object(m), Object(n)) => Covered(m, n, cs) && Covered(n, m, cs)
    case _ => false
  }

  predicate SameItems(s: seq<Json>, t: seq<Json>, cs: bool)
    decreases WeightOfItems(s) + WeightOfItems(t), 1
  {
    if s == [] || t == [] then s == t
    else Same(s[0], t[0], cs) && SameItems(s[1..], t[1..], cs)
  }

  /** Every member of m is found in n, with the same value. */
  predicate Covered(m: seq<Member>, n: seq<Member>, cs: bool)
    decreases WeightOfMembers(m) + WeightOfMembers(n) + 1, 1
  {
    m == [] ||
      var r := Find(n, m[0].key, cs);
      r.Some? && Same(m[0].value, r.value, cs) && Covered(m[1..], n, cs)
  }

  // ---- The comparison as it runs

  method Compare(a: Json, b: Json, case_sensitive: bool) returns (r: bool)
    ensures r == Same(a, b, case_sensitive)
    decreases Weight(a) + Weight(b), 1
  {
    match (a, b)
    case (Null, Null) => r := true;
    case (False, False) => r := true;
    case (True, True) => r := true;
    case (Number(m), Number(n)) => r := Near(m, n);
    case (String(s), String(t)) => r := s == t;
    case (Array(s), Array(t)) => r := CompareItems(s, t, case_sensitive);
    case (Object(m), Object(n)) =>
      r := CompareMembers(m, n, case_sensitive);
      if r {
        r := CompareMembers(n, m, case_sensitive);
      }
    case _ => r := false;
  }

  method CompareItems(s: seq<Json>, t: seq<Json>, case_sensitive: bool) returns (r: bool)
    ensures r == SameItems(s, t, case_sensitive)
    decreases WeightOfItems(s) + WeightOfItems(t), 2
  {
    var i := 0;
    while i < |s| && i < |t|
      invariant i <= |s| && i <= |t|
      invariant SameItems(s, t, case_sensitive) == SameItems(s[i..], t[i..], case_sensitive)
      invariant WeightOfItems(s[i..]) <= WeightOfItems(s) && WeightOfItems(t[i..]) <= WeightOfItems(t)
    {
      assert s[i..][0] == s[i] && s[i..][1..] == s[i + 1..];
      assert t[i..][0] == t[i] && t[i..][1..] == t[i + 1..];
      var same := Compare(s[i], t[i], case_sensitive);
      if !same {
        return false;
      }
      i := i + 1;
    }
    r := |s| == |t|;
  }

  method CompareMembers(m: seq<Member>, n: seq<Member>, case_sensitive: bool) returns (r: bool)
    ensures r == Covered(m, n, case_sensitive)
    decreases WeightOfMembers(m) + WeightOfMembers(n) + 1, 2
  {
    var i := 0;
    while i < |m|
      invariant i <= |m|
      invariant Covered(m, n, case_sensitive) == Covered(m[i..], n, case_sensitive)
      invariant WeightOfMembers(m[i..]) <= WeightOfMembers(m)
    {
      assert m[i..][0] == m[i] && m[i..][1..] == m[i + 1..];
      var found := Find(n, m[i].key, case_sensitive);
      if found.None? {
        return false;
      }
      var same := Compare(m[i].value, found.value, case_sensitive);
      if !same {
        return false;
      }
      i := i + 1;
    }
    r := true;
  }

  // ---- What JSON values mean

  datatype Meaning =
    | MNull | MFalse | MTrue
    | MNumber(n: int)
    | MString(s: Text)
    | MArray(items: seq<Meaning>)
    | MObject(members: map<Text, Meaning>)

  /** What counts of a name. */
  function Folded(name: Text, case_sensitive: bool): Text {
    if case_sensitive then name else seq(|name|, i requires 0 <= i < |name| => Lower(name[i]))
  }

  lemma SameNameIsFolded(a: Text, b: Text, case_sensitive: bool)
    ensures SameName(a, b, case_sensitive) <==> Folded(a, case_sensitive) == Folded(b, case_sensitive)
  {
    if !case_sensitive && Folded(a, false) == Folded(b, false) {
      forall i | 0 <= i < |a| ensures Lower(a[i]) == Lower(b[i]) {
        assert Folded(a, false)[i] == Folded(b, false)[i];
      }
    }
  }

  /** The same byte, or the same letter in its two cases, which are 32 apart. */
  ghost predicate SameLetter(a: byte, b: byte) {
    || a == b
    || (0x41 <= a <= 0x5A && b as int == a as int + 32)
    || (0x41 <= b <= 0x5A && a as int == b as int + 32)
  }

  /** Two names count as one without regard to case if and only if they are the same letter by letter. */
  lemma SameNameExactlyWhen(a: Text, b: Text)
    ensures SameName(a, b, false) <==> |a| == |b| && forall i :: 0 <= i < |a| ==> SameLetter(a[i], b[i])
  {
    forall i | 0 <= i < |a| && i < |b| ensures Lower(a[i]) == Lower(b[i]) <==> SameLetter(a[i], b[i]) {
      assert 0x41 <= a[i] <= 0x5A || Lower(a[i]) == a[i];
    }
  }

  /** Objects are maps from their keys, or from their keys in lower case. */
  ghost function Means(j: Json, cs: bool): Meaning
    decreases j, 0
  {
    match j
    case Null => MNull
    case False => MFalse
    case True => MTrue
    case Number(n) => MNumber(n)
    case String(s) => MString(s)
    case Array(items) => MArray(ItemsMean(items, cs))
    case Object(members) => MObject(MembersMean(members, cs))
  }

  ghost function ItemsMean(items: seq<Json>, cs: bool): seq<Meaning>
    decreases items, 1
  {
    if items == [] then [] else [Means(items[0], cs)] + ItemsMean(items[1..], cs)
  }

  ghost function MembersMean(m: seq<Member>, cs: bool): map<Text, Meaning>
    decreases m, 1
  {
    if m == [] then map[] else MembersMean(m[1..], cs)[Folded(m[0].key, cs) := Means(m[0].value, cs)]
  }

  /** Sibling keys are told apart, and no number is so large that a neighbour counts as near. */
  ghost predicate Comparable(j: Json, cs: bool)
    decreases j, 0
  {
    match j
    case Number(n) => Abs(n) < TWO_52
    case Array(items) => ComparableItems(items, cs)
    case Object(members) => ComparableMembers(members, cs)
    case _ => true
  }

  ghost predicate ComparableItems(items: seq<Json>, cs: bool)
    decreases items, 1
  {
    items == [] || (Comparable(items[0], cs) && ComparableItems(items[1..], cs))
  }

  ghost predicate ComparableMembers(m: seq<Member>, cs: bool)
    decreases m, 1
  {
    m == []
    || (Find(m[1..], m[0].key, cs).None? && Comparable(m[0].value, cs) && ComparableMembers(m[1..], cs))
  }

  lemma {:induction false} FindMeans(m: seq<Member>, name: Text, cs: bool, r: Option<Json>)
    requires r == Find(m, name, cs)
    ensures r.None? <==> Folded(name, cs) !in MembersMean(m, cs)
    ensures r.Some? ==> MembersMean(m, cs)[Folded(name, cs)] == Means(r.value, cs)
    ensures r.Some? && ComparableMembers(m, cs) ==> Comparable(r.value, cs)
  {
    if m != [] {
      SameNameIsFolded(name, m[0].key, cs);
      if !SameName(name, m[0].key, cs) {
        FindMeans(m[1..], name, cs, r);
      }
    }
  }

  /** Comparison is equality of meaning: member order does not matter, everything else does. */
  lemma {:induction false} SameIsEqual(a: Json, b: Json, cs: bool)
    requires Comparable(a, cs) && Comparable(b, cs)
    ensures Same(a, b, cs) <==> Means(a, cs) == Means(b, cs)
    decreases Weight(a) + Weight(b), 0
  {
    match (a, b)
    case (Array(s), Array(t)) => SameItemsAreEqual(s, t, cs);
    case (Object(m), Object(n)) =>
      CoveredIsPart(m, n, cs);
      CoveredIsPart(n, m, cs);
    case _ =>
  }

  lemma {:induction false} SameItemsAreEqual(s: seq<Json>, t: seq<Json>, cs: bool)
    requires ComparableItems(s, cs) && ComparableItems(t, cs)
    ensures SameItems(s, t, cs) <==> ItemsMean(s, cs) == ItemsMean(t, cs)
    decreases WeightOfItems(s) + WeightOfItems(t), 1
  {
    if s != [] && t != [] {
      SameIsEqual(s[0], t[0], cs);
      SameItemsAreEqual(s[1..], t[1..], cs);
      FirstAndRest(Means(s[0], cs), ItemsMean(s[1..], cs), Means(t[0], cs), ItemsMean(t[1..], cs));
    }
  }

  lemma FirstAndRest(x: Meaning, s: seq<Meaning>, y: Meaning, t: seq<Meaning>)
    ensures [x] + s == [y] + t <==> x == y && s == t
  {
    assert ([x] + s)[0] == x && ([x] + s)[1..] == s;
    assert ([y] + t)[0] == y && ([y] + t)[1..] == t;
  }

  ghost predicate PartOf(m: map<Text, Meaning>, n: map<Text, Meaning>) {
    forall k <- m :: k in n && m[k] == n[k]
  }

  lemma {:induction false} CoveredIsPart(m: seq<Member>, n: seq<Member>, cs: bool)
    requires ComparableMembers(m, cs) && ComparableMembers(n, cs)
    ensures Covered(m, n, cs) <==> PartOf(MembersMean(m, cs), MembersMean(n, cs))
    decreases WeightOfMembers(m) + WeightOfMembers(n) + 1, 1
  {
    if m != [] {
      var r := Find(n, m[0].key, cs);
      FindMeans(n, m[0].key, cs, r);
      if r.Some? {
        SameIsEqual(m[0].value, r.value, cs);
      }
      assert Weight(m[0].value) >= 1;
      CoveredIsPart(m[1..], n, cs);
      FindMeans(m[1..], m[0].key, cs, None);
      OneMore(MembersMean(m[1..], cs), Folded(m[0].key, cs), Means(m[0].value, cs), MembersMean(n, cs));
    }
  }

  lemma OneMore(m: map<Text, Meaning>, k: Text, v: Meaning, n: map<Text, Meaning>)
    requires k !in m
    ensures PartOf(m[k := v], n) <==> k in n && n[k] == v && PartOf(m, n)
  {
    if PartOf(m[k := v], n) {
      assert k in m[k := v];
      forall x <- m ensures x in n && m[x] == n[x] {
        assert x in m[k := v];
      }
    }
  }

  // ---- Comparison on all trees, repeated keys and large numbers included

  /** Arrays are the same if they have the same number of elements, and those are the same one by one. */
  lemma {:induction false} SameArraysExactlyWhen(s: seq<Json>, t: seq<Json>, cs: bool)
    ensures SameItems(s, t, cs) <==> |s| == |t| && forall i :: 0 <= i < |s| && i < |t| ==> Same(s[i], t[i], cs)
  {
    if s != [] && t != [] {
      SameArraysExactlyWhen(s[1..], t[1..], cs);
      assert forall i :: 0 <= i < |s| - 1 ==> s[1..][i] == s[i + 1];
      assert forall i :: 0 <= i < |t| - 1 ==> t[1..][i] == t[i + 1];
      assert forall i :: 0 < i < |s| && i < |t| ==> s[i] == s[1..][i - 1] && t[i] == t[1..][i - 1];
    }
  }

  /** The first member of that name stands at j. */
  ghost predicate FirstAt(m: seq<Member>, name: Text, cs: bool, j: nat) {
    j < |m| && SameName(name, m[j].key, cs) && forall i :: 0 <= i < j ==> !SameName(name, m[i].key, cs)
  }

  lemma {:induction false} FindsFirst(m: seq<Member>, name: Text, cs: bool, r: Option<Json>)
    requires r == Find(m, name, cs)
    ensures r.None? <==> forall i :: 0 <= i < |m| ==> !SameName(name, m[i].key, cs)
    ensures forall j: nat :: FirstAt(m, name, cs, j) ==> r == Some(m[j].value)
    ensures r.Some? ==> exists j: nat :: FirstAt(m, name, cs, j)
  {
    if m != [] {
      var rest := m[1..];
      assert forall i :: 0 <= i < |rest| ==> rest[i] == m[i + 1];
      if SameName(name, m[0].key, cs) {
        assert FirstAt(m, name, cs, 0);
      } else {
        FindsFirst(rest, name, cs, r);
        assert forall i :: 0 < i < |m| ==> m[i] == rest[i - 1];
        forall j: nat | FirstAt(m, name, cs, j) ensures r == Some(m[j].value) {
          assert FirstAt(rest, name, cs, j - 1);
        }
        if r.Some? {
          var j: nat :| FirstAt(rest, name, cs, j);
          assert FirstAt(m, name, cs, j + 1);
        }
      }
    }
  }

  /** The member is the same as the first one of its name in n. */
  ghost predicate HasPartner(x: Member, n: seq<Member>, cs: bool) {
    exists j: nat :: FirstAt(n, x.key, cs, j) && Same(x.value, n[j].value, cs)
  }

  lemma {:induction false} CoveredExactlyWhen(m: seq<Member>, n: seq<Member>, cs: bool)
    ensures Covered(m, n, cs) <==> forall i :: 0 <= i < |m| ==> HasPartner(m[i], n, cs)
  {
    if m != [] {
      var rest, r := m[1..], Find(n, m[0].key, cs);
      FindsFirst(n, m[0].key, cs, r);
      CoveredExactlyWhen(rest, n, cs);
      assert forall i :: 0 <= i < |rest| ==> rest[i] == m[i + 1];
      assert forall i :: 0 < i < |m| ==> m[i] == rest[i - 1];
      assert HasPartner(m[0], n, cs) <==> r.Some? && Same(m[0].value, r.value, cs);
    }
  }

  /** Objects are the same if each member of either one is the same as the first one of its name in the other. */
  lemma SameObjectsExactlyWhen(m: seq<Member>, n: seq<Member>, cs: bool)
    ensures Same(Object(m), Object(n), cs) <==>
      && (forall i :: 0 <= i < |m| ==> HasPartner(m[i], n, cs))
      && (forall i :: 0 <= i < |n| ==> HasPartner(n[i], m, cs))
  {
    CoveredExactlyWhen(m, n, cs);
    CoveredExactlyWhen(n, m, cs);
  }

  /** An equivalence relation. */
  lemma SameIsEquivalence(a: Json, b: Json, c: Json, cs: bool)
    requires Comparable(a, cs) && Comparable(b, cs) && Comparable(c, cs)
    ensures Same(a, a, cs)
    ensures Same(a, b, cs) ==> Same(b, a, cs)
    ensures Same(a, b, cs) && Same(b, c, cs) ==> Same(a, c, cs)
  {
    SameIsEqual(a, a, cs);
    SameIsEqual(a, b, cs);
    SameIsEqual(b, a, cs);
    SameIsEqual(b, c, cs);
    SameIsEqual(a, c, cs);
  }

  /** A number is told apart from all others exactly below 2^52 - 1; from there on its neighbour counts as the same. */
  lemma ToldApartExactlyWhen(a: int)
    ensures (forall b: int :: Near(a, b) ==> a == b) <==> Abs(a) < 4_503_599_627_370_495
  {
    if Abs(a) >= TWO_52 - 1 {
      assert Near(a, if a >= 0 then a + 1 else a - 1);
    } else {
      forall b: int | Near(a, b) ensures a == b {
        assert a != b ==> Abs(a - b) * TWO_52 >= TWO_52;
      }
    }
  }

  /** Up to 2^52 the only different numbers that count as the same are 2^52 and its lower neighbour, of either sign. */
  lemma NearNeighbours(a: int, b: int)
    requires Abs(a) <= TWO_52 && Abs(b) <= TWO_52 && Near(a, b) && a != b
    ensures Abs(a - b) == 1 && Larger(Abs(a), Abs(b)) == TWO_52
  {
  }

  /** Three numbers around 2^52 that show comparison not to be transitive. */
  lemma NotTransitive()
    ensures var a, b, c := Number(TWO_52 - 1), Number(TWO_52), Number(TWO_52 + 1);
      Same(a, b, true) && Same(b, c, true) && !Same(a, c, true)
  {
  }

  /** On integers of magnitude at most n comparison is transitive exactly if n does not exceed 2^52. */
  lemma TransitiveExactlyWhen(n: nat)
    ensures (forall a: int, b: int, c: int ::
               Abs(a) <= n && Abs(b) <= n && Abs(c) <= n && Near(a, b) && Near(b, c) ==> Near(a, c))
            <==> n <= 4_503_599_627_370_496
  {
    if n <= TWO_52 {
      forall a: int, b: int, c: int
        | Abs(a) <= n && Abs(b) <= n && Abs(c) <= n && Near(a, b) && Near(b, c)
        ensures Near(a, c)
      {
        if a != b && b != c {
          NearNeighbours(a, b);
          NearNeighbours(b, c);
          assert a == c;
        }
      }
    } else {
      NotTransitive();
      assert Near(TWO_52 - 1, TWO_52) && Near(TWO_52, TWO_52 + 1) && !Near(TWO_52 - 1, TWO_52 + 1);
    }
  }
}
