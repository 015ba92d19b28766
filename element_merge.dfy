/**
 * The two array-union helpers of the look-and-feel merge:
 * `mergeThemeElementById` (union of element arrays keyed on `$.id`) and
 * `mergeThemeElementByValue` (union of string arrays keyed on equality).
 * A JavaScript `null` argument or result is `None`.
 */
module ElementMerge {
  import opened Wrappers
  import opened Document

  /** No value occurs twice. */
  predicate NoDuplicates<T(==,!new)>(s: seq<T>)
  {
    forall i, j :: 0 <= i < j < |s| ==> s[i] != s[j]
  }

  /** No two elements carry the same `$.id`. */
  predicate UniqueIds(s: seq<Node>)
  {
    forall i, j :: 0 <= i < j < |s| ==> IdOf(s[i]) != IdOf(s[j])
  }

  // ---------------------------------------------------------------------
  // mergeThemeElementById
  // ---------------------------------------------------------------------

  /** The elements of `b`, in order, whose `$.id` is not in `ids`. */
  function WithNewIds(b: seq<Node>, ids: set<Option<string>>): (r: seq<Node>)
    ensures |r| <= |b|
    ensures forall x :: x in r <==> x in b && IdOf(x) !in ids
    ensures IdsOf(r) == IdsOf(b) - ids
  {
    if b == [] then []
    else
      var rest := WithNewIds(b[1..], ids);
      assert b == [b[0]] + b[1..];
      if IdOf(b[0]) in ids then rest else [b[0]] + rest
  }

  /**
   * `mergeThemeElementById(a, b)`: null when both are null, the other
   * argument when one is null, and otherwise every element of `a` followed
   * by the elements of `b` whose `$.id` does not occur in `a`.
   */
  function MergeThemeElementById(a: Option<seq<Node>>, b: Option<seq<Node>>): (r: Option<seq<Node>>)
    ensures r.None? <==> a.None? && b.None?
    ensures a.None? ==> r == b
    ensures b.None? ==> r == a
    ensures a.Some? && b.Some? ==>
      |a.value| <= |r.value| <= |a.value| + |b.value| &&
      r.value[..|a.value|] == a.value &&
      (forall x :: x in r.value[|a.value|..] <==> x in b.value && IdOf(x) !in IdsOf(a.value))
  {
    match (a, b)
    case (None, _) => b
    case (_, None) => a
    case (Some(x), Some(y)) =>
      var r := x + WithNewIds(y, IdsOf(x));
      assert r[..|x|] == x && r[|x|..] == WithNewIds(y, IdsOf(x));
      Some(r)
  }

  /** Every id of either input survives, and no other id appears. */
  lemma MergeByIdKeepsAllIds(a: seq<Node>, b: seq<Node>)
    ensures IdsOf(MergeThemeElementById(Some(a), Some(b)).value) == IdsOf(a) + IdsOf(b)
  {
    var t := WithNewIds(b, IdsOf(a));
    var r := a + t;
    forall id | id in IdsOf(a) + IdsOf(b) ensures id in IdsOf(r) {
      if id in IdsOf(a) {
        var x :| x in a && IdOf(x) == id;
        assert x in r;
      } else {
        assert id in IdsOf(t);
        var x :| x in t && IdOf(x) == id;
        assert x in r;
      }
    }
    forall id | id in IdsOf(r) ensures id in IdsOf(a) + IdsOf(b) {
      var x :| x in r && IdOf(x) == id;
      if x in a {
        assert id in IdsOf(a);
      } else {
        assert x in t;
        assert id in IdsOf(b);
      }
    }
  }

  /** Merging arrays whose ids are each unique gives an array whose ids are unique. */
  lemma MergeByIdUniqueIds(a: seq<Node>, b: seq<Node>)
    requires UniqueIds(a) && UniqueIds(b)
    ensures UniqueIds(MergeThemeElementById(Some(a), Some(b)).value)
  {
    var t := WithNewIds(b, IdsOf(a));
    UniqueIdsOfFilter(b, IdsOf(a));
    var r := a + t;
    forall i, j | 0 <= i < j < |r| ensures IdOf(r[i]) != IdOf(r[j]) {
      if j >= |a| && i < |a| {
        assert r[j] in t;
        assert r[i] in a;
      }
    }
  }

  /** Dropping elements from an array with unique ids keeps its ids unique. */
  lemma {:induction false} UniqueIdsOfFilter(b: seq<Node>, ids: set<Option<string>>)
    requires UniqueIds(b)
    ensures UniqueIds(WithNewIds(b, ids))
  {
    if b != [] {
      var rest := WithNewIds(b[1..], ids);
      UniqueIdsOfFilter(b[1..], ids);
      if IdOf(b[0]) !in ids {
        var r := [b[0]] + rest;
        forall j | 0 < j < |r| ensures IdOf(r[0]) != IdOf(r[j]) {
          assert r[j] in b[1..];
          var k :| 0 <= k < |b[1..]| && b[1..][k] == r[j];
          assert b[k + 1] == r[j];
        }
      }
    }
  }

  /**
   * First-seen deduplication by `$.id`, defined from the end: the last
   * element is kept exactly when no earlier element has its id.
   */
  function DedupById(s: seq<Node>): seq<Node>
  {
    if s == [] then []
    else
      var init := s[..|s| - 1];
      var d := DedupById(init);
      if IdOf(s[|s| - 1]) in IdsOf(init) then d else d + [s[|s| - 1]]
  }

  lemma {:induction false} DedupByIdOfUnique(s: seq<Node>)
    requires UniqueIds(s)
    ensures DedupById(s) == s
  {
    if s != [] {
      var init := s[..|s| - 1];
      assert UniqueIds(init);
      DedupByIdOfUnique(init);
    }
  }

  lemma {:induction false} WithNewIdsSnoc(b: seq<Node>, x: Node, ids: set<Option<string>>)
    ensures WithNewIds(b + [x], ids) ==
      WithNewIds(b, ids) + (if IdOf(x) in ids then [] else [x])
  {
    if b == [] {
      assert b + [x] == [x];
    } else {
      assert (b + [x])[1..] == b[1..] + [x];
      WithNewIdsSnoc(b[1..], x, ids);
    }
  }

  /**
   * When each array's ids are unique, merging by id is the union of the two
   * arrays keyed on `$.id`: `a ++ b` with every element whose id was seen
   * earlier dropped.
   */
  lemma MergeByIdIsUnionById(a: seq<Node>, b: seq<Node>)
    requires UniqueIds(a) && UniqueIds(b)
    ensures MergeThemeElementById(Some(a), Some(b)) == Some(DedupById(a + b))
  {
    DedupByIdOfUnique(a);
    UnionByIdSuffix(a, b);
  }

  lemma IdsOfConcat(s: seq<Node>, t: seq<Node>)
    ensures IdsOf(s + t) == IdsOf(s) + IdsOf(t)
  {
    forall id | id in IdsOf(s + t) ensures id in IdsOf(s) + IdsOf(t) {
      var y :| y in s + t && IdOf(y) == id;
      if y in s { assert id in IdsOf(s); } else { assert id in IdsOf(t); }
    }
    forall id | id in IdsOf(s) + IdsOf(t) ensures id in IdsOf(s + t) {
      if id in IdsOf(s) {
        var y :| y in s && IdOf(y) == id;
        assert y in s + t;
      } else {
        var y :| y in t && IdOf(y) == id;
        assert y in s + t;
      }
    }
  }

  /** The last element of an array with unique ids has an id no earlier element has. */
  lemma LastIdIsNew(b: seq<Node>)
    requires UniqueIds(b) && b != []
    ensures IdOf(b[|b| - 1]) !in IdsOf(b[..|b| - 1])
  {
    var init := b[..|b| - 1];
    forall y | y in init ensures IdOf(y) != IdOf(b[|b| - 1]) {
      var k :| 0 <= k < |init| && init[k] == y;
      assert b[k] == y;
    }
  }

  /** Appending one element to a deduplicated array keeps it exactly when its id is new. */
  lemma DedupByIdSnoc(s: seq<Node>, x: Node)
    ensures DedupById(s + [x]) == DedupById(s) + (if IdOf(x) in IdsOf(s) then [] else [x])
  {
    assert (s + [x])[..|s + [x]| - 1] == s;
  }

  /** The last element of `b` is new after `a ++ init` exactly when it is new after `a`. */
  lemma NewIdAfter(a: seq<Node>, init: seq<Node>, x: Node, b: seq<Node>)
    requires UniqueIds(b) && b == init + [x]
    ensures IdOf(x) in IdsOf(a + init) <==> IdOf(x) in IdsOf(a)
  {
    assert init == b[..|b| - 1];
    LastIdIsNew(b);
    IdsOfConcat(a, init);
  }

  /** Induction step of MergeByIdIsUnionById: deduplicating `a ++ b` by id appends `b`'s new ids. */
  lemma {:induction false} UnionByIdSuffix(a: seq<Node>, b: seq<Node>)
    requires UniqueIds(b)
    ensures DedupById(a + b) == DedupById(a) + WithNewIds(b, IdsOf(a))
    decreases |b|
  {
    if b == [] {
      assert a + b == a;
    } else {
      var init := b[..|b| - 1];
      var x := b[|b| - 1];
      assert b == init + [x];
      assert UniqueIds(init);
      var ids := IdsOf(a);
      var tail: seq<Node> := if IdOf(x) in ids then [] else [x];
      NewIdAfter(a, init, x, b);
      assert a + b == (a + init) + [x];
      calc {
        DedupById(a + b);
        { DedupByIdSnoc(a + init, x); }
        DedupById(a + init) + tail;
        { UnionByIdSuffix(a, init); }
        DedupById(a) + WithNewIds(init, ids) + tail;
        { WithNewIdsSnoc(init, x, ids); }
        DedupById(a) + WithNewIds(b, ids);
      }
    }
  }

  /** An array whose ids were all seen contributes nothing. */
  lemma {:induction false} WithNewIdsAllSeen(b: seq<Node>, ids: set<Option<string>>)
    requires IdsOf(b) <= ids
    ensures WithNewIds(b, ids) == []
  {
    if b != [] {
      assert b[0] in b;
      assert IdsOf(b[1..]) <= IdsOf(b) by {
        forall id | id in IdsOf(b[1..]) ensures id in IdsOf(b) {
          var y :| y in b[1..] && IdOf(y) == id;
          assert y in b;
        }
      }
      WithNewIdsAllSeen(b[1..], ids);
    }
  }

  /** Merging an element array with itself gives it back. */
  lemma MergeByIdSelf(a: Option<seq<Node>>)
    ensures MergeThemeElementById(a, a) == a
  {
    if a.Some? {
      WithNewIdsAllSeen(a.value, IdsOf(a.value));
      assert a.value + [] == a.value;
    }
  }

  // ---------------------------------------------------------------------
  // mergeThemeElementByValue
  // ---------------------------------------------------------------------

  /** `acc` followed by each value of `b` that is not yet present, in `b`'s order. */
  function AppendNew<T(==,!new)>(acc: seq<T>, b: seq<T>): (r: seq<T>)
    ensures |acc| <= |r| <= |acc| + |b|
    ensures r[..|acc|] == acc
    ensures forall x :: x in r <==> x in acc || x in b
    ensures NoDuplicates(acc) ==> NoDuplicates(r)
    decreases |b|
  {
    if b == [] then acc
    else if b[0] in acc then AppendNew(acc, b[1..])
    else
      var acc' := acc + [b[0]];
      assert NoDuplicates(acc) ==> NoDuplicates(acc');
      var r := AppendNew(acc', b[1..]);
      assert r[..|acc|] == r[..|acc'|][..|acc|];
      assert forall x :: x in b <==> x == b[0] || x in b[1..];
      r
  }

  /**
   * `mergeThemeElementByValue(a, b)`: null when both are null, the other
   * argument when one is null, and otherwise `a` followed by the values of
   * `b` that are not already present, each kept once, first-seen order.
   */
  function MergeThemeElementByValue<T(==,!new)>(a: Option<seq<T>>, b: Option<seq<T>>): (r: Option<seq<T>>)
    ensures r.None? <==> a.None? && b.None?
    ensures a.None? ==> r == b
    ensures b.None? ==> r == a
    ensures a.Some? && b.Some? ==>
      |a.value| <= |r.value| <= |a.value| + |b.value| &&
      r.value[..|a.value|] == a.value &&
      (forall x :: x in r.value <==> x in a.value || x in b.value) &&
      (NoDuplicates(a.value) ==> NoDuplicates(r.value))
  {
    match (a, b)
    case (None, _) => b
    case (_, None) => a
    case (Some(x), Some(y)) => Some(AppendNew(x, y))
  }

  /**
   * First-seen deduplication, defined from the end: the last value is kept
   * exactly when it does not occur earlier.
   */
  function Dedup<T(==,!new)>(s: seq<T>): seq<T>
  {
    if s == [] then []
    else
      var init := s[..|s| - 1];
      var d := Dedup(init);
      if s[|s| - 1] in init then d else d + [s[|s| - 1]]
  }

  lemma {:induction false} DedupElements<T(!new)>(s: seq<T>)
    ensures forall x :: x in Dedup(s) <==> x in s
  {
    if s != [] {
      var init := s[..|s| - 1];
      DedupElements(init);
      assert s == init + [s[|s| - 1]];
    }
  }

  lemma {:induction false} DedupOfDistinct<T(!new)>(s: seq<T>)
    requires NoDuplicates(s)
    ensures Dedup(s) == s
  {
    if s != [] {
      var init := s[..|s| - 1];
      DedupOfDistinct(init);
      assert s == init + [s[|s| - 1]];
    }
  }

  /** Appending one more value to `b` appends it to the result unless already present. */
  lemma {:induction false} AppendNewSnoc<T(!new)>(acc: seq<T>, b: seq<T>, x: T)
    ensures AppendNew(acc, b + [x]) ==
      var r := AppendNew(acc, b);
      if x in r then r else r + [x]
    decreases |b|
  {
    if b == [] {
      assert b + [x] == [x];
      assert [x][1..] == [];
    } else {
      assert (b + [x])[0] == b[0] && (b + [x])[1..] == b[1..] + [x];
      if b[0] in acc {
        AppendNewSnoc(acc, b[1..], x);
      } else {
        AppendNewSnoc(acc + [b[0]], b[1..], x);
      }
    }
  }

  /**
   * When `a` has no duplicates, merging by value is the first-seen
   * deduplication of `a` followed by `b`.
   */
  lemma {:induction false} MergeByValueIsDedup<T(!new)>(a: seq<T>, b: seq<T>)
    requires NoDuplicates(a)
    ensures MergeThemeElementByValue(Some(a), Some(b)) == Some(Dedup(a + b))
    decreases |b|
  {
    if b == [] {
      assert a + b == a;
      DedupOfDistinct(a);
    } else {
      var init := b[..|b| - 1];
      var x := b[|b| - 1];
      assert b == init + [x];
      MergeByValueIsDedup(a, init);
      AppendNewSnoc(a, init, x);
      assert a + b == (a + init) + [x];
      assert (a + b)[..|a + b| - 1] == a + init;
      DedupElements(a + init);
    }
  }

  /** Merging a string array with itself gives it back. */
  lemma {:induction false} MergeByValueSelf<T(!new)>(a: seq<T>)
    ensures AppendNew(a, a) == a
  {
    AppendNewAllPresent(a, a);
  }

  /** Values that are all already present add nothing. */
  lemma {:induction false} AppendNewAllPresent<T(!new)>(acc: seq<T>, b: seq<T>)
    requires forall x :: x in b ==> x in acc
    ensures AppendNew(acc, b) == acc
    decreases |b|
  {
    if b != [] {
      assert b[0] in acc;
      AppendNewAllPresent(acc, b[1..]);
    }
  }

  // ---------------------------------------------------------------------
  // The asserted examples
  // ---------------------------------------------------------------------

  function Elem(id: string): Node
  {
    Element(map["id" := id], [])
  }

  /** [one, two] merged by id with [two, three] is [one, two, three]. */
  lemma MergeByIdExample()
    ensures MergeThemeElementById(Some([Elem("one"), Elem("two")]), Some([Elem("two"), Elem("three")]))
      == Some([Elem("one"), Elem("two"), Elem("three")])
  {
    var a := [Elem("one"), Elem("two")];
    var b := [Elem("two"), Elem("three")];
    assert IdOf(b[0]) in IdsOf(a) by { assert a[1] in a; }
    assert IdOf(b[1]) !in IdsOf(a) by {
      assert forall x :: x in a ==> x == Elem("one") || x == Elem("two");
    }
    assert b[1..] == [Elem("three")] && b[1..][1..] == [];
    calc {
      WithNewIds(b, IdsOf(a));
      WithNewIds(b[1..], IdsOf(a));
      [Elem("three")] + WithNewIds(b[1..][1..], IdsOf(a));
      [Elem("three")];
    }
    assert a + [Elem("three")] == [Elem("one"), Elem("two"), Elem("three")];
  }

  /** ["one", "two"] merged by value with ["two", "three"] is ["one", "two", "three"]. */
  lemma MergeByValueExample()
    ensures MergeThemeElementByValue(Some(["one", "two"]), Some(["two", "three"]))
      == Some(["one", "two", "three"])
  {
    var a: seq<string> := ["one", "two"];
    var b: seq<string> := ["two", "three"];
    assert b[0] in a && b[1..] == ["three"];
    assert "three" !in a && ["three"][1..] == [];
    calc {
      AppendNew(a, b);
      AppendNew(a, ["three"]);
      AppendNew(a + ["three"], []);
      a + ["three"];
      ["one", "two", "three"];
    }
  }
}
