/** Functions on plain sequences of values that specify what the
    IteratorFactory operations compute, and the lemmas about them. */
module FactorySpec {
  import opened Values
  import opened Text
  import opened Wrappers

  // ---------------------------------------------------------------------
  // zip and map

  /** A first `zip`: element i becomes the two-element list [s[i], other[i]]. */
  function Pairs(s: seq<Value>, other: seq<Value>): (r: seq<Value>)
    requires |s| == |other|
    ensures |r| == |s|
    ensures forall i :: 0 <= i < |r| ==> r[i] == ListV([s[i], other[i]])
  {
    seq(|s|, i requires 0 <= i < |s| => ListV([s[i], other[i]]))
  }

  /** The position of the first element that is not a list (|s| if there is none). */
  function FirstNonList(s: seq<Value>): (k: nat)
    ensures k <= |s|
    ensures forall i :: 0 <= i < k ==> s[i].ListV?
    ensures k < |s| ==> !s[k].ListV?
  {
    if |s| == 0 || !s[0].ListV? then 0 else 1 + FirstNonList(s[1..])
  }

  /** A chained `zip` that has appended other[i] to the lists before position k
      and left the rest alone. */
  function AppendedUpTo(s: seq<Value>, other: seq<Value>, k: nat): (r: seq<Value>)
    requires |s| == |other| && k <= |s|
    requires forall i :: 0 <= i < k ==> s[i].ListV?
    ensures |r| == |s|
    ensures forall i :: 0 <= i < k ==> r[i] == ListV(s[i].items + [other[i]])
    ensures forall i :: k <= i < |s| ==> r[i] == s[i]
  {
    seq(|s|, i requires 0 <= i < |s| => if i < k then ListV(s[i].items + [other[i]]) else s[i])
  }

  /** `[f(e) for e in s]` */
  function Mapped(f: Value -> Value, s: seq<Value>): (r: seq<Value>)
    ensures |r| == |s|
    ensures forall i :: 0 <= i < |r| ==> r[i] == f(s[i])
  {
    seq(|s|, i requires 0 <= i < |s| => f(s[i]))
  }

  /** `[str(e) for e in s]` */
  function Shown(s: seq<Value>): (r: seq<string>)
    ensures |r| == |s|
    ensures forall i :: 0 <= i < |r| ==> r[i] == Show(s[i])
  {
    seq(|s|, i requires 0 <= i < |s| => Show(s[i]))
  }

  // ---------------------------------------------------------------------
  // hashing, duplicates and occurrence order

  /** Python can hash ints, strings and booleans, but not lists. */
  predicate Hashable(v: Value)
  {
    !v.ListV?
  }

  predicate AllHashable(s: seq<Value>)
  {
    forall i :: 0 <= i < |s| ==> Hashable(s[i])
  }

  /** `set(s)` */
  function ElemSet(s: seq<Value>): set<Value>
  {
    set i | 0 <= i < |s| :: s[i]
  }

  predicate HasDuplicate(s: seq<Value>)
  {
    exists i, j :: 0 <= i < j < |s| && s[i] == s[j]
  }

  lemma ElemSetCons(x: Value, t: seq<Value>)
    ensures ElemSet([x] + t) == {x} + ElemSet(t)
  {
    var s := [x] + t;
    forall y | y in ElemSet(s) ensures y == x || y in ElemSet(t) {
      var i :| 0 <= i < |s| && s[i] == y;
      if i > 0 { assert t[i - 1] == y; }
    }
    forall y | y in ElemSet(t) ensures y in ElemSet(s) {
      var i :| 0 <= i < |t| && t[i] == y;
      assert s[i + 1] == y;
    }
    assert s[0] == x;
  }

  lemma HasDuplicateCons(x: Value, t: seq<Value>)
    ensures HasDuplicate([x] + t) <==> x in t || HasDuplicate(t)
  {
    var s := [x] + t;
    if HasDuplicate(s) {
      var i, j :| 0 <= i < j < |s| && s[i] == s[j];
      if i == 0 { assert t[j - 1] == x; } else { assert t[i - 1] == t[j - 1]; }
    }
    if x in t {
      var j :| 0 <= j < |t| && t[j] == x;
      assert s[0] == s[j + 1];
    }
    if HasDuplicate(t) {
      var i, j :| 0 <= i < j < |t| && t[i] == t[j];
      assert s[i + 1] == s[j + 1];
    }
  }

  lemma RepeatedCons(x: Value, t: seq<Value>)
    ensures (exists v :: multiset([x] + t)[v] > 1) <==> x in t || exists v :: multiset(t)[v] > 1
  {
    var s := [x] + t;
    assert multiset(s) == multiset{x} + multiset(t);
    if x in t {
      assert multiset(s)[x] > 1;
    }
    if exists v :: multiset(t)[v] > 1 {
      var v :| multiset(t)[v] > 1;
      assert multiset(s)[v] > 1;
    }
    if exists v :: multiset(s)[v] > 1 {
      var v :| multiset(s)[v] > 1;
      if v != x { assert multiset(t)[v] > 1; } else { assert x in multiset(t); }
    }
  }

  /** The set of s has as many members as s has elements iff s has no
      duplicate, and s has a duplicate iff some value occurs more than once. */
  lemma {:induction false} DupFacts(s: seq<Value>)
    ensures |ElemSet(s)| <= |s|
    ensures |ElemSet(s)| == |s| <==> !HasDuplicate(s)
    ensures HasDuplicate(s) <==> exists v :: multiset(s)[v] > 1
  {
    if |s| == 0 {
      assert ElemSet(s) == {};
      assert !HasDuplicate(s);
      assert forall v :: multiset(s)[v] == 0;
    } else {
      var x, t := s[0], s[1..];
      assert s == [x] + t;
      DupFacts(t);
      ElemSetCons(x, t);
      HasDuplicateCons(x, t);
      RepeatedCons(x, t);
      if x in ElemSet(t) {
        assert ElemSet(s) == ElemSet(t);
        assert x in t;
      } else {
        assert x !in t;
        assert |ElemSet(s)| == |ElemSet(t)| + 1;
      }
    }
  }

  /** The position of the first occurrence of v in s. */
  function FirstIndex(s: seq<Value>, v: Value): (k: nat)
    requires v in s
    ensures k < |s| && s[k] == v
    ensures forall i :: 0 <= i < k ==> s[i] != v
  {
    if s[0] == v then 0 else 1 + FirstIndex(s[1..], v)
  }

  /** An element of a prefix has its first occurrence inside that prefix. */
  lemma FirstIndexPrefix(p: seq<Value>, q: seq<Value>, v: Value)
    requires v in p
    ensures FirstIndex(p + q, v) == FirstIndex(p, v)
  {
    var k := FirstIndex(p, v);
    assert (p + q)[k] == v;
    var k' := FirstIndex(p + q, v);
    assert k' <= k;
  }

  /** The elements of r all occur in s, and in the order of their first
      occurrences in s (so none of them repeats). */
  predicate InFirstSeenOrder(r: seq<Value>, s: seq<Value>)
  {
    && (forall i :: 0 <= i < |r| ==> r[i] in s)
    && (forall i, j :: 0 <= i < j < |r| ==> FirstIndex(s, r[i]) < FirstIndex(s, r[j]))
  }

  predicate NoDup(r: seq<Value>)
  {
    forall i, j :: 0 <= i < j < |r| ==> r[i] != r[j]
  }

  lemma FirstSeenOrderHasNoDup(r: seq<Value>, s: seq<Value>)
    requires InFirstSeenOrder(r, s)
    ensures NoDup(r)
  {
  }

  /** The distinct values of s in first-seen order: the keys of
      `dict(Counter(s))`, in the order the dictionary keeps them. */
  function Dedup(s: seq<Value>): (r: seq<Value>)
    ensures forall v :: v in r <==> v in s
    decreases |s|
  {
    if |s| == 0 then []
    else
      var p, x := s[..|s| - 1], s[|s| - 1];
      assert s == p + [x];
      if x in p then Dedup(p) else Dedup(p) + [x]
  }

  lemma {:induction false} DedupOrdered(s: seq<Value>)
    ensures InFirstSeenOrder(Dedup(s), s)
    decreases |s|
  {
    if |s| > 0 {
      var p, x := s[..|s| - 1], s[|s| - 1];
      assert s == p + [x];
      DedupOrdered(p);
      var d := Dedup(p);
      forall v | v in p ensures FirstIndex(s, v) == FirstIndex(p, v) {
        FirstIndexPrefix(p, [x], v);
      }
      assert InFirstSeenOrder(d, s);
      if x !in p {
        assert FirstIndex(s, x) == |p| by {
          assert s[|p|] == x;
        }
        OrderedSnoc(d, x, s);
      }
    }
  }

  /** The keys with a count above one, in the order of the keys. */
  function KeepRepeated(keys: seq<Value>, s: seq<Value>): (r: seq<Value>)
    ensures forall v :: v in r <==> v in keys && multiset(s)[v] > 1
    decreases |keys|
  {
    if |keys| == 0 then []
    else
      var p, k := keys[..|keys| - 1], keys[|keys| - 1];
      assert keys == p + [k];
      var rest := KeepRepeated(p, s);
      if multiset(s)[k] > 1 then rest + [k] else rest
  }

  /** Dropping the last key keeps the order, and every earlier key was
      first seen before the last one. */
  lemma OrderedInit(keys: seq<Value>, s: seq<Value>)
    requires InFirstSeenOrder(keys, s) && |keys| > 0
    ensures InFirstSeenOrder(keys[..|keys| - 1], s)
    ensures forall v :: v in keys[..|keys| - 1] ==> FirstIndex(s, v) < FirstIndex(s, keys[|keys| - 1])
  {
    var p := keys[..|keys| - 1];
    forall v | v in p ensures FirstIndex(s, v) < FirstIndex(s, keys[|keys| - 1]) {
      var m :| 0 <= m < |p| && p[m] == v;
      assert keys[m] == v;
    }
  }

  /** A value first seen after everything in r may be appended to r. */
  lemma OrderedSnoc(r: seq<Value>, x: Value, s: seq<Value>)
    requires InFirstSeenOrder(r, s) && x in s
    requires forall v :: v in r ==> FirstIndex(s, v) < FirstIndex(s, x)
    ensures InFirstSeenOrder(r + [x], s)
  {
    var t := r + [x];
    forall i, j | 0 <= i < j < |t| ensures FirstIndex(s, t[i]) < FirstIndex(s, t[j]) {
      assert t[i] == r[i];
      if j < |r| {
        assert t[j] == r[j];
      } else {
        assert r[i] in r;
      }
    }
  }

  lemma {:induction false} KeepRepeatedOrdered(keys: seq<Value>, s: seq<Value>)
    requires InFirstSeenOrder(keys, s)
    ensures InFirstSeenOrder(KeepRepeated(keys, s), s)
    decreases |keys|
  {
    if |keys| > 0 {
      var p, k := keys[..|keys| - 1], keys[|keys| - 1];
      OrderedInit(keys, s);
      KeepRepeatedOrdered(p, s);
      var rest := KeepRepeated(p, s);
      if multiset(s)[k] > 1 {
        assert keys[|keys| - 1] in keys;
        OrderedSnoc(rest, k, s);
      }
    }
  }

  /** What `get_same_elem` returns: the values occurring more than once, each
      once, in the order of their first occurrence. */
  function SameElems(s: seq<Value>): seq<Value>
  {
    KeepRepeated(Dedup(s), s)
  }

  lemma SameElemsSpec(s: seq<Value>)
    ensures forall v :: v in SameElems(s) <==> multiset(s)[v] > 1
    ensures InFirstSeenOrder(SameElems(s), s)
    ensures NoDup(SameElems(s))
  {
    DedupOrdered(s);
    KeepRepeatedOrdered(Dedup(s), s);
    FirstSeenOrderHasNoDup(SameElems(s), s);
  }

  /** `get_same_elem` finds something iff the sequence has a duplicate. */
  lemma SameElemsNonEmptyIff(s: seq<Value>)
    ensures SameElems(s) != [] <==> HasDuplicate(s)
  {
    SameElemsSpec(s);
    DupFacts(s);
    if HasDuplicate(s) {
      var v :| multiset(s)[v] > 1;
      assert v in SameElems(s);
    }
    if SameElems(s) != [] {
      assert multiset(s)[SameElems(s)[0]] > 1;
    }
  }

  /** For distinct a, b, c the list [a, a, b, c, c, c] gives [a, c], just as
      [1, 1, 2, 3, 3, 3] gives [1, 3]. */
  lemma SameElemsExample(a: Value, b: Value, c: Value)
    requires a != b && b != c && a != c
    ensures SameElems([a, a, b, c, c, c]) == [a, c]
  {
    ExampleFacts(a, b, c);
    TwoRepeated([a, a, b, c, c, c], a, c);
  }

  /** When exactly two values repeat, `get_same_elem` lists them in the order
      they are first seen. */
  lemma TwoRepeated(s: seq<Value>, a: Value, c: Value)
    requires forall v :: multiset(s)[v] > 1 <==> v == a || v == c
    requires a in s && c in s && FirstIndex(s, a) < FirstIndex(s, c)
    ensures SameElems(s) == [a, c]
  {
    var r := SameElems(s);
    SameElemsSpec(s);
    assert a in r && c in r;
    assert r[0] == a;
    assert r[1] == c;
    assert r[|r| - 1] in r;
  }

  /** The counts and first positions in the example list. */
  lemma ExampleFacts(a: Value, b: Value, c: Value)
    requires a != b && b != c && a != c
    ensures var s := [a, a, b, c, c, c];
      && (forall v :: multiset(s)[v] > 1 <==> v == a || v == c)
      && a in s && c in s && FirstIndex(s, a) == 0 && FirstIndex(s, c) == 3
  {
    var s := [a, a, b, c, c, c];
    assert multiset(s) == multiset{a, a, b, c, c, c};
    assert s[3] == c;
  }

  // ---------------------------------------------------------------------
  // rendering

  /** The line `__str__` writes for element i. */
  function NumberedLine(i: int, v: Value): string
  {
    IntToString(i) + "|\t" + Show(v)
  }

  function NumberedLines(s: seq<Value>): (r: seq<string>)
    ensures |r| == |s|
    ensures forall i :: 0 <= i < |s| ==> r[i] == NumberedLine(i, s[i])
  {
    seq(|s|, i requires 0 <= i < |s| => NumberedLine(i, s[i]))
  }

  /** The whole text of `__str__`: a header, the numbered lines, the length
      and the element type. */
  function Rendered(s: seq<Value>, length: int, elemType: Option<TypeTag>): string
  {
    "\U{7D22}\U{5F15}\t\U{503C}\n" + JoinStrings(NumberedLines(s), "\n")
    + "\n\U{957F}\U{5EA6}: " + IntToString(length)
    + "\n\U{5143}\U{7D20}\U{7C7B}\U{578B}: " + TypeName(elemType)
  }
}
