/** The IteratorFactory of MyDataStructure.py: a container that owns a list of
    values, checks at construction that they share one type, and offers
    queries, in-place updates, map/zip, join, rendering and iteration. */
module MyDataStructure {
  import opened Wrappers
  import opened Errors
  import opened Values
  import opened Text
  import opened FactorySpec

  /** The nested step counter `__Accumulator`. */
  class Accumulator {
    /** the current value; Python keeps it in `init_num` */
    var initNum: int
    var step: int

    constructor (initNum: int, step: int)
      ensures this.initNum == initNum && this.step == step
    {
      this.initNum := initNum;
      this.step := step;
    }

    /** Adds one step and returns the new value. */
    method MoveOneStep() returns (r: int)
      modifies this
      ensures initNum == old(initNum) + old(step) && step == old(step)
      ensures r == initNum
    {
      initNum := initNum + step;
      r := initNum;
    }
  }

  /** What one call of `__next__` does: return an element, raise
      StopIteration, or raise AttributeError because `__iter__` never ran. */
  datatype NextResult = Item(value: Value) | StopIteration | NoAttributeIndex

  /** `dict(Counter(s))`: the distinct elements in first-seen order, each
      with its number of occurrences. Hashing a list raises TypeError. */
  method CountAll(s: seq<Value>) returns (r: Result<(seq<Value>, map<Value, nat>), Error>)
    ensures r.Ok? <==> AllHashable(s)
    ensures r.Err? ==> r.error == Unhashable
    ensures r.Ok? ==> r.value.0 == Dedup(s)
    ensures r.Ok? ==> forall v :: v in r.value.1 <==> v in s
    ensures r.Ok? ==> forall v :: v in r.value.1 ==> r.value.1[v] == multiset(s)[v]
  {
    var keys: seq<Value> := [];
    var counter: map<Value, nat> := map[];
    for i := 0 to |s|
      invariant AllHashable(s[..i])
      invariant keys == Dedup(s[..i])
      invariant forall v :: v in counter <==> v in s[..i]
      invariant forall v :: v in counter ==> counter[v] == multiset(s[..i])[v]
    {
      var e := s[i];
      if !Hashable(e) {
        return Err(Unhashable);
      }
      assert s[..i + 1] == s[..i] + [e];
      if e in counter {
        counter := counter[e := counter[e] + 1];
      } else {
        keys := keys + [e];
        counter := counter[e := 1];
      }
    }
    assert s[..|s|] == s;
    return Ok((keys, counter));
  }

  class IteratorFactory {
    /** `__elem_list` */
    var elems: seq<Value>
    /** `__length` */
    var length: int
    /** `__elem_type` (None stands for Python's None) */
    var elemType: Option<TypeTag>
    /** `__index`, which does not exist until `__iter__` has run */
    var cursor: Option<int>

    /** What every operation keeps: the cached length is the list's length,
        which never drops below one, and the cursor never lies before -1.
        Homogeneity is NOT part of it: `update_elem` and in-place `map` may
        break it. */
    ghost predicate Valid()
      reads this
    {
      && length == |elems|
      && |elems| >= 1
      && (cursor.Some? ==> cursor.value >= -1)
    }

    /** `__check_if_elem_one_type`: collect the set of element types and
        reject the list unless it has exactly one. */
    static method CheckIfElemOneType(s: seq<Value>) returns (r: Outcome<Error>)
      ensures r.Pass? <==> OneType(s)
      ensures r.Fail? ==> r.error == ElemTypeNotSame(TypeSet(s))
    {
      var checkSet: set<TypeTag> := {};
      for i := 0 to |s|
        invariant checkSet == TypeSet(s[..i])
      {
        assert TypeSet(s[..i + 1]) == TypeSet(s[..i]) + {TypeOf(s[i])} by {
          assert forall j :: 0 <= j < i ==> s[..i + 1][j] == s[..i][j];
          assert s[..i + 1][i] == s[i];
        }
        checkSet := checkSet + {TypeOf(s[i])};
      }
      assert s[..|s|] == s;
      OneTypeIff(s);
      if |checkSet| != 1 {
        return Fail(ElemTypeNotSame(checkSet));
      }
      return Pass;
    }

    /** The body of `__init__` once the type check has passed. */
    constructor (input: seq<Value>)
      requires OneType(input)
      ensures Valid()
      ensures elems == input && length == |input|
      ensures elemType == Some(TypeOf(input[0])) && cursor == None
    {
      elems := input;
      length := |input|;
      cursor := None;
      new;
      elemType := GetElemType();
    }

    /** `IteratorFactory(input_iter)`: the new factory, or the type error. */
    static method New(input: seq<Value>) returns (r: Result<IteratorFactory, Error>)
      ensures r.Ok? <==> OneType(input)
      ensures r.Err? ==> r.error == ElemTypeNotSame(TypeSet(input))
      ensures r.Ok? ==> fresh(r.value) && r.value.Valid()
      ensures r.Ok? ==> r.value.elems == input && r.value.length == |input|
      ensures r.Ok? ==> r.value.elemType == Some(TypeOf(input[0])) && r.value.cursor == None
    {
      var check := CheckIfElemOneType(input);
      if check.Fail? {
        return Err(check.error);
      }
      var f := new IteratorFactory(input);
      return Ok(f);
    }

    /** `__get_elem_type`: the type of the first element, None when empty. */
    function GetElemType(): (t: Option<TypeTag>)
      reads this
      requires length == |elems|
      ensures t.None? <==> elems == []
      ensures t.Some? ==> t.value == TypeOf(elems[0])
    {
      if length == 0 then None else Some(TypeOf(elems[0]))
    }

    /** `__update_all_info`: recompute the cached length and element type. */
    method UpdateAllInfo()
      modifies this
      ensures elems == old(elems) && cursor == old(cursor)
      ensures length == |elems|
      ensures elemType == if elems == [] then None else Some(TypeOf(elems[0]))
    {
      length := |elems|;
      elemType := GetElemType();
    }

    /** `if_have_same_elem`: does some value occur twice? Raises TypeError
        when an element is a list, since `set()` must hash every element. */
    function IfHaveSameElem(): (r: Result<bool, Error>)
      reads this
      ensures r.Ok? <==> AllHashable(elems)
      ensures r.Err? ==> r.error == Unhashable
      ensures r.Ok? ==> (r.value <==> HasDuplicate(elems))
    {
      DupFacts(elems);
      if !AllHashable(elems) then Err(Unhashable)
      else Ok(|elems| != |ElemSet(elems)|)
    }

    /** `get_same_elem`: count the occurrences with a Counter, whose keys keep
        first-seen order, then keep the keys counted more than once. */
    method GetSameElem() returns (r: Result<seq<Value>, Error>)
      ensures r.Ok? <==> AllHashable(elems)
      ensures r.Err? ==> r.error == Unhashable
      ensures r.Ok? ==> r.value == SameElems(elems)
    {
      var counted := CountAll(elems);
      if counted.Err? {
        return Err(counted.error);
      }
      var (keys, counter) := counted.value;
      var result: seq<Value> := [];
      for j := 0 to |keys|
        invariant result == KeepRepeated(keys[..j], elems)
      {
        assert keys[..j + 1][..j] == keys[..j];
        assert keys[j] in elems;
        if counter[keys[j]] > 1 {
          result := result + [keys[j]];
        }
      }
      assert keys[..|keys|] == keys;
      return Ok(result);
    }

    /** `locate_elem`: every index holding the value, in ascending order. */
    method LocateElem(inputElem: Value) returns (r: seq<int>)
      ensures forall k :: 0 <= k < |r| ==> 0 <= r[k] < |elems| && elems[r[k]] == inputElem
      ensures forall i :: 0 <= i < |elems| && elems[i] == inputElem ==> i in r
      ensures forall a, b :: 0 <= a < b < |r| ==> r[a] < r[b]
      ensures r == [] <==> inputElem !in elems
    {
      r := [];
      for i := 0 to |elems|
        invariant forall k :: 0 <= k < |r| ==> 0 <= r[k] < i && elems[r[k]] == inputElem
        invariant forall j :: 0 <= j < i && elems[j] == inputElem ==> j in r
        invariant forall a, b :: 0 <= a < b < |r| ==> r[a] < r[b]
      {
        if elems[i] == inputElem {
          r := r + [i];
        }
      }
      if inputElem in elems {
        var i :| 0 <= i < |elems| && elems[i] == inputElem;
        assert i in r;
      }
      if r != [] {
        assert elems[r[0]] == inputElem;
      }
    }

    /** `update_elem`: bounds-checked write of one position, with no new
        type check and no update of the cached length or type. */
    method UpdateElem(index: int, newElem: Value) returns (r: Outcome<Error>)
      requires Valid()
      modifies this
      ensures Valid()
      ensures length == old(length) && elemType == old(elemType) && cursor == old(cursor)
      ensures (index < 0 || index >= old(length)) ==> r == Fail(IndexIllegal(index, old(length))) && elems == old(elems)
      ensures 0 <= index < old(length) ==> r == Pass && elems == old(elems)[index := newElem]
    {
      if index < 0 {
        return Fail(IndexIllegal(index, length));
      } else if index >= length {
        return Fail(IndexIllegal(index, length));
      }
      elems := elems[index := newElem];
      return Pass;
    }

    /** `len` */
    function Len(): (n: int)
      reads this
      requires Valid()
      ensures n == |elems| && n >= 1
    {
      length
    }

    /** `map`: apply f to every element, in place (no type check, returns
        this factory) or into a new factory (which runs the type check). */
    method Map(f: Value -> Value, inplace: bool) returns (r: Result<IteratorFactory, Error>)
      requires Valid()
      modifies this
      ensures Valid()
      ensures inplace ==> r == Ok(this) && elems == Mapped(f, old(elems))
      ensures inplace ==> length == old(length) && elemType == Some(TypeOf(elems[0])) && cursor == old(cursor)
      ensures !inplace ==> unchanged(this)
      ensures !inplace ==> (r.Ok? <==> OneType(Mapped(f, elems)))
      ensures !inplace && r.Err? ==> r.error == ElemTypeNotSame(TypeSet(Mapped(f, elems)))
      ensures !inplace && r.Ok? ==> fresh(r.value) && r.value.Valid() && r.value.elems == Mapped(f, elems)
      ensures !inplace && r.Ok? ==> r.value.elemType == Some(TypeOf(r.value.elems[0])) && r.value.cursor == None
    {
      var resultList := Mapped(f, elems);
      if inplace {
        elems := resultList;
        UpdateAllInfo();
        return Ok(this);
      } else {
        r := New(resultList);
      }
    }

    /** `zip`. Lengths must agree. If element 0 is not a list, element i
        becomes [e_i, other_i]; otherwise other_i is appended to the list
        e_i, which mutates this factory's own lists whether or not the call
        is in place, and stops with AttributeError at the first element that
        is not a list. */
    method Zip(other: seq<Value>, inplace: bool) returns (r: Result<IteratorFactory, Error>)
      requires Valid()
      modifies this
      ensures Valid() && cursor == old(cursor)
      // lengths differ: nothing changes
      ensures |other| != old(|elems|) ==> r == Err(LengthNotMatchToZip) && unchanged(this)
      // first zip: pairs
      ensures |other| == old(|elems|) && !old(elems[0]).ListV? ==>
        && r.Ok?
        && (inplace ==> r.value == this && elems == Pairs(old(elems), other)
                        && length == old(length) && elemType == Some(ListType))
        && (!inplace ==> unchanged(this) && fresh(r.value) && r.value.Valid()
                         && r.value.elems == Pairs(elems, other)
                         && r.value.elemType == Some(ListType) && r.value.cursor == None)
      // chained zip: the receiver's lists grow up to the first non-list
      ensures |other| == old(|elems|) && old(elems[0]).ListV? ==>
        var k := FirstNonList(old(elems));
        && elems == AppendedUpTo(old(elems), other, k)
        && (k < |elems| ==> r == Err(NoAttributeAppend(TypeOf(old(elems)[k])))
                            && length == old(length) && elemType == old(elemType))
        && (k == |elems| && inplace ==> r == Ok(this) && length == old(length) && elemType == Some(ListType))
        && (k == |elems| && !inplace ==> r.Ok? && fresh(r.value) && r.value.Valid() && r.value.elems == elems
                                         && r.value.elemType == Some(ListType) && r.value.cursor == None
                                         && length == old(length) && elemType == old(elemType))
    {
      var n := |elems|;
      if |other| != n {
        return Err(LengthNotMatchToZip);
      }
      var resultList: seq<Value> := [];
      if elems[0].ListV? {
        ghost var before := elems;
        ghost var k := FirstNonList(before);
        var i := 0;
        while i < n
          invariant 0 <= i <= n && i <= k && |elems| == n
          invariant elems == AppendedUpTo(before, other, i)
          invariant resultList == elems[..i]
          invariant length == old(length) && elemType == old(elemType) && cursor == old(cursor)
        {
          var elem := elems[i];
          if !elem.ListV? {
            assert i == k;
            return Err(NoAttributeAppend(TypeOf(elem)));
          }
          elems := elems[i := ListV(elem.items + [other[i]])];
          resultList := resultList + [elems[i]];
          i := i + 1;
        }
        assert resultList == elems;
      } else {
        for i := 0 to n
          invariant |resultList| == i
          invariant forall j :: 0 <= j < i ==> resultList[j] == ListV([elems[j], other[j]])
        {
          resultList := resultList + [ListV([elems[i], other[i]])];
        }
        assert resultList == Pairs(elems, other);
      }
      assert forall j :: 0 <= j < |resultList| ==> resultList[j].ListV?;
      if inplace {
        elems := resultList;
        UpdateAllInfo();
        return Ok(this);
      } else {
        r := New(resultList);
      }
    }

    /** `join`: the `str()` of every element with the delimiter between
        consecutive ones. */
    function Join(delimiter: string): (r: string)
      reads this
      ensures |elems| == 1 ==> r == Show(elems[0])
      ensures |elems| >= 2 ==>
        r == JoinStrings(Shown(elems[..|elems| - 1]), delimiter) + delimiter + Show(elems[|elems| - 1])
      ensures elems != [] ==> Show(elems[0]) <= r
      ensures elems != [] ==> |r| == TotalLength(Shown(elems)) + (|elems| - 1) * |delimiter|
    {
      var parts := Shown(elems);
      if parts == [] then ""
      else
        JoinLength(parts, delimiter);
        JoinLast(elems, delimiter);
        JoinStrings(parts, delimiter)
    }

    /** `to_list` */
    function ToList(): (r: seq<Value>)
      reads this
      requires Valid()
      ensures |r| == Len() && forall i :: 0 <= i < |r| ==> r[i] == elems[i]
    {
      elems
    }

    /** `to_set`: the distinct elements; TypeError when an element is a list. */
    function ToSet(): (r: Result<set<Value>, Error>)
      reads this
      ensures r.Ok? <==> AllHashable(elems)
      ensures r.Err? ==> r.error == Unhashable
      ensures r.Ok? ==> forall v :: v in r.value <==> v in elems
      ensures r.Ok? ==> |r.value| <= |elems| && (|r.value| == |elems| <==> !HasDuplicate(elems))
    {
      DupFacts(elems);
      if !AllHashable(elems) then Err(Unhashable) else Ok(ElemSet(elems))
    }

    /** `__str__`: a fresh `__Accumulator(-1, 1)` numbers the lines. */
    method ToString() returns (s: string)
      ensures s == Rendered(elems, length, elemType)
    {
      var acc := new Accumulator(-1, 1);
      var lines: seq<string> := [];
      for i := 0 to |elems|
        invariant acc.initNum == i - 1 && acc.step == 1
        invariant lines == NumberedLines(elems[..i])
      {
        var k := acc.MoveOneStep();
        lines := lines + [IntToString(k) + "|\t" + Show(elems[i])];
      }
      assert elems[..|elems|] == elems;
      var elemInfoStr := JoinStrings(lines, "\n");
      s := "\U{7D22}\U{5F15}\t\U{503C}\n" + elemInfoStr
         + "\n\U{957F}\U{5EA6}: " + IntToString(length)
         + "\n\U{5143}\U{7D20}\U{7C7B}\U{578B}: " + TypeName(elemType);
    }

    /** `__iter__`: restart at index 0 and return this factory. */
    method Iter() returns (r: IteratorFactory)
      requires Valid()
      modifies this
      ensures Valid() && r == this
      ensures elems == old(elems) && length == old(length) && elemType == old(elemType)
      ensures cursor == Some(-1)
    {
      cursor := Some(-1);
      return this;
    }

    /** `__next__`: advance the cursor, then yield the element under it or
        raise StopIteration past the end. */
    method Next() returns (r: NextResult)
      requires Valid()
      modifies this
      ensures Valid()
      ensures elems == old(elems) && length == old(length) && elemType == old(elemType)
      ensures old(cursor).None? ==> r == NoAttributeIndex && cursor == None
      ensures old(cursor).Some? ==>
        var c := old(cursor).value + 1;
        && cursor == Some(c)
        && r == if c >= |elems| then StopIteration else Item(elems[c])
    {
      if cursor.None? {
        return NoAttributeIndex;
      }
      cursor := Some(cursor.value + 1);
      if cursor.value >= |elems| {
        return StopIteration;
      }
      return Item(elems[cursor.value]);
    }

    /** `list(factory)`: what a Python `for` loop sees, calling `__iter__`
        once and `__next__` until StopIteration. */
    method Collect() returns (items: seq<Value>)
      requires Valid()
      modifies this
      ensures Valid()
      ensures elems == old(elems) && length == old(length) && elemType == old(elemType)
      ensures items == elems && cursor == Some(|elems|)
    {
      var it := Iter();
      items := [];
      while true
        invariant Valid() && it == this
        invariant elems == old(elems) && length == old(length) && elemType == old(elemType)
        invariant |items| <= |elems| && items == elems[..|items|]
        invariant cursor == Some(|items| - 1)
        decreases |elems| - |items|
      {
        var step := it.Next();
        if step.StopIteration? {
          return;
        }
        items := items + [step.value];
      }
    }
  }

  /** Joining the `str()` of the elements ends with the last element, after
      the join of the others and one delimiter. */
  lemma JoinLast(s: seq<Value>, delimiter: string)
    ensures |s| == 1 ==> JoinStrings(Shown(s), delimiter) == Show(s[0])
    ensures |s| >= 2 ==>
      JoinStrings(Shown(s), delimiter)
        == JoinStrings(Shown(s[..|s| - 1]), delimiter) + delimiter + Show(s[|s| - 1])
  {
    if |s| >= 2 {
      var init := s[..|s| - 1];
      assert Shown(s) == Shown(init) + [Show(s[|s| - 1])];
      JoinSnoc(Shown(init), Show(s[|s| - 1]), delimiter);
    }
  }

  /** `IteratorFactory([1, 2, 3]).join(",")` is `"1,2,3"`. */
  lemma JoinExample(f: IteratorFactory)
    requires f.elems == [Int(1), Int(2), Int(3)]
    ensures f.Join(",") == "1,2,3"
  {
    assert DigitChar(1) == '1' && DigitChar(2) == '2' && DigitChar(3) == '3';
    assert Show(Int(1)) == "1" && Show(Int(2)) == "2" && Show(Int(3)) == "3";
    assert Shown(f.elems) == ["1", "2", "3"];
    assert JoinStrings(["1", "2", "3"], ",") == "1," + JoinStrings(["2", "3"], ",");
  }
}
