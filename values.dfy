/** The Python values an IteratorFactory holds, the `type()` of a value, and
    the `str()` / `repr()` text of a value. */
module Values {
  import opened Text
  import opened Wrappers

  /** The values the modelled code stores: ints, strings, booleans and lists. */
  datatype Value = Int(i: int) | Str(s: string) | Bool(b: bool) | ListV(items: seq<Value>)

  /** What `type(v)` distinguishes (`bool` is its own type, not `int`). */
  datatype TypeTag = IntType | StrType | BoolType | ListType

  function TypeOf(v: Value): TypeTag
  {
    match v
    case Int(_) => IntType
    case Str(_) => StrType
    case Bool(_) => BoolType
    case ListV(_) => ListType
  }

  /** `{type(e) for e in s}`: the distinct types occurring in s. */
  function TypeSet(s: seq<Value>): set<TypeTag>
  {
    set i | 0 <= i < |s| :: TypeOf(s[i])
  }

  /** Every element has the type of the first one, and there is a first one. */
  predicate OneType(s: seq<Value>)
  {
    |s| > 0 && forall i :: 0 <= i < |s| ==> TypeOf(s[i]) == TypeOf(s[0])
  }

  /** Exactly one distinct type occurs iff the sequence is non-empty and
      every element has the type of the first one. */
  lemma OneTypeIff(s: seq<Value>)
    ensures |TypeSet(s)| == 1 <==> OneType(s)
  {
    if |s| == 0 {
      assert TypeSet(s) == {};
    } else {
      var t := TypeOf(s[0]);
      assert t in TypeSet(s);
      if forall i :: 0 <= i < |s| ==> TypeOf(s[i]) == t {
        assert TypeSet(s) == {t};
      } else {
        var k :| 0 <= k < |s| && TypeOf(s[k]) != t;
        assert TypeOf(s[k]) in TypeSet(s) - {t};
        assert |TypeSet(s) - {t}| == |TypeSet(s)| - 1;
      }
    }
  }

  /** `repr(v)`: how a value is written inside the text of a list. */
  function Repr(v: Value): string
    decreases v
  {
    match v
    case Int(i) => IntToString(i)
    case Str(s) => "'" + s + "'"
    case Bool(b) => if b then "True" else "False"
    case ListV(items) =>
      "[" + JoinStrings(seq(|items|, k requires 0 <= k < |items| => Repr(items[k])), ", ") + "]"
  }

  /** `str(v)`: a string is its own text, every other value its repr. */
  function Show(v: Value): string
  {
    match v
    case Str(s) => s
    case _ => Repr(v)
  }

  /** `str(t)` for a type object, and `'None'` for no type. */
  function TypeName(t: Option<TypeTag>): string
  {
    match t
    case None => "None"
    case Some(IntType) => "<class 'int'>"
    case Some(StrType) => "<class 'str'>"
    case Some(BoolType) => "<class 'bool'>"
    case Some(ListType) => "<class 'list'>"
  }

  /** The strings as Python `str` values. */
  function StrValues(names: seq<string>): (r: seq<Value>)
    ensures |r| == |names|
    ensures forall i :: 0 <= i < |r| ==> r[i] == Str(names[i])
  {
    seq(|names|, i requires 0 <= i < |names| => Str(names[i]))
  }
}
