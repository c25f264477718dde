/** The character-class string utilities of SmallTools.py. */
module SmallTools {
  import opened Text

  predicate IsDigit(c: char)
  {
    '0' <= c <= '9'
  }

  predicate IsLetter(c: char)
  {
    'a' <= c <= 'z' || 'A' <= c <= 'Z'
  }

  /** The three flags of `split_num_letter_chinese_character`: 0, 1 and 2. */
  datatype CharClass = Digit | Letter | Other

  function ClassOf(c: char): (k: CharClass)
    ensures k == Digit <==> IsDigit(c)
    ensures k == Letter <==> IsLetter(c)
  {
    if IsDigit(c) then Digit else if IsLetter(c) then Letter else Other
  }

  // ---------------------------------------------------------------------
  // split_num_letter_chinese_character

  /** The maximal runs of one character class, read from left to right: the
      next character joins the last run when it has that run's class and
      starts a new run otherwise. */
  function Runs(s: string): (r: seq<string>)
    ensures |r| == 0 <==> |s| == 0
    ensures forall i :: 0 <= i < |r| ==> |r[i]| > 0
    decreases |s|
  {
    if |s| == 0 then []
    else
      var p, c := s[..|s| - 1], s[|s| - 1];
      var rest := Runs(p);
      if |p| > 0 && ClassOf(p[|p| - 1]) == ClassOf(c) then rest[..|rest| - 1] + [rest[|rest| - 1] + [c]]
      else rest + [[c]]
  }

  /** One more character either extends the last run or opens a new one. */
  lemma RunsLast(s: string)
    requires |s| > 0
    ensures
      var p, c := s[..|s| - 1], s[|s| - 1];
      var rest := Runs(p);
      Runs(s) == if |p| > 0 && ClassOf(p[|p| - 1]) == ClassOf(c) then rest[..|rest| - 1] + [rest[|rest| - 1] + [c]]
                 else rest + [[c]]
  {
  }

  lemma RunsSnoc(p: string, c: char)
    ensures
      var rest := Runs(p);
      Runs(p + [c]) == if |p| > 0 && ClassOf(p[|p| - 1]) == ClassOf(c) then rest[..|rest| - 1] + [rest[|rest| - 1] + [c]]
                       else rest + [[c]]
  {
    assert (p + [c])[..|p|] == p;
  }

  /** The runs concatenate back to the string. */
  lemma {:induction false} RunsConcat(s: string)
    ensures JoinStrings(Runs(s), "") == s
    decreases |s|
  {
    if |s| > 0 {
      var p, c := s[..|s| - 1], s[|s| - 1];
      assert s == p + [c];
      RunsConcat(p);
      RunsLast(s);
      var rest := Runs(p);
      if |p| > 0 && ClassOf(p[|p| - 1]) == ClassOf(c) {
        var m := |rest| - 1;
        var init, last := rest[..m], rest[m];
        assert rest == init + [last];
        if m == 0 {
          assert JoinStrings(rest, "") == last;
          assert Runs(s) == [last + [c]];
        } else {
          JoinSnoc(init, last, "");
          JoinSnoc(init, last + [c], "");
        }
      } else {
        if |rest| == 0 {
          assert Runs(s) == [[c]];
        } else {
          JoinSnoc(rest, [c], "");
        }
      }
    }
  }

  /** A non-empty piece whose characters all have one class. */
  predicate Uniform(piece: string)
  {
    |piece| > 0 && forall j :: 0 <= j < |piece| ==> ClassOf(piece[j]) == ClassOf(piece[0])
  }

  /** A character of a uniform piece's class keeps the piece uniform. */
  lemma UniformGrow(last: string, c: char)
    requires Uniform(last) && ClassOf(c) == ClassOf(last[0])
    ensures Uniform(last + [c]) && (last + [c])[0] == last[0]
  {
    var grown := last + [c];
    forall j | 0 <= j < |grown| ensures ClassOf(grown[j]) == ClassOf(grown[0]) {
      if j < |last| { assert grown[j] == last[j]; }
    }
  }

  /** Appending a uniform piece to uniform pieces. */
  lemma UniformSnoc(r: seq<string>, piece: string)
    requires forall i :: 0 <= i < |r| ==> Uniform(r[i])
    requires Uniform(piece)
    ensures forall i :: 0 <= i < |r + [piece]| ==> Uniform((r + [piece])[i])
  {
    forall i | 0 <= i < |r + [piece]| ensures Uniform((r + [piece])[i]) {
      if i < |r| { assert (r + [piece])[i] == r[i]; }
    }
  }

  /** Every run is non-empty and of one class, and the last run has the class
      of the last character. */
  lemma {:induction false} RunsUniform(s: string)
    ensures forall i :: 0 <= i < |Runs(s)| ==> Uniform(Runs(s)[i])
    ensures |s| > 0 ==> ClassOf(Runs(s)[|Runs(s)| - 1][0]) == ClassOf(s[|s| - 1])
    decreases |s|
  {
    if |s| > 0 {
      var p, c := s[..|s| - 1], s[|s| - 1];
      RunsUniform(p);
      RunsLast(s);
      var rest := Runs(p);
      if |p| > 0 && ClassOf(p[|p| - 1]) == ClassOf(c) {
        var m := |rest| - 1;
        var init, last := rest[..m], rest[m];
        assert Uniform(last);
        UniformGrow(last, c);
        assert forall i :: 0 <= i < |init| ==> init[i] == rest[i];
        UniformSnoc(init, last + [c]);
      } else {
        assert Uniform([c]);
        UniformSnoc(rest, [c]);
      }
    }
  }

  /** Consecutive runs have different classes, so no run could be longer. */
  lemma {:induction false} RunsMaximal(s: string)
    ensures forall i :: 0 <= i < |Runs(s)| - 1 ==> ClassOf(Runs(s)[i][0]) != ClassOf(Runs(s)[i + 1][0])
    decreases |s|
  {
    if |s| > 0 {
      var p, c := s[..|s| - 1], s[|s| - 1];
      RunsMaximal(p);
      RunsUniform(p);
      RunsLast(s);
      var rest := Runs(p);
      var r := Runs(s);
      if |p| > 0 && ClassOf(p[|p| - 1]) == ClassOf(c) {
        var m := |rest| - 1;
        forall i | 0 <= i < |r| - 1 ensures ClassOf(r[i][0]) != ClassOf(r[i + 1][0]) {
          assert r[i] == rest[i];
          if i + 1 < m { assert r[i + 1] == rest[i + 1]; } else { assert r[i + 1][0] == rest[m][0]; }
        }
      } else {
        forall i | 0 <= i < |r| - 1 ensures ClassOf(r[i][0]) != ClassOf(r[i + 1][0]) {
          assert r[i] == rest[i];
          if i + 1 < |rest| { assert r[i + 1] == rest[i + 1]; }
        }
      }
    }
  }

  /** One step of the cutting loop: the run still open before character i,
      extended by that character, completes the runs of the prefix up to i. */
  lemma SplitStep(s: string, i: nat, done: seq<string>, open: string)
    requires i < |s|
    requires i == 0 ==> open == [] && done == []
    requires 0 < i ==> (open == [] <==> ClassOf(s[i - 1]) != ClassOf(s[i]))
    requires done + (if open == [] then [] else [open]) == Runs(s[..i])
    ensures done + [open + [s[i]]] == Runs(s[..i + 1])
  {
    var p := s[..i];
    assert s[..i + 1] == p + [s[i]];
    if i > 0 && ClassOf(s[i - 1]) == ClassOf(s[i]) {
      assert p[|p| - 1] == s[i - 1];
      SplitExtend(p, s[i], done, open);
    } else {
      assert open + [s[i]] == [s[i]];
      SplitOpen(p, s[i], done);
    }
  }

  /** A character of the open run's class extends that run. */
  lemma SplitExtend(p: string, c: char, done: seq<string>, open: string)
    requires |p| > 0 && ClassOf(p[|p| - 1]) == ClassOf(c)
    requires done + [open] == Runs(p)
    ensures done + [open + [c]] == Runs(p + [c])
  {
    RunsSnoc(p, c);
    var rest := Runs(p);
    assert rest[..|rest| - 1] == done;
  }

  /** A character of another class opens a new run. */
  lemma SplitOpen(p: string, c: char, done: seq<string>)
    requires |p| == 0 || ClassOf(p[|p| - 1]) != ClassOf(c)
    requires done == Runs(p)
    ensures done + [[c]] == Runs(p + [c])
  {
    RunsSnoc(p, c);
  }

  method SplitNumLetterChineseCharacter(inputStr: string) returns (resultList: seq<string>)
    ensures resultList == Runs(inputStr)
  {
    var n := |inputStr|;
    var flagList: seq<CharClass> := [];
    for i := 0 to n
      invariant |flagList| == i
      invariant forall j :: 0 <= j < i ==> flagList[j] == ClassOf(inputStr[j])
    {
      flagList := flagList + [ClassOf(inputStr[i])];
    }
    var tempStr: string := "";
    resultList := [];
    for i := 0 to |flagList|
      invariant n == 0 || i < n
      invariant i == 0 ==> tempStr == [] && resultList == []
      invariant 0 < i ==> (tempStr == [] <==> ClassOf(inputStr[i - 1]) != ClassOf(inputStr[i]))
      invariant resultList + (if tempStr == [] then [] else [tempStr]) == Runs(inputStr[..i])
    {
      SplitStep(inputStr, i, resultList, tempStr);
      tempStr := tempStr + [inputStr[i]];
      if i + 1 == |flagList| {
        resultList := resultList + [tempStr];
        assert inputStr[..i + 1] == inputStr;
        break;
      } else if flagList[i] == flagList[i + 1] {
      } else {
        resultList := resultList + [tempStr];
        tempStr := "";
      }
    }
  }

  // ---------------------------------------------------------------------
  // if_have_num, if_have_letter

  /** `if_have_num`: return True at the first digit, False if there is none. */
  method IfHaveNum(inputStr: string) returns (r: bool)
    ensures r <==> exists i :: 0 <= i < |inputStr| && IsDigit(inputStr[i])
  {
    for i := 0 to |inputStr|
      invariant forall j :: 0 <= j < i ==> !IsDigit(inputStr[j])
    {
      if IsDigit(inputStr[i]) {
        return true;
      }
    }
    return false;
  }

  /** `if_have_letter`: return True at the first ASCII letter, False if there is none. */
  method IfHaveLetter(inputStr: string) returns (r: bool)
    ensures r <==> exists i :: 0 <= i < |inputStr| && IsLetter(inputStr[i])
  {
    for i := 0 to |inputStr|
      invariant forall j :: 0 <= j < i ==> !IsLetter(inputStr[j])
    {
      if IsLetter(inputStr[i]) {
        return true;
      }
    }
    return false;
  }

  // ---------------------------------------------------------------------
  // remove_all_num, remove_all_symbol

  /** `s.replace(c, "")` for a one-character pattern. */
  function ReplaceWithEmpty(s: string, c: char): (r: string)
    ensures c !in r
    ensures forall x :: x != c ==> multiset(r)[x] == multiset(s)[x]
  {
    if |s| == 0 then ""
    else
      assert s == [s[0]] + s[1..];
      (if s[0] == c then "" else [s[0]]) + ReplaceWithEmpty(s[1..], c)
  }

  /** One deleting replacement per character of cs, applied in the order of cs. */
  function ReplaceEach(s: string, cs: string): (r: string)
    ensures forall x :: x in cs ==> x !in r
    ensures forall x :: x !in cs ==> multiset(r)[x] == multiset(s)[x]
    decreases |cs|
  {
    if |cs| == 0 then s else ReplaceEach(ReplaceWithEmpty(s, cs[0]), cs[1..])
  }

  /** s with every character of cs deleted and the others kept in order. */
  function Without(s: string, cs: set<char>): string
  {
    if |s| == 0 then "" else (if s[0] in cs then "" else [s[0]]) + Without(s[1..], cs)
  }

  lemma {:induction false} ReplaceAfterWithout(s: string, cs: set<char>, c: char)
    ensures ReplaceWithEmpty(Without(s, cs), c) == Without(s, cs + {c})
  {
    if |s| > 0 {
      ReplaceAfterWithout(s[1..], cs, c);
      var w := Without(s[1..], cs);
      if s[0] in cs {
        assert Without(s, cs) == w;
        assert Without(s, cs + {c}) == Without(s[1..], cs + {c});
      } else {
        assert Without(s, cs) == [s[0]] + w;
        assert ([s[0]] + w)[0] == s[0] && ([s[0]] + w)[1..] == w;
        if s[0] == c {
          assert Without(s, cs + {c}) == Without(s[1..], cs + {c});
        } else {
          assert Without(s, cs + {c}) == [s[0]] + Without(s[1..], cs + {c});
        }
      }
    }
  }

  lemma {:induction false} ReplaceEachWithout(s: string, done: set<char>, cs: string)
    ensures ReplaceEach(Without(s, done), cs) == Without(s, done + set c | c in cs)
    decreases |cs|
  {
    if |cs| == 0 {
      assert done + (set c | c in cs) == done;
    } else {
      ReplaceAfterWithout(s, done, cs[0]);
      ReplaceEachWithout(s, done + {cs[0]}, cs[1..]);
      assert done + {cs[0]} + (set c | c in cs[1..]) == done + set c | c in cs;
    }
  }

  lemma {:induction false} WithoutEmpty(s: string)
    ensures Without(s, {}) == s
  {
    if |s| > 0 {
      WithoutEmpty(s[1..]);
    }
  }

  /** The chained replacements delete exactly the characters they name. */
  lemma ReplaceEachIsWithout(s: string, cs: string)
    ensures ReplaceEach(s, cs) == Without(s, set c | c in cs)
  {
    WithoutEmpty(s);
    ReplaceEachWithout(s, {}, cs);
    assert {} + (set c | c in cs) == set c | c in cs;
  }

  /** What is left contains no character of cs and exactly the occurrences of
      every other character. */
  lemma {:induction false} WithoutCounts(s: string, cs: set<char>)
    ensures forall i :: 0 <= i < |Without(s, cs)| ==> Without(s, cs)[i] !in cs
    ensures forall x :: x !in cs ==> multiset(Without(s, cs))[x] == multiset(s)[x]
  {
    if |s| > 0 {
      WithoutCounts(s[1..], cs);
      assert s == [s[0]] + s[1..];
      assert multiset(s) == multiset{s[0]} + multiset(s[1..]);
    }
  }

  lemma {:induction false} WithoutIdempotent(s: string, cs: set<char>)
    ensures Without(Without(s, cs), cs) == Without(s, cs)
  {
    if |s| > 0 {
      WithoutIdempotent(s[1..], cs);
      var w := Without(s[1..], cs);
      if s[0] in cs {
        assert Without(s, cs) == w;
      } else {
        var u := [s[0]] + w;
        assert Without(s, cs) == u;
        assert u[0] == s[0] && u[1..] == w;
        assert Without(u, cs) == [s[0]] + Without(w, cs);
      }
    }
  }

  const DigitChars: string := "0123456789"
  const SymbolChars: string := "_()"

  lemma DigitCharsAreDigits()
    ensures forall c :: c in DigitChars <==> IsDigit(c)
  {
    forall c | IsDigit(c) ensures c in DigitChars {
      var k := c as int - '0' as int;
      assert 0 <= k < 10;
      assert DigitChars[k] == c;
    }
  }

  /** `remove_all_num`: the digits deleted one after another, '0' first. */
  function RemoveAllNum(inputStr: string): (r: string)
    ensures r == Without(inputStr, set c | c in DigitChars)
    ensures forall i :: 0 <= i < |r| ==> !IsDigit(r[i])
    ensures forall x :: !IsDigit(x) ==> multiset(r)[x] == multiset(inputStr)[x]
  {
    ReplaceEachIsWithout(inputStr, DigitChars);
    WithoutDigits(inputStr);
    ReplaceEach(inputStr, DigitChars)
  }

  /** Deleting the ten digit characters leaves no digit and keeps every other
      character's count. */
  lemma WithoutDigits(s: string)
    ensures var r := Without(s, set c | c in DigitChars);
      && (forall i :: 0 <= i < |r| ==> !IsDigit(r[i]))
      && (forall x :: !IsDigit(x) ==> multiset(r)[x] == multiset(s)[x])
  {
    WithoutCounts(s, set c | c in DigitChars);
    DigitCharsAreDigits();
  }

  /** Removing the digits a second time changes nothing. */
  lemma RemoveAllNumIdempotent(s: string)
    ensures RemoveAllNum(RemoveAllNum(s)) == RemoveAllNum(s)
  {
    WithoutIdempotent(s, set c | c in DigitChars);
  }

  /** `remove_all_symbol`: '_', then '(', then ')' deleted. */
  function RemoveAllSymbol(inputStr: string): (r: string)
    ensures r == Without(inputStr, {'_', '(', ')'})
    ensures forall i :: 0 <= i < |r| ==> r[i] != '_' && r[i] != '(' && r[i] != ')'
    ensures forall x :: x != '_' && x != '(' && x != ')' ==> multiset(r)[x] == multiset(inputStr)[x]
  {
    ReplaceEachIsWithout(inputStr, SymbolChars);
    assert (set c | c in SymbolChars) == {'_', '(', ')'};
    WithoutCounts(inputStr, {'_', '(', ')'});
    ReplaceEach(inputStr, SymbolChars)
  }
}
