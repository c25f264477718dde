# DataWarehouseTools core, modelled in Dafny

This project models three parts of the DataWarehouseTools helpers:

- **`IteratorFactory`** (`MyDataStructure.py`). It is a container that owns a list of values.
  - Construction refuses the list unless all its elements have one type. Because the check asks for exactly one type, an empty list is refused too.
  - Queries: duplicate detection and listing, index location, `len`, `to_list`, `to_set`.
  - Updates: a bounds-checked update of one position; `map` and `zip`, each either in place or into a new factory.
  - Output: `join`, a numbered rendering (`__str__`, counted by the nested `__Accumulator`) and restartable iteration (`__iter__`/`__next__`).
- **The SQL DDL generator** (`Table.py`). `Column` and `Table` are records. `SqlTools.generate_sql_create_table` drives a factory through `zip`, `map` and `join` to build a Hive or PostgreSQL `CREATE TABLE` statement.
- **Character-class string utilities** (`SmallTools.py`):
  - splitting a string into maximal runs of digits, ASCII letters and other characters;
  - testing for a digit or a letter;
  - deleting digits or the symbols `_`, `(` and `)`.

Python values are the datatype `Values.Value`: `Int | Str | Bool | ListV`. `Values.TypeOf` stands in for `type()` and `isinstance(…, list)`. Python's `str()` is `Values.Show`: a string is shown as itself, any other value as its `repr` (`Values.Repr`).

Every exception the core can raise is a constructor of `Errors.Error`. Operations that raise return a `Result` or an `Outcome`. `IteratorFactory` is a Dafny class whose fields are the Python object's private attributes:

- `elems` is `__elem_list`;
- `length` is `__length`;
- `elemType` is `__elem_type`;
- `cursor` is `__index`. It is an `Option` because the attribute does not exist until `__iter__` runs.

Its methods state the whole new state. The specification functions of module `FactorySpec` carry the lemmas about what the factory's queries return.

Modules:

- `Wrappers`: `Option`, `Result`, `Outcome`.
- `Errors`: the exceptions.
- `Text`: joining strings, decimal rendering of integers.
- `Values`: Python values, their types and `str()`.
- `FactorySpec`: what the factory operations compute, and the lemmas about it.
- `MyDataStructure`: the `IteratorFactory` and `Accumulator` classes.
- `Tables`: the table records and the DDL generator.
- `SmallTools`: the string utilities.

Two behaviours of the code that the model keeps:

- An empty list is refused. The type check asks for exactly one element type (MyDataStructure.py:43), and an empty list has none.
- Duplicate column names are not checked. `TableColumnNameCanNotBeSameException` (MyException.py:45-47) is never raised by the core.

The records of Table.py are datatypes with one field per attribute:

- `Tables.Column` (Table.py:6-20) holds the name, type and comment lists.
- `Tables.Table` (Table.py:23-45) holds the table name, the schema name, an optional `Column`, the table comment, the field delimiter and the file type.

## Model

| member | source | states |
|---|---|---|
| `MyDataStructure.IteratorFactory.New` | DataWarehouseTools/MyDataStructure.py:7-15 | Construction succeeds iff the input is non-empty and all its elements have one type. Otherwise the error carries the set of types found, which is `{}` for an empty input. On success the factory is new, holds the input, its length is the input's length (at least 1), its element type is the type of element 0, and no iteration has started. |
| `MyDataStructure.IteratorFactory.constructor` | DataWarehouseTools/MyDataStructure.py:12-15 | Once the type check has passed, the fields are set as above and the invariant holds. |
| `MyDataStructure.IteratorFactory.CheckIfElemOneType` | DataWarehouseTools/MyDataStructure.py:35-44 | The loop collects exactly the set of element types. It passes iff that set has one member; otherwise it fails with that set. |
| `Values.OneTypeIff` | DataWarehouseTools/MyDataStructure.py:40-44 | There is exactly one type tag iff the list is non-empty and every element has the type of element 0. |
| `MyDataStructure.IteratorFactory.GetElemType` | DataWarehouseTools/MyDataStructure.py:17-25 | None exactly for an empty list, else the type of element 0. |
| `MyDataStructure.IteratorFactory.UpdateAllInfo` | DataWarehouseTools/MyDataStructure.py:27-33 | The cached length becomes the list's length and the cached type that of element 0. Elements and cursor are untouched. |
| `MyDataStructure.IteratorFactory.IfHaveSameElem` | DataWarehouseTools/MyDataStructure.py:46-51 | TypeError iff some element is a list (unhashable). Otherwise true iff two positions hold equal values. |
| `FactorySpec.DupFacts` | DataWarehouseTools/MyDataStructure.py:51 | The set of elements is never larger than the list. It has the list's size iff no value repeats. A value repeats iff some value occurs more than once. |
| `MyDataStructure.IteratorFactory.GetSameElem` | DataWarehouseTools/MyDataStructure.py:53-65 | TypeError iff some element is a list. Otherwise counting followed by the filter loop yields exactly `SameElems` of the list. |
| `MyDataStructure.CountAll` | DataWarehouseTools/MyDataStructure.py:60 | `dict(Counter(…))`: TypeError iff some element is a list. Otherwise the keys are the distinct elements in first-seen order, and each key maps to its exact number of occurrences. |
| `FactorySpec.SameElemsSpec` | DataWarehouseTools/MyDataStructure.py:53-65 | The returned values are exactly those occurring more than once. Each appears once, in order of first occurrence in the list. |
| `FactorySpec.SameElemsExample` | DataWarehouseTools/MyDataStructure.py:53-65 | For distinct values a, b and c, `[a, a, b, c, c, c]` gives `[a, c]`, so `[1, 1, 2, 3, 3, 3]` gives `[1, 3]`. |
| `FactorySpec.TwoRepeated` | DataWarehouseTools/MyDataStructure.py:53-65 | When exactly two values a and c occur more than once, and a is seen first, the result is `[a, c]`. |
| `FactorySpec.SameElemsNonEmptyIff` | DataWarehouseTools/MyDataStructure.py:46-65 | `get_same_elem` is non-empty iff `if_have_same_elem` holds. |
| `FactorySpec.DedupOrdered` | DataWarehouseTools/MyDataStructure.py:60 | The Counter's keys are the distinct elements, in order of first occurrence. |
| `FactorySpec.KeepRepeatedOrdered` | DataWarehouseTools/MyDataStructure.py:61-64 | Filtering the keys by count keeps their first-seen order. |
| `FactorySpec.Dedup` | DataWarehouseTools/MyDataStructure.py:60 | The keys hold exactly the values of the list. |
| `FactorySpec.KeepRepeated` | DataWarehouseTools/MyDataStructure.py:61-64 | A value is kept iff it is a key counted more than once. |
| `FactorySpec.FirstIndex` | DataWarehouseTools/MyDataStructure.py:60 | The position of the first occurrence of a value: it holds the value and no earlier position does. |
| `FactorySpec.FirstSeenOrderHasNoDup` | DataWarehouseTools/MyDataStructure.py:60-64 | A sequence in first-seen order repeats no value. |
| `MyDataStructure.IteratorFactory.LocateElem` | DataWarehouseTools/MyDataStructure.py:67-77 | Returns exactly the indices holding the value, strictly ascending. The result is empty iff the value is absent. |
| `MyDataStructure.IteratorFactory.UpdateElem` | DataWarehouseTools/MyDataStructure.py:79-91 | A negative index, or one at or past the length, fails with the index and length and leaves the list unchanged. Otherwise exactly that position takes the new value. Length, cached type and cursor never change, and there is no new type check. |
| `MyDataStructure.IteratorFactory.Len` | DataWarehouseTools/MyDataStructure.py:93-98 | The number of elements, which is at least 1. |
| `MyDataStructure.IteratorFactory.Map` | DataWarehouseTools/MyDataStructure.py:100-114 | Results are built in order, position by position. In place: the list becomes them, the length stays, the cached type becomes that of the new element 0, there is no type check, and the factory itself is returned. Otherwise: the receiver is unchanged, and a new factory over them is built, which fails iff their types differ. On success the new factory's type is that of its element 0 and no iteration has started on it. |
| `FactorySpec.Mapped` | DataWarehouseTools/MyDataStructure.py:107 | Same length, and position i holds f applied to element i. |
| `MyDataStructure.IteratorFactory.Zip` | DataWarehouseTools/MyDataStructure.py:116-144 | Three cases, listed below the table: a length mismatch, a first zip, and a chained zip. |
| `FactorySpec.Pairs` | DataWarehouseTools/MyDataStructure.py:136-137 | Same length, and position i is `[e_i, other_i]`. |
| `FactorySpec.FirstNonList` | DataWarehouseTools/MyDataStructure.py:131-132 | The first position that does not hold a list, or the length if every position does. |
| `FactorySpec.AppendedUpTo` | DataWarehouseTools/MyDataStructure.py:131-133 | Same length. Position i below the cut is `e_i + [other_i]`; the rest are unchanged. |
| `MyDataStructure.IteratorFactory.Join` | DataWarehouseTools/MyDataStructure.py:146-152 | One element gives its `str()`. Two or more give the join of all but the last, then the delimiter, then the `str()` of the last, so the parts appear in order. The `str()` of element 0 comes first. The length is the total of the elements' `str()` plus one delimiter between each pair of neighbours. |
| `MyDataStructure.JoinLast` | DataWarehouseTools/MyDataStructure.py:152 | Joining the `str()` of two or more values is the join of all but the last, the delimiter, and the `str()` of the last. |
| `MyDataStructure.JoinExample` | DataWarehouseTools/MyDataStructure.py:146-152 | A factory over `[1, 2, 3]` joined by `","` gives `"1,2,3"`. |
| `Text.JoinLength` | DataWarehouseTools/MyDataStructure.py:152 | The length of a join of n ≥ 1 parts is their total length plus n-1 separators. |
| `Text.JoinSnoc` | DataWarehouseTools/MyDataStructure.py:152 | Joining one more part appends the separator and that part. |
| `MyDataStructure.IteratorFactory.ToList` | DataWarehouseTools/MyDataStructure.py:154-159 | The elements, in order, one per unit of `len()`. |
| `MyDataStructure.IteratorFactory.ToSet` | DataWarehouseTools/MyDataStructure.py:161-166 | TypeError iff some element is a list. Otherwise the set holds exactly the elements, is no larger than the list, and has the list's size iff no value repeats. |
| `MyDataStructure.IteratorFactory.ToString` | DataWarehouseTools/MyDataStructure.py:168-174 | A fresh `__Accumulator(-1, 1)` numbers the lines 0, 1, 2, …, because the loop keeps its value at i-1 before line i. The text is the header, one line per element (its number, a bar, a tab and its `str()`), then the length line and the element-type line. |
| `FactorySpec.NumberedLines` | DataWarehouseTools/MyDataStructure.py:170 | One line per element, and line i carries the number i and element i. |
| `Text.IntToString` | DataWarehouseTools/MyDataStructure.py:170 | Decimal text of an integer: non-empty, and starting with `-` iff the integer is negative. |
| `MyDataStructure.IteratorFactory.Iter` | DataWarehouseTools/MyDataStructure.py:176-178 | The cursor restarts at -1. The factory itself is returned, and nothing else changes. |
| `MyDataStructure.IteratorFactory.Next` | DataWarehouseTools/MyDataStructure.py:180-184 | See the two cases below. |
| `MyDataStructure.IteratorFactory.Collect` | DataWarehouseTools/MyDataStructure.py:176-184 | After `__iter__`, repeated `__next__` calls yield exactly the elements in order, then stop. The cursor ends at the length. |
| `MyDataStructure.Accumulator.constructor` | DataWarehouseTools/MyDataStructure.py:187-189 | Stores the start value and the step. |
| `MyDataStructure.Accumulator.MoveOneStep` | DataWarehouseTools/MyDataStructure.py:191-193 | Adds one step to the value and returns the new value. |
| `Tables.IfAddDot` | DataWarehouseTools/Table.py:47-48 | The empty string iff the schema name is empty, otherwise `"."`. |
| `Tables.GenerateSqlCreateTable` | DataWarehouseTools/Table.py:52-90 | See the checks in order below. |
| `Tables.CreateTableWithColumns` | DataWarehouseTools/Table.py:59-89 | Both dialect branches, with the same error cases and results as above, given column information. |
| `Tables.PgComments` | DataWarehouseTools/Table.py:79-84 | A comment list whose length differs from the name list fails with the zip error. Otherwise the result is the `"\n"`-join of the mapped name/comment pairs. |
| `Tables.DdlPrefix` | DataWarehouseTools/Table.py:66-89 | Both the Hive and the PostgreSQL statement begin with `CREATE TABLE IF NOT EXISTS <schema><dot><table> (`. |
| `Tables.HiveFormat` | DataWarehouseTools/Table.py:64 | A list of at least three values becomes the Hive column line of its first three `str()`s (name, type, comment). Anything else is returned unchanged. |
| `Tables.PgFormat` | DataWarehouseTools/Table.py:76 | A list of at least two values becomes the PostgreSQL column line of its first two `str()`s (name, type). Anything else is returned unchanged. |
| `Tables.PgCommentFormat` | DataWarehouseTools/Table.py:81-83 | A list of at least two values becomes the `COMMENT ON COLUMN` line of the table for its first two `str()`s (name, comment). Anything else is returned unchanged. |
| `Tables.HiveDdl` | DataWarehouseTools/Table.py:66-71 | The Hive statement opens with the `CREATE TABLE` line, a newline and the column block, and ends with a newline and `;`. |
| `Tables.PgDdl` | DataWarehouseTools/Table.py:85-89 | The PostgreSQL statement opens with the `CREATE TABLE` line, a newline and the column block, and ends with a newline and the column-comment block. |
| `Tables.HiveRows` | DataWarehouseTools/Table.py:61-65 | Zipping names with types and then comments, mapping the Hive lambda and joining with `",\n"` gives the Hive column block. Line i is built from name i, type i and comment i, in column order. |
| `Tables.PgRows` | DataWarehouseTools/Table.py:74-84 | The same for the PostgreSQL column block (`"\t"+name_i+"\t"+type_i`, joined by `",\n"`). Also for the comment block (`COMMENT ON COLUMN <schema><dot><table>.<name_i> IS '<comment_i>';`, joined by `"\n"`). |
| `SmallTools.SplitNumLetterChineseCharacter` | DataWarehouseTools/SmallTools.py:45-76 | The flag loop and the cut loop return exactly `Runs` of the input. |
| `SmallTools.Runs` | DataWarehouseTools/SmallTools.py:65-76 | Empty iff the input is empty, and every piece is non-empty. |
| `SmallTools.RunsConcat` | DataWarehouseTools/SmallTools.py:65-76 | The pieces concatenate back to the input. |
| `SmallTools.RunsUniform` | DataWarehouseTools/SmallTools.py:55-63 | Every piece has one character class (digit, ASCII letter or other). The last piece has the class of the input's last character. |
| `SmallTools.SplitExtend` | DataWarehouseTools/SmallTools.py:70-71 | A character of the open run's class extends that run. |
| `SmallTools.SplitOpen` | DataWarehouseTools/SmallTools.py:72-75 | A character of another class (or the first character) opens a new run after the closed ones. |
| `SmallTools.RunsMaximal` | DataWarehouseTools/SmallTools.py:72-75 | Neighbouring pieces have different classes, so the pieces are maximal runs. |
| `SmallTools.ClassOf` | DataWarehouseTools/SmallTools.py:55-63 | The class is Digit iff the character is `0`-`9`, Letter iff it is an ASCII letter, and Other otherwise. |
| `SmallTools.IfHaveNum` | DataWarehouseTools/SmallTools.py:79-89 | True iff some character is `0`-`9`, false for the empty string. |
| `SmallTools.IfHaveLetter` | DataWarehouseTools/SmallTools.py:92-104 | True iff some character is in `a`-`z` or `A`-`Z`. |
| `SmallTools.RemoveAllNum` | DataWarehouseTools/SmallTools.py:107-116 | The ten chained `replace` calls compute exactly the input with its digits deleted. No digit remains, and every other character keeps its number of occurrences. |
| `SmallTools.RemoveAllNumIdempotent` | DataWarehouseTools/SmallTools.py:113-116 | Removing digits twice is the same as once. |
| `SmallTools.RemoveAllSymbol` | DataWarehouseTools/SmallTools.py:36-42 | The three chained `replace` calls compute exactly the input with `_`, `(` and `)` deleted. None of them remains, and every other character keeps its count. |
| `SmallTools.ReplaceWithEmpty` | DataWarehouseTools/SmallTools.py:42 | `replace(c, "")` leaves no c, and every other character keeps its number of occurrences. |
| `SmallTools.ReplaceEach` | DataWarehouseTools/SmallTools.py:113-116 | A chain of such replacements leaves no character of the list, and every character not in the list keeps its number of occurrences. |
| `SmallTools.ReplaceEachIsWithout` | DataWarehouseTools/SmallTools.py:113-116 | A chain of `replace(c, "")` calls, one per character of a list, equals deleting every character of that list. |
| `SmallTools.ReplaceAfterWithout` | DataWarehouseTools/SmallTools.py:42 | One more `replace(c, "")` after deleting a set of characters deletes the set plus c. |
| `SmallTools.WithoutCounts` | DataWarehouseTools/SmallTools.py:42 | After deletion no deleted character remains, and every other character keeps its count. |
| `SmallTools.WithoutIdempotent` | DataWarehouseTools/SmallTools.py:113-116 | Deleting the same characters twice is the same as once. |
| `SmallTools.DigitCharsAreDigits` | DataWarehouseTools/SmallTools.py:113-116 | The ten replaced characters are exactly the characters `0`-`9`. |

The cases of `MyDataStructure.IteratorFactory.Zip`:

- Lengths differ: the zip error, with nothing changed.
- Element 0 is not a list: the result is `[e_i, other_i]` for each i. In place, the factory holds these pairs and its type becomes list. Otherwise a new factory holds them, with type list and no iteration started, and the receiver is unchanged.
- Element 0 is a list: `other_i` is appended to each list `e_i` of the receiver itself, in place or not, up to the first element that is not a list.
  - If such an element exists, the call fails there with AttributeError naming its type, and the lengths and cached type are kept.
  - If not, the call either returns the factory itself or a new factory over the same lists, with type list and no iteration started.

The cases of `MyDataStructure.IteratorFactory.Next`:

- Before any `__iter__`: AttributeError, with nothing changed.
- Otherwise the cursor advances by one. The call yields the element under it, or StopIteration once the cursor is at or past the end.

The checks of `Tables.GenerateSqlCreateTable`, in order:

1. A dialect other than `hive` or `pg` fails with the unsupported-dialect error, before anything else is looked at.
2. Missing column information fails next.
3. An empty name list fails with the factory's type error (with the empty type set).
4. A type list of the wrong length fails with the zip error.
5. After that, a comment list of the wrong length fails with the zip error.
6. Otherwise the result is the Hive statement (`HiveDdl` around the Hive column block) or the PostgreSQL statement (`PgDdl` around the column block and the comment block).

Every statement starts with `CREATE TABLE IF NOT EXISTS <schema><dot><table> (`.

## Left out

- **I/O, the clock and printing.** `get_today`, `save_as_file`, `print_iter_with_index`, `print_iter` and the `__main__` blocks are not part of this model. The `Accumulator` class of SmallTools.py is not part of it either. A trailing comma in its constructor stores the start value as a one-element tuple, so `move_one_step` can only raise.
- **Exception messages.** The text produced by the exceptions' `__str__` is not modelled. Each exception is a constructor of `Errors.Error`, carrying the offending index, types or dialect where the code passes them.
- `MyDataStructure.IteratorFactory.Zip`: reports a length mismatch as the zip error `LengthNotMatchToZip`. The code raises the bare class `LengthNotMatchToZipException`, whose constructor needs two arguments, so Python would raise a TypeError about missing arguments at that point instead. The model keeps the evident intent.
- **Aliasing.** Only one shared list is modelled: the chained `zip` appends to the lists of the receiver even when it is not in place. Other sharing is not modelled:
  - inner lists shared with the caller's input or between two factories;
  - `to_list` returning the factory's own list, whose later mutation by the caller would show through.
- **Python equality and hashing.** Equality is structural on `Value`, so `1 == True` and hash collisions are not modelled. Lists are the only unhashable values.
- **`repr` details.** The `repr` of a string nested in a list is always single-quoted, with no escaping. Booleans print as `True`/`False` and integers in decimal.
- `MyDataStructure.IteratorFactory.Map`: the function passed to `map` is a total, pure Dafny function. A lambda that raises or has side effects is not modelled.
- `Tables.HiveFormat`, `Tables.PgFormat`, `Tables.PgCommentFormat`: element shapes that the lambdas would fail to index are returned unchanged rather than raising. After the zips those shapes cannot occur.
- **`None` column lists.** `Column`'s type and comment lists default to `None` (Table.py:9-10). The model has lists only, so the TypeError that `zip` would raise on `None` is not modelled.
- **Default arguments.** The model has no optional parameters, so every Python default is passed explicitly. These are `Table`'s `_schema_name=""`, `_table_comment=""`, `_delimiter="|"` and `_file_type="textFile"` (Table.py:26-30), and `inplace=True` of `map` and `zip` (MyDataStructure.py:100, 116).
- **Concurrency.** Iterating one factory from two places at once is not modelled. The factory is its own iterator, and the cursor is a single field.
