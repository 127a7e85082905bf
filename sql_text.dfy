/**
 * The statement text and parameter lists built by the generic helpers of
 * src/database/dbHelpers.ts from a list of {field, newValue} pairs.
 *
 * The three `reduce` calls there share one shape: the accumulator gets the
 * item, then a comma unless the item is the last one. `CommaReduce` is that
 * fold; `Join` is the independent reference it is proved equal to, and `Split`
 * undoes `Join`, which is how "one entry per field, in order" is stated.
 */
module SqlText {

  /** A bound parameter: the values the screens pass are integers, strings or null. */
  datatype SqlValue = Int(i: int) | Text(s: string) | Null

  datatype UpdateValue = UpdateValue(field: string, newValue: SqlValue)

  // ---------------------------------------------------------------------------
  // The fold the helpers write with `reduce`.

  /** The accumulator after the first k items: prev + item + (index < n - 1 ? ',' : ''). */
  function CommaReduce(items: seq<string>, k: nat): string
    requires k <= |items|
    decreases k
  {
    if k == 0 then ""
    else CommaReduce(items, k - 1) + items[k - 1] + (if k - 1 < |items| - 1 then "," else "")
  }

  function Assignments(values: seq<UpdateValue>): (a: seq<string>)
    ensures |a| == |values|
    ensures forall i :: 0 <= i < |values| ==> a[i] == values[i].field + "=?"
  {
    seq(|values|, i requires 0 <= i < |values| => values[i].field + "=?")
  }

  function FieldNames(values: seq<UpdateValue>): (f: seq<string>)
    ensures |f| == |values|
    ensures forall i :: 0 <= i < |values| ==> f[i] == values[i].field
  {
    seq(|values|, i requires 0 <= i < |values| => values[i].field)
  }

  function QuestionMarks(n: nat): (q: seq<string>)
    ensures |q| == n
    ensures forall i :: 0 <= i < n ==> q[i] == "?"
  {
    seq(n, _ => "?")
  }

  function NewValues(values: seq<UpdateValue>): (v: seq<SqlValue>)
    ensures |v| == |values|
    ensures forall i :: 0 <= i < |values| ==> v[i] == values[i].newValue
  {
    seq(|values|, i requires 0 <= i < |values| => values[i].newValue)
  }

  // ---------------------------------------------------------------------------
  // updateData, insertData, deleteData.

  function SetClause(values: seq<UpdateValue>): string {
    CommaReduce(Assignments(values), |values|)
  }

  function UpdateQuery(table: string, values: seq<UpdateValue>): string {
    UpdateHead(table) + SetClause(values) + WhereId()
  }

  /** The text before the SET clause binds no parameter unless the table name holds a `?`. */
  function UpdateHead(table: string): (h: string)
    ensures '?' !in table ==> Count(h, '?') == 0
  {
    "UPDATE " + table + " SET "
  }

  /** The WHERE clause of an UPDATE binds one parameter, the id. */
  function WhereId(): (w: string)
    ensures Count(w, '?') == 1
  {
    var where := " WHERE id = ";
    assert '?' !in where;
    where + "?"
  }

  /** The new values in field order, then the id for the WHERE clause. */
  function UpdateParams(values: seq<UpdateValue>, id: int): (params: seq<SqlValue>)
    ensures |params| == |values| + 1
    ensures params[..|values|] == NewValues(values)
    ensures params[|values|] == Int(id)
  {
    NewValues(values) + [Int(id)]
  }

  function InsertFields(values: seq<UpdateValue>): string {
    CommaReduce(FieldNames(values), |values|)
  }

  function Placeholders(values: seq<UpdateValue>): string {
    CommaReduce(QuestionMarks(|values|), |values|)
  }

  function InsertQuery(table: string, values: seq<UpdateValue>): string {
    "INSERT INTO " + table + " (" + InsertFields(values) + ") VALUES (" + Placeholders(values) + ")"
  }

  function InsertParams(values: seq<UpdateValue>): seq<SqlValue> {
    NewValues(values)
  }

  function DeleteQuery(table: string): string {
    "DELETE FROM " + table + " WHERE id=?"
  }

  function DeleteParams(id: int): seq<SqlValue> {
    [Int(id)]
  }

  // ---------------------------------------------------------------------------
  // Reference definitions.

  function Join(parts: seq<string>, sep: char): string
    decreases |parts|
  {
    if |parts| == 0 then ""
    else if |parts| == 1 then parts[0]
    else Join(parts[..|parts| - 1], sep) + [sep] + parts[|parts| - 1]
  }

  function Split(s: string, sep: char): (parts: seq<string>)
    ensures |parts| >= 1
    decreases |s|
  {
    if s == [] then [""]
    else if s[0] == sep then [""] + Split(s[1..], sep)
    else
      var r := Split(s[1..], sep);
      [[s[0]] + r[0]] + r[1..]
  }

  /** How many times `c` occurs in `s`. */
  function Count(s: string, c: char): nat {
    multiset(s)[c]
  }

  // ---------------------------------------------------------------------------
  // The fold is the join.

  /** After k < n items the fold holds the join of those items and one trailing comma. */
  lemma {:induction false} CommaReducePrefix(items: seq<string>, k: nat)
    requires k <= |items|
    ensures CommaReduce(items, k) == Join(items[..k], ',') + (if 0 < k < |items| then "," else "")
    decreases k
  {
    if k > 1 {
      CommaReducePrefix(items, k - 1);
      assert items[..k][..k - 1] == items[..k - 1];
    } else if k == 1 {
      assert CommaReduce(items, 0) == "";
    }
  }

  lemma CommaReduceIsJoin(items: seq<string>)
    ensures CommaReduce(items, |items|) == Join(items, ',')
  {
    CommaReducePrefix(items, |items|);
    assert items[..|items|] == items;
  }

  /** The SET clause is `f=?` for each field, comma-separated, with no trailing comma. */
  lemma SetClauseShape(values: seq<UpdateValue>)
    ensures SetClause(values) == Join(Assignments(values), ',')
  {
    CommaReduceIsJoin(Assignments(values));
  }

  // ---------------------------------------------------------------------------
  // Split undoes Join.

  lemma {:induction false} SplitConcat(a: string, b: string, sep: char)
    ensures Split(a + [sep] + b, sep) == Split(a, sep) + Split(b, sep)
    decreases |a|
  {
    if a == [] {
      assert a + [sep] + b == [sep] + b;
    } else {
      assert (a + [sep] + b)[1..] == a[1..] + [sep] + b;
      SplitConcat(a[1..], b, sep);
    }
  }

  lemma {:induction false} SplitNoSeparator(s: string, sep: char)
    requires sep !in s
    ensures Split(s, sep) == [s]
    decreases |s|
  {
    if s != [] {
      SplitNoSeparator(s[1..], sep);
      assert [s[0]] + s[1..] == s;
    }
  }

  lemma {:induction false} SplitJoin(parts: seq<string>, sep: char)
    requires |parts| >= 1
    requires forall i :: 0 <= i < |parts| ==> sep !in parts[i]
    ensures Split(Join(parts, sep), sep) == parts
    decreases |parts|
  {
    var last := parts[|parts| - 1];
    SplitNoSeparator(last, sep);
    if |parts| > 1 {
      var init := parts[..|parts| - 1];
      SplitJoin(init, sep);
      SplitConcat(Join(init, sep), last, sep);
      assert init + [last] == parts;
    }
  }

  /** The column list of an INSERT names each field once, in the order of its parameters. */
  lemma InsertFieldsRoundTrip(values: seq<UpdateValue>)
    requires |values| >= 1
    requires forall i :: 0 <= i < |values| ==> ',' !in values[i].field
    ensures Split(InsertFields(values), ',') == FieldNames(values)
    ensures |Split(InsertFields(values), ',')| == |InsertParams(values)|
  {
    CommaReduceIsJoin(FieldNames(values));
    SplitJoin(FieldNames(values), ',');
  }

  /** The VALUES list of an INSERT holds exactly one `?` per field. */
  lemma PlaceholdersRoundTrip(values: seq<UpdateValue>)
    requires |values| >= 1
    ensures Split(Placeholders(values), ',') == QuestionMarks(|values|)
    ensures |Split(Placeholders(values), ',')| == |InsertParams(values)|
  {
    var q := QuestionMarks(|values|);
    CommaReduceIsJoin(q);
    forall i | 0 <= i < |q| ensures ',' !in q[i] {
      assert q[i] == "?";
    }
    SplitJoin(q, ',');
  }

  // ---------------------------------------------------------------------------
  // One `?` per bound parameter.

  lemma {:induction false} CountJoinOnePerPart(parts: seq<string>, sep: char, c: char)
    requires sep != c
    requires forall i :: 0 <= i < |parts| ==> Count(parts[i], c) == 1
    ensures Count(Join(parts, sep), c) == |parts|
    decreases |parts|
  {
    if |parts| > 1 {
      var init := parts[..|parts| - 1];
      CountJoinOnePerPart(init, sep, c);
    }
  }

  /** `f=?` holds one `?` when the field name holds none. */
  lemma AssignmentHasOneMark(field: string)
    requires '?' !in field
    ensures Count(field + "=?", '?') == 1
  {
    assert multiset(field)['?'] == 0;
  }

  /** An UPDATE statement has as many `?` as the parameters bound to it. */
  lemma UpdatePlaceholdersMatchParams(table: string, values: seq<UpdateValue>, id: int)
    requires '?' !in table
    requires forall i :: 0 <= i < |values| ==> '?' !in values[i].field
    ensures Count(UpdateQuery(table, values), '?') == |UpdateParams(values, id)|
  {
    var a := Assignments(values);
    forall i | 0 <= i < |a| ensures Count(a[i], '?') == 1 {
      AssignmentHasOneMark(values[i].field);
    }
    SetClauseShape(values);
    CountJoinOnePerPart(a, ',', '?');
  }

  lemma {:induction false} CountJoinNone(parts: seq<string>, sep: char, c: char)
    requires sep != c
    requires forall i :: 0 <= i < |parts| ==> Count(parts[i], c) == 0
    ensures Count(Join(parts, sep), c) == 0
    decreases |parts|
  {
    if |parts| > 1 {
      CountJoinNone(parts[..|parts| - 1], sep, c);
    }
  }

  /** The column list holds no `?` when no field name does. */
  lemma InsertFieldsHaveNoMark(values: seq<UpdateValue>)
    requires forall i :: 0 <= i < |values| ==> '?' !in values[i].field
    ensures Count(InsertFields(values), '?') == 0
  {
    var fields := FieldNames(values);
    CommaReduceIsJoin(fields);
    forall i | 0 <= i < |fields| ensures Count(fields[i], '?') == 0 {
      assert multiset(fields[i])['?'] == 0;
    }
    CountJoinNone(fields, ',', '?');
  }

  /** The VALUES list holds one `?` per field. */
  lemma PlaceholdersCount(values: seq<UpdateValue>)
    ensures Count(Placeholders(values), '?') == |values|
  {
    var marks := QuestionMarks(|values|);
    CommaReduceIsJoin(marks);
    forall i | 0 <= i < |marks| ensures Count(marks[i], '?') == 1 {
      assert marks[i] == "?";
    }
    CountJoinOnePerPart(marks, ',', '?');
  }

  lemma CountConcat(a: string, b: string, c: char)
    ensures Count(a + b, c) == Count(a, c) + Count(b, c)
  {
    assert multiset(a + b) == multiset(a) + multiset(b);
  }

  /** A text without `?` counts none. */
  lemma CountAbsent(s: string, c: char)
    requires c !in s
    ensures Count(s, c) == 0
  {
  }

  /** The fixed text of an INSERT binds no parameter. */
  lemma InsertTextHasNoMark(table: string)
    requires '?' !in table
    ensures Count("INSERT INTO " + table + " (", '?') == 0
    ensures Count(") VALUES (", '?') == 0 && Count(")", '?') == 0
  {
    var into, open := "INSERT INTO ", " (";
    assert '?' !in into && '?' !in open;
    CountAbsent(into, '?');
    CountAbsent(open, '?');
    CountAbsent(table, '?');
    CountConcat(into, table, '?');
    CountConcat(into + table, open, '?');
    var values := ") VALUES (";
    assert '?' !in values;
    CountAbsent(values, '?');
    CountAbsent(")", '?');
  }

  /** An INSERT statement has as many `?` as the parameters bound to it. */
  lemma InsertPlaceholdersMatchParams(table: string, values: seq<UpdateValue>)
    requires '?' !in table
    requires forall i :: 0 <= i < |values| ==> '?' !in values[i].field
    ensures Count(InsertQuery(table, values), '?') == |InsertParams(values)|
  {
    var f, m := InsertFields(values), Placeholders(values);
    InsertFieldsHaveNoMark(values);
    PlaceholdersCount(values);
    var head, middle, tail := "INSERT INTO " + table + " (", ") VALUES (", ")";
    InsertTextHasNoMark(table);
    CountConcat(head, f, '?');
    CountConcat(head + f, middle, '?');
    CountConcat(head + f + middle, m, '?');
    CountConcat(head + f + middle + m, tail, '?');
  }

  /** A DELETE statement binds one parameter, the id. */
  lemma DeletePlaceholdersMatchParams(table: string, id: int)
    requires '?' !in table
    ensures Count(DeleteQuery(table), '?') == |DeleteParams(id)|
  {
    var head := "DELETE FROM " + table + " WHERE id=";
    assert '?' !in head;
    assert DeleteQuery(table) == head + "?";
  }
}
