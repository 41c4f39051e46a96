/** JSON values as the server reads them (mentatd/src/server.rs), and `serde_json` text of an argument list. */
module Json {
  import opened Prelude

  datatype Json =
    | JNull
    | JBool(b: bool)
    | JInteger(n: int)
    | JDecimal(digits: string)
    | JString(text: string)
    | JArray(items: seq<Json>)
    | JObject(fields: seq<Field>)

  datatype Field = Field(name: string, val: Json)

  /** `Value::get` with a string index. */
  function Member(j: Json, name: string): Option<Json> {
    if j.JObject? then Named(j.fields, name) else None
  }

  function Named(fields: seq<Field>, name: string): Option<Json> {
    if fields == [] then None
    else if fields[0].name == name then Some(fields[0].val)
    else Named(fields[1..], name)
  }

  predicate IsI64(j: Json) {
    j.JInteger? && InI64(j.n)
  }

  /** The items of an array member, if it is one. */
  function Items(j: Json, name: string): Option<seq<Json>> {
    match Member(j, name)
    case Some(JArray(items)) => Some(items)
    case _ => None
  }

  // ---- Entities ----

  /** The entities of a transaction report: the first column of every datom in `tx-data`. */
  predicate Changes(report: Option<Json>, e: I64) {
    && report.Some? && Items(report.value, "tx-data").Some?
    && var datoms := Items(report.value, "tx-data").value;
       exists k :: 0 <= k < |datoms| && Heads(datoms[k], e)
  }

  predicate Heads(datom: Json, e: I64) {
    datom.JArray? && datom.items != [] && datom.items[0] == JInteger(e)
  }

  /** `extract_changed_entities`; `None` is a text that is not JSON. */
  method ExtractChangedEntities(report: Option<Json>) returns (ids: seq<I64>)
    ensures forall e: I64 :: e in ids <==> Changes(report, e)
    ensures forall i, j :: 0 <= i < j < |ids| ==> ids[i] != ids[j]
  {
    ids := [];
    if report.None? || Items(report.value, "tx-data").None? {
      return;
    }
    var datoms := Items(report.value, "tx-data").value;
    for i := 0 to |datoms|
      invariant forall e: I64 :: e in ids <==> exists k :: 0 <= k < i && Heads(datoms[k], e)
      invariant forall a, b :: 0 <= a < b < |ids| ==> ids[a] != ids[b]
    {
      var d := datoms[i];
      if d.JArray? && d.items != [] && IsI64(d.items[0]) && d.items[0].n !in ids {
        ids := ids + [d.items[0].n];
      }
    }
  }

  /** The integers in the rows of a query result. */
  function ResultEntities(result: Json): set<I64> {
    if Items(result, "results").None? then {} else RowsEntities(Items(result, "results").value)
  }

  function RowsEntities(rows: seq<Json>): (r: set<I64>)
    ensures forall e: I64 :: e in r <==> exists row :: row in rows && row.JArray? && JInteger(e) in row.items
  {
    if rows == [] then {} else
    (if rows[0].JArray? then Integers(rows[0].items) else {}) + RowsEntities(rows[1..])
  }

  function Integers(items: seq<Json>): (r: set<I64>)
    ensures forall e: I64 :: e in r <==> JInteger(e) in items
  {
    if items == [] then {} else
    (if IsI64(items[0]) then {items[0].n as I64} else {}) + Integers(items[1..])
  }

  /** `extract_result_entities` */
  method ExtractResultEntities(result: Json) returns (ids: set<I64>)
    ensures ids == ResultEntities(result)
  {
    ids := {};
    if Items(result, "results").None? {
      return;
    }
    var rows := Items(result, "results").value;
    for i := 0 to |rows|
      invariant ids + RowsEntities(rows[i..]) == RowsEntities(rows)
    {
      assert rows[i..][1..] == rows[i + 1..];
      if rows[i].JArray? {
        var more := ExtractRow(rows[i].items);
        ids := ids + more;
      }
    }
  }

  method ExtractRow(cols: seq<Json>) returns (ids: set<I64>)
    ensures ids == Integers(cols)
  {
    ids := {};
    for k := 0 to |cols|
      invariant ids + Integers(cols[k..]) == Integers(cols)
    {
      assert cols[k..][1..] == cols[k + 1..];
      if IsI64(cols[k]) {
        ids := ids + {cols[k].n};
      }
    }
  }

  /** `collect_entity_ids_from_json`: every integer anywhere in the value. */
  function AllIntegers(j: Json): set<I64>
    decreases j, 1
  {
    match j
    case JInteger(n) => if InI64(n) then {n} else {}
    case JArray(items) => ItemsIntegers(items)
    case JObject(fields) => FieldsIntegers(fields)
    case _ => {}
  }

  function ItemsIntegers(items: seq<Json>): set<I64>
    decreases items, 0
  {
    if items == [] then {} else AllIntegers(items[0]) + ItemsIntegers(items[1..])
  }

  function FieldsIntegers(fields: seq<Field>): set<I64>
    decreases fields, 0
  {
    if fields == [] then {} else AllIntegers(fields[0].val) + FieldsIntegers(fields[1..])
  }

  /** `x` occurs in `j`, however deep. */
  ghost predicate Within(x: Json, j: Json)
    decreases j
  {
    || x == j
    || (j.JArray? && exists i :: 0 <= i < |j.items| && Within(x, j.items[i]))
    || (j.JObject? && exists i :: 0 <= i < |j.fields| && Within(x, j.fields[i].val))
  }

  /** Exactly the integers that occur in the value are collected. */
  lemma {:induction false} AllIntegersExactly(j: Json, e: I64)
    ensures e in AllIntegers(j) <==> Within(JInteger(e), j)
    decreases j, 1
  {
    match j
    case JArray(items) => ItemsExactly(items, e);
    case JObject(fields) => FieldsExactly(fields, e);
    case _ =>
  }

  lemma {:induction false} ItemsExactly(items: seq<Json>, e: I64)
    ensures e in ItemsIntegers(items) <==> exists i :: 0 <= i < |items| && Within(JInteger(e), items[i])
    decreases items, 0
  {
    if items != [] {
      AllIntegersExactly(items[0], e);
      ItemsExactly(items[1..], e);
      if i :| 0 <= i < |items[1..]| && Within(JInteger(e), items[1..][i]) {
        assert items[1..][i] == items[i + 1];
      }
      if i :| 0 <= i < |items| && Within(JInteger(e), items[i]) {
        assert i > 0 ==> items[i] == items[1..][i - 1];
      }
    }
  }

  lemma {:induction false} FieldsExactly(fields: seq<Field>, e: I64)
    ensures e in FieldsIntegers(fields) <==> exists i :: 0 <= i < |fields| && Within(JInteger(e), fields[i].val)
    decreases fields, 0
  {
    if fields != [] {
      AllIntegersExactly(fields[0].val, e);
      FieldsExactly(fields[1..], e);
      if i :| 0 <= i < |fields[1..]| && Within(JInteger(e), fields[1..][i].val) {
        assert fields[1..][i] == fields[i + 1];
      }
      if i :| 0 <= i < |fields| && Within(JInteger(e), fields[i].val) {
        assert i > 0 ==> fields[i] == fields[1..][i - 1];
      }
    }
  }

  /** A query result's tracked entities are among the integers it contains. */
  lemma {:induction false} ResultEntitiesAreIntegers(result: Json)
    ensures ResultEntities(result) <= AllIntegers(result)
  {
    forall e | e in ResultEntities(result) ensures e in AllIntegers(result) {
      var rows := Items(result, "results").value;
      var row :| row in rows && row.JArray? && JInteger(e) in row.items;
      IntegerInItems(row.items, JInteger(e), e);
      IntegerInItems(rows, row, e);
      IntegerInField(result.fields, "results", e);
    }
  }

  lemma {:induction false} IntegerInItems(items: seq<Json>, item: Json, e: I64)
    requires item in items && e in AllIntegers(item)
    ensures e in ItemsIntegers(items)
  {
    if items[0] != item {
      IntegerInItems(items[1..], item, e);
    }
  }

  lemma {:induction false} IntegerInField(fields: seq<Field>, name: string, e: I64)
    requires Named(fields, name).Some? && e in AllIntegers(Named(fields, name).value)
    ensures e in FieldsIntegers(fields)
  {
    if fields[0].name != name {
      IntegerInField(fields[1..], name, e);
    }
  }

  // ---- The text of an argument list ----

  function HexDigit(n: nat): char
    requires n < 16
  {
    "0123456789abcdef"[n]
  }

  /** How `serde_json` writes one character of a string. */
  function Escape(c: char): (r: string)
    ensures r != "" && r[0] != '\"'
  {
    if c == '\"' then "\\\"" else if c == '\\' then "\\\\"
    else if c == '\n' then "\\n" else if c == '\r' then "\\r" else if c == '\t' then "\\t"
    else if c as int == 8 then "\\b" else if c as int == 12 then "\\f"
    else if c as int < 32 then "\\u00" + [HexDigit(c as int / 16), HexDigit(c as int % 16)]
    else [c]
  }

  function Escapes(t: string): string {
    if t == "" then "" else Escape(t[0]) + Escapes(t[1..])
  }

  function Quoted(t: string): string {
    "\"" + (Escapes(t) + "\"")
  }

  function Listed(args: seq<string>): string {
    if args == [] then "]"
    else if |args| == 1 then Quoted(args[0]) + "]"
    else Quoted(args[0]) + ("," + Listed(args[1..]))
  }

  /** `serde_json::to_string` of a list of strings. */
  function ArgsJson(args: seq<string>): (r: string)
    ensures |r| >= 2 && r[0] == '['
  {
    "[" + Listed(args)
  }

  lemma Cancel(a: string, x: string, y: string)
    requires a + x == a + y
    ensures x == y
  {
    assert (a + x)[|a|..] == x && (a + y)[|a|..] == y;
  }

  lemma EscapePrefixFree(c: char, d: char, x: string, y: string)
    requires Escape(c) + x == Escape(d) + y
    ensures c == d && x == y
  {
    var l, r := Escape(c) + x, Escape(d) + y;
    assert forall k :: 0 <= k < |Escape(c)| ==> l[k] == Escape(c)[k];
    assert forall k :: 0 <= k < |Escape(d)| ==> r[k] == Escape(d)[k];
    EscapeInjective(c, d);
    Cancel(Escape(c), x, y);
  }

  lemma EscapeInjective(c: char, d: char)
    requires forall k :: 0 <= k < |Escape(c)| && k < |Escape(d)| ==> Escape(c)[k] == Escape(d)[k]
    ensures c == d
  {
    var e, f := Escape(c), Escape(d);
    assert e[0] == f[0];
    if |e| > 1 && |f| > 1 {
      assert e[1] == f[1];
      if |e| > 2 && |f| > 2 {
        assert e[4] == f[4] && e[5] == f[5];
        HexInjective(c as int, d as int);
      }
    }
  }

  lemma HexInjective(m: nat, n: nat)
    requires m < 32 && n < 32 && HexDigit(m / 16) == HexDigit(n / 16) && HexDigit(m % 16) == HexDigit(n % 16)
    ensures m == n
  {
    HexDigitInjective(m / 16, n / 16);
    HexDigitInjective(m % 16, n % 16);
  }

  lemma HexDigitInjective(m: nat, n: nat)
    requires m < 16 && n < 16 && HexDigit(m) == HexDigit(n)
    ensures m == n
  {
    var hex := "0123456789abcdef";
    assert forall i, j :: 0 <= i < j < 16 ==> hex[i] != hex[j];
  }

  /** The text of a string from its opening quote on. */
  function Tail(t: string, x: string): string {
    Escapes(t) + ("\"" + x)
  }

  lemma TailFirst(t: string, x: string)
    ensures t == "" ==> Tail(t, x) == "\"" + x && Tail(t, x)[0] == '\"'
    ensures t != "" ==> Tail(t, x) == Escape(t[0]) + Tail(t[1..], x) && Tail(t, x)[0] != '\"'
  {
  }

  lemma {:induction false} TailPrefixFree(a: string, b: string, x: string, y: string)
    requires Tail(a, x) == Tail(b, y)
    ensures a == b && x == y
  {
    TailFirst(a, x);
    TailFirst(b, y);
    if a == "" {
      Cancel("\"", x, y);
    } else {
      EscapePrefixFree(a[0], b[0], Tail(a[1..], x), Tail(b[1..], y));
      TailPrefixFree(a[1..], b[1..], x, y);
      assert a == [a[0]] + a[1..] && b == [b[0]] + b[1..];
    }
  }

  lemma QuotedThen(a: string, x: string)
    ensures Quoted(a) + x == "\"" + Tail(a, x)
  {
  }

  lemma QuotedInjective(a: string, b: string, x: string, y: string)
    requires Quoted(a) + x == Quoted(b) + y
    ensures a == b && x == y
  {
    QuotedThen(a, x);
    QuotedThen(b, y);
    Cancel("\"", Tail(a, x), Tail(b, y));
    TailPrefixFree(a, b, x, y);
  }

  /** What follows the first argument. */
  function Rest(args: seq<string>): (r: string)
    requires args != []
  {
    if |args| == 1 then "]" else "," + Listed(args[1..])
  }

  lemma ListedFirst(args: seq<string>)
    ensures Listed(args) != "" && (Listed(args)[0] == ']' <==> args == [])
  {
  }

  lemma ListedParts(args: seq<string>)
    requires args != []
    ensures Listed(args) == Quoted(args[0]) + Rest(args)
  {
  }

  lemma RestSplits(a: seq<string>, b: seq<string>)
    requires a != [] && b != [] && Rest(a) == Rest(b)
    ensures |a| == 1 <==> |b| == 1
    ensures |a| > 1 ==> Listed(a[1..]) == Listed(b[1..])
  {
    assert Rest(a)[0] == Rest(b)[0];
    if |a| > 1 {
      Cancel(",", Listed(a[1..]), Listed(b[1..]));
    }
  }

  lemma {:induction false} ListedInjective(a: seq<string>, b: seq<string>)
    requires Listed(a) == Listed(b)
    ensures a == b
  {
    ListedFirst(a);
    ListedFirst(b);
    if a != [] {
      ListedParts(a);
      ListedParts(b);
      QuotedInjective(a[0], b[0], Rest(a), Rest(b));
      RestSplits(a, b);
      if |a| > 1 {
        ListedInjective(a[1..], b[1..]);
        SameList(a, b);
      }
    }
  }

  lemma SameList(a: seq<string>, b: seq<string>)
    requires a != [] && b != [] && a[0] == b[0] && a[1..] == b[1..]
    ensures a == b
  {
    assert a == [a[0]] + a[1..] && b == [b[0]] + b[1..];
  }

  lemma ArgsJsonInjective(a: seq<string>, b: seq<string>)
    requires ArgsJson(a) == ArgsJson(b)
    ensures a == b
  {
    Cancel("[", Listed(a), Listed(b));
    ListedInjective(a, b);
  }

  lemma {:induction false} ListedLast(args: seq<string>)
    ensures Listed(args) != "" && Listed(args)[|Listed(args)| - 1] == ']'
  {
    if |args| > 1 {
      ListedLast(args[1..]);
    }
  }

  lemma ArgsJsonLast(args: seq<string>)
    ensures ArgsJson(args)[|ArgsJson(args)| - 1] == ']'
  {
    ListedLast(args);
  }
}
