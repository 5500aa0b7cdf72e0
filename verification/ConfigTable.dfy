/**
 The global config table, read in two ways: the server scans decoded rows for the first one with a key, the
 generated table class validates all rows and keeps an index from key to row.
 */
module ConfigTable {
  import opened Options
  import PlayerId

  /** A decoded JSON value, as far as these readers tell values apart. */
  datatype Json = Null | Text(text: string) | Other

  type Row = map<string, Json>

  datatype Globalconfig = Globalconfig(key: string, value: string)

  datatype GlobalTbconfig = GlobalTbconfig(dataList: seq<Globalconfig>, dataMap: map<string, Globalconfig>)

  function Field(row: Row, name: string): Option<string> {
    if name in row && row[name].Text? then Some(row[name].text) else None
  }

  /** `strconv.ParseInt(s, 10, 64)`: an optional sign, digits, and a value that fits. */
  function ParseInt64(s: string): Option<int> {
    var signed := s != "" && (s[0] == '+' || s[0] == '-');
    var digits := if signed then s[1..] else s;
    if digits == "" || !PlayerId.AllDigits(digits) then None
    else
      var magnitude: int := PlayerId.Value(digits);
      var n := if s[0] == '-' then -magnitude else magnitude;
      if -0x8000_0000_0000_0000 <= n < 0x8000_0000_0000_0000 then Some(n) else None
  }

  predicate IsSign(sign: string) { sign == "" || sign == "+" || sign == "-" }

  function Signed(sign: string, m: int): int { if sign == "-" then -m else m }

  function Padded(k: nat, m: nat): string { PlayerId.Zeros(k) + PlayerId.Decimal(m) }

  /** A text writes a number: a sign or none, leading zeros or none, and the number's decimal digits. */
  ghost predicate Writes(t: string, n: int) { exists sign, k, m :: WritesAs(t, n, sign, k, m) }

  predicate WritesAs(t: string, n: int, sign: string, k: nat, m: nat) {
    IsSign(sign) && t == sign + Padded(k, m) && n == Signed(sign, m)
  }

  predicate FitsInt64(n: int) { -9223372036854775808 <= n <= 9223372036854775807 }

  /** A number is read from exactly the texts that write it, if it fits into 64 bits. */
  lemma ParseInt64Exactly(t: string, n: int)
    ensures ParseInt64(t) == Some(n) <==> Writes(t, n) && FitsInt64(n)
  {
    if ParseInt64(t) == Some(n) {
      ParsedIsWritten(t, n);
    }
    if Writes(t, n) && FitsInt64(n) {
      var sign, k, m :| WritesAs(t, n, sign, k, m);
      DigitsParse(sign, k, m);
    }
  }

  lemma ParsedIsWritten(t: string, n: int)
    requires ParseInt64(t) == Some(n)
    ensures Writes(t, n) && FitsInt64(n)
  {
    var signed := t[0] == '+' || t[0] == '-';
    var sign, digits := if signed then t[..1] else "", if signed then t[1..] else t;
    assert t == sign + digits && IsSign(sign);
    var k := PlayerId.DigitsAreDecimal(digits);
    assert WritesAs(t, n, sign, k, PlayerId.Value(digits));
  }

  lemma DigitsParse(sign: string, k: nat, m: nat)
    requires IsSign(sign)
    ensures ParseInt64(sign + Padded(k, m)) == if FitsInt64(Signed(sign, m)) then Some(Signed(sign, m)) else None
  {
    PlayerId.DecimalDenotes(m);
    PlayerId.ValueOfPadded(k, PlayerId.Decimal(m));
    SignSplits(sign, Padded(k, m));
  }

  lemma SignSplits(sign: string, digits: string)
    requires IsSign(sign) && digits != "" && PlayerId.IsDigit(digits[0])
    ensures sign + digits != ""
    ensures sign == "" ==> sign + digits == digits
    ensures sign != "" ==> (sign + digits)[0] == sign[0] && (sign + digits)[1..] == digits
  {
  }

  /** Every number that fits is read back from its decimal digits, with and without sign. */
  lemma EveryInt64IsRead(sign: string, m: nat)
    requires IsSign(sign)
    ensures ParseInt64(sign + PlayerId.Decimal(m))
         == if FitsInt64(Signed(sign, m)) then Some(Signed(sign, m)) else None
  {
    assert Padded(0, m) == PlayerId.Decimal(m);
    DigitsParse(sign, 0, m);
  }

  /** Nothing is read from an empty text, from a sign alone, and from a text with a character that is no digit. */
  lemma OtherTextsAreNotRead(t: string, i: nat)
    ensures t == "" || t == "+" || t == "-" ==> ParseInt64(t) == None
    ensures i < |t| && !('0' <= t[i] <= '9') && (i > 0 || (t[0] != '+' && t[0] != '-')) ==> ParseInt64(t) == None
  {
    if i < |t| && !('0' <= t[i] <= '9') {
      assert t[0] == '+' || t[0] == '-' ==> i > 0 ==> t[1..][i - 1] == t[i];
    }
  }

  function ParseOr(value: Option<string>, defaultValue: int): int {
    if value.None? then defaultValue
    else if ParseInt64(value.value).None? then defaultValue
    else ParseInt64(value.value).value
  }

  predicate HasKey(row: Row, key: string) { Field(row, "key") == Some(key) }

  /** The first row with the key, or |rows|. */
  function FirstWith(rows: seq<Row>, key: string): (i: nat)
    ensures i <= |rows|
    ensures forall j | 0 <= j < i :: !HasKey(rows[j], key)
    ensures i < |rows| ==> HasKey(rows[i], key)
  {
    if rows == [] || HasKey(rows[0], key) then 0
    else
      var k := FirstWith(rows[1..], key);
      assert forall j | 0 < j < k + 1 :: rows[j] == rows[1..][j - 1];
      k + 1
  }

  /** What the scan answers, on rows that were loaded: the first row with the key decides, whatever its value is. */
  function Scan(rows: seq<Row>, key: string, defaultValue: int): int {
    if FirstWith(rows, key) < |rows| then ParseOr(Field(rows[FirstWith(rows, key)], "value"), defaultValue)
    else defaultValue
  }

  /** A row has a text under a name. */
  predicate HasText(row: Row, name: string, t: string) { name in row && row[name] == Text(t) }

  /** The first row with a key, and the number its value writes. */
  ghost predicate FirstRowWrites(rows: seq<Row>, key: string, i: nat, t: string, n: int) {
    && i < |rows| && HasText(rows[i], "key", key) && (forall j | 0 <= j < i :: !HasText(rows[j], "key", key))
    && HasText(rows[i], "value", t) && Writes(t, n) && FitsInt64(n)
  }

  lemma ScanSpelled(rows: seq<Row>, key: string, d: int)
    ensures forall i: nat, t, n | FirstRowWrites(rows, key, i, t, n) :: Scan(rows, key, d) == n
    ensures (!exists i: nat, t, n :: FirstRowWrites(rows, key, i, t, n)) ==> Scan(rows, key, d) == d
  {
    var f := FirstWith(rows, key);
    forall k | 0 <= k < |rows| ensures HasKey(rows[k], key) <==> HasText(rows[k], "key", key) {
    }
    forall i: nat, t, n | FirstRowWrites(rows, key, i, t, n) ensures Scan(rows, key, d) == n {
      assert i == f;
      ParseInt64Exactly(t, n);
    }
    if f < |rows| && Field(rows[f], "value").Some? && ParseInt64(Field(rows[f], "value").value).Some? {
      var t := Field(rows[f], "value").value;
      ParseInt64Exactly(t, ParseInt64(t).value);
      assert FirstRowWrites(rows, key, f, t, ParseInt64(t).value);
    }
  }

  method GetGlobalConfigInt64(loaded: Option<seq<Row>>, key: string, defaultValue: int) returns (r: int)
    ensures r == if loaded.None? then defaultValue else Scan(loaded.value, key, defaultValue)
    ensures loaded.Some? ==> forall i: nat, t, n | FirstRowWrites(loaded.value, key, i, t, n) :: r == n
    ensures loaded.Some? && (!exists i: nat, t, n :: FirstRowWrites(loaded.value, key, i, t, n)) ==> r == defaultValue
  {
    if loaded.Some? {
      ScanSpelled(loaded.value, key, defaultValue);
    }
    if loaded.None? {
      return defaultValue;
    }
    var rows := loaded.value;
    for i := 0 to |rows|
      invariant i <= FirstWith(rows, key)
    {
      var rawKey := Field(rows[i], "key");
      if rawKey == None || rawKey.value != key {
        continue;
      }
      var rawValue := Field(rows[i], "value");
      if rawValue == None {
        return defaultValue;
      }
      var value := ParseInt64(rawValue.value);
      if value == None {
        return defaultValue;
      }
      return value.value;
    }
    return defaultValue;
  }

  /** One row, with both fields required to be present and text. */
  function NewGlobalconfig(row: Row): Option<Globalconfig> {
    if Field(row, "key").None? then None
    else if Field(row, "value").None? then None
    else Some(Globalconfig(Field(row, "key").value, Field(row, "value").value))
  }

  predicate Accepted(rows: seq<Row>) { forall i | 0 <= i < |rows| :: NewGlobalconfig(rows[i]).Some? }

  /** The last row with the key, or None. */
  function LastWith(list: seq<Globalconfig>, key: string): Option<Globalconfig> {
    if list == [] then None
    else if list[|list| - 1].key == key then Some(list[|list| - 1])
    else LastWith(list[..|list| - 1], key)
  }

  function Get(table: GlobalTbconfig, key: string): Option<Globalconfig> {
    if key in table.dataMap then Some(table.dataMap[key]) else None
  }

  /** A table holds the rows in order, and its index the last row of each key. */
  ghost predicate BuiltFrom(table: GlobalTbconfig, rows: seq<Row>) {
    && |table.dataList| == |rows|
    && (forall i | 0 <= i < |rows| :: Some(table.dataList[i]) == NewGlobalconfig(rows[i]))
    && (forall key :: Get(table, key) == LastWith(table.dataList, key))
  }

  /** Builds the table, or fails exactly when some row is not acceptable. */
  method NewGlobalTbconfig(rows: seq<Row>) returns (table: Option<GlobalTbconfig>)
    ensures table.Some? <==> Accepted(rows)
    ensures table.Some? ==> BuiltFrom(table.value, rows)
    ensures table.Some? <==> forall i | 0 <= i < |rows| :: IsComplete(rows[i])
    ensures table.Some? ==>
              |table.value.dataList| == |rows| &&
              forall i | 0 <= i < |rows| :: IsRow(rows[i], table.value.dataList[i].key, table.value.dataList[i].value)
    ensures table.Some? ==> forall key :: IndexedLast(table.value, key)
  {
    AcceptedSpelled(rows);
    var dataList: seq<Globalconfig>, dataMap: map<string, Globalconfig> := [], map[];
    for i := 0 to |rows|
      invariant |dataList| == i
      invariant forall k | 0 <= k < i :: Some(dataList[k]) == NewGlobalconfig(rows[k])
      invariant forall key :: Get(GlobalTbconfig(dataList, dataMap), key) == LastWith(dataList, key)
    {
      var v := NewGlobalconfig(rows[i]);
      if v == None {
        return None;
      }
      assert forall key :: LastWith(dataList + [v.value], key) == if v.value.key == key then Some(v.value)
                                                                  else LastWith(dataList, key) by {
        assert (dataList + [v.value])[..i] == dataList;
      }
      dataList := dataList + [v.value];
      dataMap := dataMap[v.value.key := v.value];
    }
    BuiltSpelled(GlobalTbconfig(dataList, dataMap), rows);
    return Some(GlobalTbconfig(dataList, dataMap));
  }

  /** A row has a text under "key" and one under "value". */
  predicate IsRow(row: Row, k: string, v: string) { HasText(row, "key", k) && HasText(row, "value", v) }

  ghost predicate IsComplete(row: Row) { exists k, v :: IsRow(row, k, v) }

  /** The index has a key exactly when some entry of the list does, and then the last such entry. */
  ghost predicate IndexedLast(table: GlobalTbconfig, key: string) {
    && (key in table.dataMap <==> exists i :: 0 <= i < |table.dataList| && table.dataList[i].key == key)
    && (key in table.dataMap ==>
          exists i: nat :: LastOf(table.dataList, i, key) && table.dataList[i] == table.dataMap[key])
  }

  predicate LastOf(list: seq<Globalconfig>, i: nat, key: string) {
    i < |list| && list[i].key == key && forall j | i < j < |list| :: list[j].key != key
  }

  lemma AcceptedSpelled(rows: seq<Row>)
    ensures Accepted(rows) <==> forall i | 0 <= i < |rows| :: IsComplete(rows[i])
  {
    forall i | 0 <= i < |rows| ensures NewGlobalconfig(rows[i]).Some? <==> IsComplete(rows[i]) {
      CompleteSpelled(rows[i]);
    }
  }

  lemma CompleteSpelled(row: Row)
    ensures NewGlobalconfig(row).Some? <==> IsComplete(row)
  {
    if NewGlobalconfig(row).Some? {
      assert IsRow(row, NewGlobalconfig(row).value.key, NewGlobalconfig(row).value.value);
    }
  }

  lemma BuiltSpelled(table: GlobalTbconfig, rows: seq<Row>)
    requires BuiltFrom(table, rows)
    ensures forall i | 0 <= i < |rows| :: IsRow(rows[i], table.dataList[i].key, table.dataList[i].value)
    ensures forall key :: IndexedLast(table, key)
  {
    forall i | 0 <= i < |rows| ensures IsRow(rows[i], table.dataList[i].key, table.dataList[i].value) {
      SameRows(rows, table, i);
    }
    forall key ensures IndexedLast(table, key) {
      if exists i :: 0 <= i < |table.dataList| && table.dataList[i].key == key {
        var j := LastWithIndex(table.dataList, key);
        assert LastOf(table.dataList, j, key) && table.dataList[j] == Get(table, key).value;
      } else {
        NoLast(table.dataList, key);
        assert Get(table, key) == None;
      }
    }
  }

  /** What the index answers. */
  function Lookup(table: GlobalTbconfig, key: string, defaultValue: int): int {
    ParseOr(if Get(table, key).Some? then Some(Get(table, key).value.value) else None, defaultValue)
  }

  lemma {:induction false} LastWithIndex(list: seq<Globalconfig>, key: string) returns (j: nat)
    requires exists i :: 0 <= i < |list| && list[i].key == key
    ensures j < |list| && list[j].key == key && LastWith(list, key) == Some(list[j])
    ensures forall i | j < i < |list| :: list[i].key != key
  {
    j := |list| - 1;
    if list[j].key != key {
      var k := LastWithIndex(list[..j], key);
      j := k;
    }
  }

  lemma {:induction false} NoLast(list: seq<Globalconfig>, key: string)
    requires forall i | 0 <= i < |list| :: list[i].key != key
    ensures LastWith(list, key) == None
  {
    if list != [] {
      NoLast(list[..|list| - 1], key);
    }
  }

  ghost predicate IsFirst(rows: seq<Row>, key: string, i: nat) {
    i < |rows| && HasKey(rows[i], key) && forall k | 0 <= k < i :: !HasKey(rows[k], key)
  }

  ghost predicate IsLast(rows: seq<Row>, key: string, j: nat) {
    j < |rows| && HasKey(rows[j], key) && forall k | j < k < |rows| :: !HasKey(rows[k], key)
  }

  /** The rows of an accepted table and its list have the same keys and texts. */
  lemma SameRows(rows: seq<Row>, table: GlobalTbconfig, k: nat)
    requires BuiltFrom(table, rows) && k < |rows|
    ensures Field(rows[k], "key") == Some(table.dataList[k].key)
    ensures Field(rows[k], "value") == Some(table.dataList[k].value)
  {
    assert Some(table.dataList[k]) == NewGlobalconfig(rows[k]);
  }

  /** The scan parses the text of the first row with the key. */
  lemma ScanReadsFirst(rows: seq<Row>, key: string, i: nat, d: int)
    requires IsFirst(rows, key, i)
    ensures Scan(rows, key, d) == ParseOr(Field(rows[i], "value"), d)
  {
    assert i == FirstWith(rows, key);
  }

  /** The index parses the text of the last row with the key. */
  lemma IndexReadsLast(rows: seq<Row>, table: GlobalTbconfig, key: string, j: nat, d: int)
    requires BuiltFrom(table, rows) && IsLast(rows, key, j)
    ensures Lookup(table, key, d) == ParseOr(Field(rows[j], "value"), d)
  {
    SameRows(rows, table, j);
    var last := LastWithIndex(table.dataList, key);
    SameRows(rows, table, last);
    assert last == j;
  }

  /**
   The two readers agree on a key, for every default, exactly when the texts of the key's first and last row parse
   alike: to the same number, or both to none.
   */
  lemma ScanAgreesExactlyWhen(rows: seq<Row>, table: GlobalTbconfig, key: string, i: nat, j: nat)
    requires BuiltFrom(table, rows) && IsFirst(rows, key, i) && IsLast(rows, key, j)
    ensures Field(rows[i], "value").Some? && Field(rows[j], "value").Some?
    ensures (forall d :: Scan(rows, key, d) == Lookup(table, key, d)) <==>
              ParseInt64(Field(rows[i], "value").value) == ParseInt64(Field(rows[j], "value").value)
  {
    SameRows(rows, table, i);
    SameRows(rows, table, j);
    var a, b := ParseInt64(Field(rows[i], "value").value), ParseInt64(Field(rows[j], "value").value);
    forall d
      ensures Scan(rows, key, d) == if a.Some? then a.value else d
      ensures Lookup(table, key, d) == if b.Some? then b.value else d
    {
      ScanReadsFirst(rows, key, i, d);
      IndexReadsLast(rows, table, key, j, d);
    }
    if a != b {
      var d := if a.Some? then a.value + 1 else b.value + 1;
      assert Scan(rows, key, d) != Lookup(table, key, d);
    }
  }

  /** On a key that no row has, both answer the default. */
  lemma MissingKeyAgrees(rows: seq<Row>, table: GlobalTbconfig, key: string, d: int)
    requires BuiltFrom(table, rows) && forall k | 0 <= k < |rows| :: !HasKey(rows[k], key)
    ensures Scan(rows, key, d) == d == Lookup(table, key, d)
  {
    forall k | 0 <= k < |rows| ensures table.dataList[k].key != key {
      SameRows(rows, table, k);
    }
    NoLast(table.dataList, key);
  }

  /** With distinct keys the first row of a key is its last, so the two readers always agree. */
  lemma DistinctKeysAgree(rows: seq<Row>, table: GlobalTbconfig, key: string, d: int)
    requires BuiltFrom(table, rows)
    requires forall i, j | 0 <= i < j < |rows| :: table.dataList[i].key != table.dataList[j].key
    ensures Scan(rows, key, d) == Lookup(table, key, d)
  {
    var i := FirstWith(rows, key);
    if i < |rows| {
      forall k | 0 <= k < |rows| ensures HasKey(rows[k], key) <==> table.dataList[k].key == key {
        SameRows(rows, table, k);
      }
      ScanReadsFirst(rows, key, i, d);
      IndexReadsLast(rows, table, key, i, d);
    } else {
      MissingKeyAgrees(rows, table, key, d);
    }
  }

  function ConfigRow(key: string, value: string): Row { map["key" := Text(key), "value" := Text(value)] }

  /** With a repeated key they part: the scan follows the first row, the index the last. */
  lemma RepeatedKeyDisagrees(table: GlobalTbconfig)
    requires BuiltFrom(table, [ConfigRow("k", "1"), ConfigRow("k", "2")])
    ensures Scan([ConfigRow("k", "1"), ConfigRow("k", "2")], "k", 0) == 1
    ensures Lookup(table, "k", 0) == 2
  {
    var rows := [ConfigRow("k", "1"), ConfigRow("k", "2")];
    assert HasKey(rows[0], "k");
    assert Some(table.dataList[1]) == NewGlobalconfig(rows[1]);
    OneDigit("1");
    OneDigit("2");
  }

  lemma OneDigit(s: string)
    requires |s| == 1 && '0' <= s[0] <= '9'
    ensures ParseInt64(s) == Some(s[0] as int - '0' as int)
  {
    assert s[..0] == "";
    assert PlayerId.Value(s[..0]) == 0;
  }
}
