/** Objects as the repository prints and reads them: named fields in a fixed order, looked up by name. */
module JsonRecords {
  import opened Text
  import opened JsonGrammar
  import opened JsonPrinter

  function Labelled(names: seq<string>, values: seq<JsonValue>): (r: seq<Field>)
    requires |names| == |values|
    ensures |r| == |names| && forall i :: 0 <= i < |r| ==> r[i] == Field(names[i], values[i])
  {
    seq(|names|, i requires 0 <= i < |names| => Field(names[i], values[i]))
  }

  function NumberOf(n: nat): JsonValue {
    Number(Decimal(n))
  }

  function Strings(xs: seq<string>): (r: seq<JsonValue>)
    ensures |r| == |xs| && forall i :: 0 <= i < |xs| ==> r[i] == String(xs[i])
  {
    seq(|xs|, i requires 0 <= i < |xs| => String(xs[i]))
  }

  /** `JsonValue::get` */
  function Get(v: JsonValue, key: string): Option<JsonValue> {
    if v.Object? then Find(v.fields, key) else None
  }

  function Find(fields: seq<Field>, key: string): Option<JsonValue> {
    if fields == [] then None
    else if fields[0].name == key then Some(fields[0].value)
    else Find(fields[1..], key)
  }

  /** `as_u64`: an integer without sign, fraction or exponent that fits. */
  function AsU64(v: JsonValue): Option<U64> {
    if v.Number? && Digits(v.digits) && DigitsValue(v.digits) < 0x1_0000_0000_0000_0000
    then Some(DigitsValue(v.digits)) else None
  }

  function JsonString(root: JsonValue, key: string): Option<string> {
    var v :- Get(root, key);
    if v.String? then Some(v.text) else None
  }

  function JsonU64(root: JsonValue, key: string): Option<U64> {
    var v :- Get(root, key);
    AsU64(v)
  }

  function JsonU32(root: JsonValue, key: string): Option<U32> {
    var n :- JsonU64(root, key);
    if n < 0x1_0000_0000 then Some(n) else None
  }

  function AllStrings(items: seq<JsonValue>): Option<seq<string>> {
    if items == [] then Some([])
    else if !items[0].String? then None
    else
      var rest :- AllStrings(items[1..]);
      Some([items[0].text] + rest)
  }

  function JsonStringArray(root: JsonValue, key: string): Option<seq<string>> {
    var v :- Get(root, key);
    if v.Array? then AllStrings(v.items) else None
  }

  function GetOr<T>(o: Option<T>, default: T): T {
    if o.Some? then o.value else default
  }

  function CleanAll(xs: seq<string>): (r: seq<string>)
    ensures |r| == |xs| && forall i :: 0 <= i < |xs| ==> r[i] == Clean(xs[i])
  {
    seq(|xs|, i requires 0 <= i < |xs| => Clean(xs[i]))
  }

  predicate PlainName(s: string) {
    forall i :: 0 <= i < |s| ==> 'a' <= s[i] <= 'z' || s[i] == '_'
  }

  lemma CleanName(s: string)
    requires PlainName(s)
    ensures Clean(s) == s
  {
    forall i | 0 <= i < |s| ensures CleanChar(s[i]) == s[i] { }
  }

  /** Names of letters and underscores, none twice. */
  ghost predicate DistinctNames(names: seq<string>) {
    && (forall k :: 0 <= k < |names| ==> PlainName(names[k]))
    && (forall j, k :: 0 <= j < k < |names| ==> names[j] != names[k])
  }

  lemma {:induction false} FindFirst(fields: seq<Field>, i: nat)
    requires i < |fields| && forall j :: 0 <= j < i ==> fields[j].name != fields[i].name
    ensures Find(fields, fields[i].name) == Some(fields[i].value)
  {
    if i > 0 { FindFirst(fields[1..], i - 1); }
  }

  lemma {:induction false} FindNothing(fields: seq<Field>, key: string)
    requires forall j :: 0 <= j < |fields| ==> fields[j].name != key
    ensures Find(fields, key) == None
  {
    if fields != [] { FindNothing(fields[1..], key); }
  }

  /** Looking up a printed name in what was read back gives the cleaned value printed under it. */
  lemma LookUp(names: seq<string>, values: seq<JsonValue>, k: nat)
    requires |names| == |values| && k < |names| && DistinctNames(names)
    ensures Get(Object(CleanFields(Labelled(names, values))), names[k]) == Some(CleanValue(values[k]))
  {
    var fields := CleanFields(Labelled(names, values));
    forall j | 0 <= j < |fields| ensures fields[j].name == names[j] {
      CleanName(names[j]);
    }
    FindFirst(fields, k);
  }

  lemma LabelledPrintable(names: seq<string>, values: seq<JsonValue>, depth: nat)
    requires |names| == |values| && DistinctNames(names) && depth < MAX_DEPTH
    requires forall k :: 0 <= k < |values| ==> Printable(values[k], depth + 1)
    ensures Printable(Object(Labelled(names, values)), depth)
  {
    var fields := Labelled(names, values);
    forall f | f in fields ensures Printable(f.value, depth + 1) {
      var k :| 0 <= k < |fields| && fields[k] == f;
      assert f.value == values[k];
    }
    forall i, j | 0 <= i < j < |fields| ensures Clean(fields[i].name) != Clean(fields[j].name) {
      CleanName(names[i]);
      CleanName(names[j]);
    }
  }

  lemma NumberPrintable(n: nat, depth: nat)
    requires depth <= MAX_DEPTH
    ensures Printable(NumberOf(n), depth)
  {
    assert Decimal(n) == IntegerText(n);
  }

  lemma NumberReads(n: nat)
    requires n < 0x1_0000_0000_0000_0000
    ensures CleanValue(NumberOf(n)) == NumberOf(n) && AsU64(NumberOf(n)) == Some(n)
  {
    DecimalValue(n);
  }

  lemma {:induction false} StringsRead(xs: seq<string>)
    ensures AllStrings(CleanItems(Strings(xs))) == Some(CleanAll(xs))
  {
    if xs == [] {
      assert CleanAll(xs) == [];
    } else {
      StringsRead(xs[1..]);
      var items := CleanItems(Strings(xs));
      assert items[0] == String(Clean(xs[0]));
      assert items[1..] == CleanItems(Strings(xs[1..]));
      assert CleanAll(xs) == [Clean(xs[0])] + CleanAll(xs[1..]);
      assert AllStrings(items) == Some([items[0].text] + CleanAll(xs[1..]));
    }
  }

  lemma StringsPrintable(xs: seq<string>, depth: nat)
    requires depth < MAX_DEPTH
    ensures Printable(Array(Strings(xs)), depth)
  {
    forall x | x in Strings(xs) ensures Printable(x, depth + 1) { }
  }

  lemma CleanAllFixed(xs: seq<string>)
    ensures CleanAll(xs) == xs <==> forall i :: 0 <= i < |xs| ==> IsClean(xs[i])
  {
    forall i | 0 <= i < |xs| ensures Clean(xs[i]) == xs[i] <==> IsClean(xs[i]) { CleanFixed(xs[i]); }
    if CleanAll(xs) == xs {
      forall i | 0 <= i < |xs| ensures IsClean(xs[i]) { assert CleanAll(xs)[i] == xs[i]; }
    }
  }
}
