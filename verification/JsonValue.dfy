/** The value type of tinyjson (JObject) and its printer (JObject::ToString).

    A `dict_t` is a `std::map<string, JObject>`, so a dictionary is modelled by what an
    in-order walk of that map yields: its entries, strictly ascending by key.
  */
module JsonValue {
  import opened Bytes

  datatype JObject =
    | JNull
    | JBool(b: bool)
    | JInt(n: int)
      // The text handed to strtof64; the double it denotes is not modelled.
    | JDouble(text: string)
    | JStr(s: string)
    | JList(items: seq<JObject>)
    | JDict(entries: seq<Entry>)

  datatype Entry = Entry(key: string, value: JObject)

  // How `operator<<` renders a double: a parameter of the printer, never inspected.
  type DoubleFormat = string -> string

  // ---------- Key order of std::map<string, _> ----------

  predicate Less(a: string, b: string) {
    if b == "" then false
    else if a == "" then true
    else a[0] < b[0] || (a[0] == b[0] && Less(a[1..], b[1..]))
  }

  lemma LessTotal(a: string, b: string)
    ensures Less(a, b) || a == b || Less(b, a)
    ensures !(Less(a, b) && (a == b || Less(b, a)))
  {
    if a != "" && b != "" && a[0] == b[0] {
      LessTotal(a[1..], b[1..]);
      assert a == [a[0]] + a[1..] && b == [b[0]] + b[1..];
    }
  }

  lemma LessTransitive(a: string, b: string, c: string)
    requires Less(a, b) && Less(b, c)
    ensures Less(a, c)
  {
    if a != "" && a[0] == b[0] == c[0] {
      LessTransitive(a[1..], b[1..], c[1..]);
    }
  }

  // a and b agree up to k, where a ends or has the smaller character.
  predicate DiffersAt(a: string, b: string, k: nat) {
    k <= |a| && k < |b| && a[..k] == b[..k] && (k < |a| ==> a[k] < b[k])
  }

  lemma DiffersBehind(a: string, b: string, k: nat)
    requires a != "" && b != "" && a[0] == b[0]
    ensures DiffersAt(a, b, k + 1) <==> DiffersAt(a[1..], b[1..], k)
    ensures !DiffersAt(a, b, 0)
  {
    if k < |a| && k < |b| {
      assert a[..k + 1] == [a[0]] + a[1..][..k] && b[..k + 1] == [b[0]] + b[1..][..k];
      assert a[1..][..k] == a[..k + 1][1..] && b[1..][..k] == b[..k + 1][1..];
    }
  }

  /** The order is that of std::string: the first difference decides, and a prefix comes first. */
  lemma {:induction false} LessIsLexicographic(a: string, b: string)
    ensures Less(a, b) <==> exists k :: DiffersAt(a, b, k)
  {
    if a != "" && b != "" && a[0] == b[0] {
      LessIsLexicographic(a[1..], b[1..]);
      hide DiffersAt;
      if Less(a, b) {
        var k :| DiffersAt(a[1..], b[1..], k);
        DiffersBehind(a, b, k);
      }
      if k: nat :| DiffersAt(a, b, k) {
        DiffersBehind(a, b, if k > 0 then k - 1 else 0);
      }
    } else {
      assert a[..0] == b[..0];
      assert Less(a, b) ==> DiffersAt(a, b, 0);
    }
  }

  predicate SortedKeys(es: seq<Entry>) {
    forall i, j :: 0 <= i < j < |es| ==> Less(es[i].key, es[j].key)
  }

  /** `dict[key] = value` on a sorted walk: overwrite in place or insert at the key's rank. */
  function Insert(es: seq<Entry>, key: string, value: JObject): (r: seq<Entry>)
  {
    if es == [] then [Entry(key, value)]
    else if es[0].key == key then [Entry(key, value)] + es[1..]
    else if Less(key, es[0].key) then [Entry(key, value)] + es
    else [es[0]] + Insert(es[1..], key, value)
  }

  lemma HeadBelowRest(es: seq<Entry>)
    requires SortedKeys(es) && es != []
    ensures SortedKeys(es[1..]) && forall e :: e in es[1..] ==> Less(es[0].key, e.key) && e.key != es[0].key
  {
    var rest := es[1..];
    forall e | e in rest ensures Less(es[0].key, e.key) && e.key != es[0].key {
      var j :| 0 <= j < |rest| && rest[j] == e;
      assert es[j + 1] == e;
      LessTotal(es[0].key, e.key);
    }
  }

  lemma SortedFromHead(head: Entry, rest: seq<Entry>)
    requires SortedKeys(rest) && forall e :: e in rest ==> Less(head.key, e.key)
    ensures SortedKeys([head] + rest)
    ensures forall e :: e in [head] + rest <==> e == head || e in rest
  {
  }

  /** Insert is map update: the order invariant is kept and exactly one binding changes. */
  lemma {:induction false} InsertIsMapUpdate(es: seq<Entry>, key: string, value: JObject)
    requires SortedKeys(es)
    ensures SortedKeys(Insert(es, key, value))
    ensures forall e :: e in Insert(es, key, value) <==> e == Entry(key, value) || (e in es && e.key != key)
  {
    hide Less;
    if es != [] {
      var first, rest := es[0], es[1..];
      HeadBelowRest(es);
      LessTotal(first.key, key);
      assert es == [first] + rest;
      hide SortedKeys;
      if first.key == key {
        SortedFromHead(Entry(key, value), rest);
      } else if Less(key, first.key) {
        forall e | e in es ensures Less(key, e.key) && e.key != key {
          if e != first { LessTransitive(key, first.key, e.key); }
          LessTotal(key, e.key);
        }
        SortedFromHead(Entry(key, value), es);
      } else {
        InsertIsMapUpdate(rest, key, value);
        SortedFromHead(first, Insert(rest, key, value));
      }
    }
  }

  /** A key above all present ones goes to the end: printed dictionaries re-enter in order. */
  lemma {:induction false} InsertAppends(es: seq<Entry>, key: string, value: JObject)
    requires forall i :: 0 <= i < |es| ==> Less(es[i].key, key)
    ensures Insert(es, key, value) == es + [Entry(key, value)]
  {
    if es != [] {
      LessTotal(es[0].key, key);
      InsertAppends(es[1..], key, value);
    }
  }

  // ---------- Numbers ----------

  const LONG_MAX: int := 0x7fff_ffff_ffff_ffff

  predicate IsDigit(c: char) { '0' <= c <= '9' }

  predicate AllDigits(ds: string) { forall i :: 0 <= i < |ds| ==> IsDigit(ds[i]) }

  function DigitChar(d: nat): (c: char)
    requires d < 10
    ensures IsDigit(c) && c as int == '0' as int + d
  {
    (d + 48) as char
  }

  function PrintNat(n: nat): (ds: string)
    ensures ds != "" && AllDigits(ds)
  {
    if n < 10 then [DigitChar(n)] else PrintNat(n / 10) + [DigitChar(n % 10)]
  }

  function PrintInt(n: int): string {
    if n < 0 then "-" + PrintNat(-n) else PrintNat(n)
  }

  function DigitsValue(ds: string): nat
    requires AllDigits(ds)
  {
    if ds == "" then 0
    else 10 * DigitsValue(ds[..|ds| - 1]) + (ds[|ds| - 1] as int - '0' as int)
  }

  /** `static_cast<int>(strtol(digits, nullptr, 10))`: strtol saturates, the cast wraps. */
  function StrToInt(ds: string): (r: int)
    requires AllDigits(ds)
    ensures DigitsValue(ds) < INT32_LIMIT ==> r == DigitsValue(ds)
    ensures DigitsValue(ds) <= LONG_MAX ==> INT32_MIN <= r < INT32_LIMIT && (DigitsValue(ds) - r) % UINT32_LIMIT == 0
    ensures DigitsValue(ds) > LONG_MAX ==> r == -1
  {
    var v := DigitsValue(ds);
    ToInt32(if v > LONG_MAX then LONG_MAX else v)
  }

  lemma {:induction false} DigitsValuePrintNat(n: nat)
    ensures DigitsValue(PrintNat(n)) == n
  {
    var ds := PrintNat(n);
    if n < 10 {
      assert ds[..0] == "";
    } else {
      DigitsValuePrintNat(n / 10);
      assert ds[..|ds| - 1] == PrintNat(n / 10);
    }
  }

  /** A negative number is a minus sign and the digits of its magnitude; no number but 0 has a leading
      zero. */
  lemma PrintIntDenotes(n: int)
    ensures n < 0 ==> PrintInt(n)[0] == '-' && AllDigits(PrintInt(n)[1..]) && DigitsValue(PrintInt(n)[1..]) == -n
    ensures n >= 0 ==> AllDigits(PrintInt(n)) && DigitsValue(PrintInt(n)) == n
    ensures n != 0 ==> PrintInt(n)[if n < 0 then 1 else 0] != '0'
  {
    var m := if n < 0 then -n else n;
    DigitsValuePrintNat(m);
    if n != 0 { NoLeadingZero(m); }
    if n < 0 { assert PrintInt(n)[1..] == PrintNat(m); }
  }

  lemma {:induction false} NoLeadingZero(n: nat)
    requires n > 0
    ensures PrintNat(n)[0] != '0'
  {
    if n >= 10 { NoLeadingZero(n / 10); }
  }

  // ---------- The printer ----------

  function Quoted(s: string): string { "\"" + s + "\"" }

  function Print(v: JObject, fmt: DoubleFormat): (r: string)
    decreases v, 1
  {
    match v
    case JNull => "null"
    case JBool(b) => if b then "true" else "false"
    case JInt(n) => PrintInt(n)
    case JDouble(text) => fmt(text)
    case JStr(s) => Quoted(s)
    case JList(items) => "[" + PrintItems(items, fmt) + "]"
    case JDict(entries) => "{" + PrintEntries(entries, fmt) + "}"
  }

  function PrintItems(items: seq<JObject>, fmt: DoubleFormat): string
    decreases items, 0
  {
    if items == [] then ""
    else if |items| == 1 then Print(items[0], fmt)
    else Print(items[0], fmt) + "," + PrintItems(items[1..], fmt)
  }

  function PrintEntry(e: Entry, fmt: DoubleFormat): string
    decreases e, 0
  {
    Quoted(e.key) + ":" + Print(e.value, fmt)
  }

  function PrintEntries(es: seq<Entry>, fmt: DoubleFormat): string
    decreases es, 0
  {
    if es == [] then ""
    else if |es| == 1 then PrintEntry(es[0], fmt)
    else PrintEntry(es[0], fmt) + "," + PrintEntries(es[1..], fmt)
  }

  /** JObject::ToString; `os` is the text of the output stream. */
  method ToString(v: JObject, fmt: DoubleFormat) returns (os: string)
    ensures os == Print(v, fmt)
    decreases v, 1
  {
    match v
    case JNull => os := "null";
    case JBool(b) => if b { os := "true"; } else { os := "false"; }
    case JInt(n) => os := PrintInt(n);
    case JDouble(text) => os := fmt(text);
    case JStr(s) => os := "\"" + s + "\"";
    case JList(items) => os := ListToString(items, fmt);
    case JDict(entries) => os := DictToString(entries, fmt);
  }

  /** The T_LIST loop: a comma after every element but the last. */
  method ListToString(items: seq<JObject>, fmt: DoubleFormat) returns (os: string)
    ensures os == "[" + PrintItems(items, fmt) + "]"
    decreases items, 0
  {
    os := "[";
    var i := 0;
    while i < |items|
      invariant 0 <= i <= |items|
      invariant os + PrintItems(items[i..], fmt) == "[" + PrintItems(items, fmt)
    {
      PrintItemsStep(os, items, i, fmt);
      var t := ToString(items[i], fmt);
      if i != |items| - 1 {
        os := os + t + ",";
      } else {
        os := os + t;
      }
      i := i + 1;
    }
    os := os + "]";
  }

  lemma PrintItemsStep(os: string, items: seq<JObject>, i: nat, fmt: DoubleFormat)
    requires i < |items|
    ensures os + PrintItems(items[i..], fmt)
         == os + Print(items[i], fmt) + (if i != |items| - 1 then "," else "") + PrintItems(items[i + 1..], fmt)
  {
    assert items[i..][1..] == items[i + 1..];
  }

  /** The T_DICT loop: a comma before every entry but the first. */
  method DictToString(es: seq<Entry>, fmt: DoubleFormat) returns (os: string)
    ensures os == "{" + PrintEntries(es, fmt) + "}"
    decreases es, 0
  {
    os := "{";
    var i := 0;
    while i < |es|
      invariant 0 <= i <= |es|
      invariant os + EntriesFrom(es, i, fmt) == "{" + PrintEntries(es, fmt)
    {
      EntriesFromStep(os, es, i, fmt);
      if i != 0 {
        os := os + ",";
      }
      var t := ToString(es[i].value, fmt);
      os := os + ("\"" + es[i].key + "\":" + t);
      i := i + 1;
    }
    os := os + "}";
  }

  // What the dictionary loop has still to write when it is about to visit entry i.
  function EntriesFrom(es: seq<Entry>, i: nat, fmt: DoubleFormat): string
    requires i <= |es|
  {
    (if 0 < i < |es| then "," else "") + PrintEntries(es[i..], fmt)
  }

  lemma EntriesFromStep(os: string, es: seq<Entry>, i: nat, fmt: DoubleFormat)
    requires i < |es|
    ensures os + EntriesFrom(es, i, fmt)
         == (if i != 0 then os + "," else os) + ("\"" + es[i].key + "\":" + Print(es[i].value, fmt))
            + EntriesFrom(es, i + 1, fmt)
  {
    assert es[i..][1..] == es[i + 1..];
    assert PrintEntries(es[i..], fmt) == PrintEntry(es[i], fmt) + EntriesFrom(es, i + 1, fmt);
    var e := es[i];
    assert PrintEntry(e, fmt) == "\"" + e.key + "\":" + Print(e.value, fmt);
  }
}
