/** What printing and parsing promise about each other. */
module JsonRoundTrip {
  import opened Bytes
  import opened Slices
  import opened JsonValue
  import opened JsonGrammar

  // ---------- The values in play ----------

  /** A string body the parser reads back whole: inner quotes escaped, end not escaping. */
  ghost predicate Safe(w: string) {
    && BackRun(w, |w|) % 2 == 0
    && forall k :: 0 <= k < |w| && w[k] == '"' ==> BackRun(w, k) % 2 == 1
  }

  /** What the C++ types guarantee of every value: 32-bit ints, map order. */
  ghost predicate WellFormed(v: JObject) {
    match v
    case JInt(n) => INT32_MIN <= n < INT32_LIMIT
    case JList(items) => forall i :: 0 <= i < |items| ==> WellFormed(items[i])
    case JDict(es) => SortedKeys(es) && forall i :: 0 <= i < |es| ==> WellFormed(es[i].value)
    case _ => true
  }

  ghost predicate DoubleFree(v: JObject) {
    match v
    case JDouble(_) => false
    case JList(items) => forall i :: 0 <= i < |items| ==> DoubleFree(items[i])
    case JDict(es) => forall i :: 0 <= i < |es| ==> DoubleFree(es[i].value)
    case _ => true
  }

  ghost predicate NonNegative(v: JObject) {
    match v
    case JInt(n) => n >= 0
    case JList(items) => forall i :: 0 <= i < |items| ==> NonNegative(items[i])
    case JDict(es) => forall i :: 0 <= i < |es| ==> NonNegative(es[i].value)
    case _ => true
  }

  ghost predicate SafeText(v: JObject) {
    match v
    case JStr(w) => Safe(w)
    case JList(items) => forall i :: 0 <= i < |items| ==> SafeText(items[i])
    case JDict(es) => forall i :: 0 <= i < |es| ==> Safe(es[i].key) && SafeText(es[i].value)
    case _ => true
  }

  // Well-formed, free of doubles, every string and key safe: only signs can go wrong.
  ghost predicate Clean(v: JObject) { WellFormed(v) && DoubleFree(v) && SafeText(v) }

  ghost predicate Printable(v: JObject) { Clean(v) && NonNegative(v) }

  // What may stand behind a printed value: nothing, or the punctuation of its container.
  ghost predicate Delimited(s: string, e: nat) {
    e == |s| || (e < |s| && (s[e] == ',' || s[e] == ']' || s[e] == '}'))
  }

  // ---------- Text at a position ----------

  lemma TokenHere(s: string, i: nat)
    requires i < |s| && !IsSpace(s[i]) && s[i] != '/'
    ensures NextToken(s, i) == Ok((), i)
  {
  }

  // One printed punctuation mark is the next token, and the text goes on behind it.
  lemma MarkHere(s: string, i: nat, mark: char, rest: string)
    requires At(s, i, [mark] + rest) && mark > ' ' && mark != '/'
    ensures i < |s| && s[i] == mark && NextToken(s, i) == Ok((), i) && At(s, i + 1, rest)
    ensures mark == ',' || mark == ']' || mark == '}' ==> Delimited(s, i)
  {
    AtIndex(s, i, [mark] + rest, 0);
    AtSplit(s, i, [mark], rest);
    TokenHere(s, i);
  }

  // ---------- Strings ----------

  lemma {:induction false} BackRunInside(w: string, s: string, p: nat, k: nat)
    requires At(s, p, w) && k <= |w| && p > 0 && s[p - 1] != '\\'
    ensures p + k <= |s| && BackRun(s, p + k) == BackRun(w, k)
    decreases k
  {
    if k > 0 {
      BackRunInside(w, s, p, k - 1);
      AtIndex(s, p, w, k - 1);
    }
  }

  // The body w stands at p between two quotes.
  ghost predicate Enclosed(w: string, s: string, p: nat) {
    At(s, p, w) && 0 < p && s[p - 1] == '"' && p + |w| < |s| && s[p + |w|] == '"'
  }

  lemma BodyAt(w: string, s: string, p: nat, k: nat)
    requires Enclosed(w, s, p) && k <= |w|
    ensures p + k < |s| && BackRun(s, p + k) == BackRun(w, k) && s[p + k] == if k < |w| then w[k] else '"'
  {
    BackRunInside(w, s, p, k);
    if k < |w| { AtIndex(s, p, w, k); }
  }

  lemma SafeBodyEnds(w: string, s: string, p: nat)
    requires Enclosed(w, s, p) && Safe(w)
    ensures ClosingQuote(s, p) == p + |w|
  {
    BodyAt(w, s, p, |w|);
    ClosingQuoteIsFirst(s, p);
    hide Enclosed;
    hide BackRun;
    hide ClosingQuote;
    var q := ClosingQuote(s, p);
    if q < p + |w| { BodyAt(w, s, p, q - p); }
  }

  lemma EndedBodyIsSafe(w: string, s: string, p: nat)
    requires Enclosed(w, s, p) && ClosingQuote(s, p) == p + |w|
    ensures Safe(w)
  {
    BodyAt(w, s, p, |w|);
    ClosingQuoteIsFirst(s, p);
    hide Enclosed;
    hide BackRun;
    hide ClosingQuote;
    forall k | 0 <= k < |w| && w[k] == '"' ensures BackRun(w, k) % 2 == 1 {
      BodyAt(w, s, p, k);
    }
  }

  /** The parser finds the printer's own closing quote if and only if the body is safe. */
  lemma ClosingQuoteOf(w: string, s: string, p: nat)
    requires Enclosed(w, s, p)
    ensures ClosingQuote(s, p) == p + |w| <==> Safe(w)
  {
    hide Safe;
    hide ClosingQuote;
    if Safe(w) { SafeBodyEnds(w, s, p); }
    if ClosingQuote(s, p) == p + |w| { EndedBodyIsSafe(w, s, p); }
  }

  lemma StringParses(w: string, s: string, i: nat)
    requires At(s, i, Quoted(w)) && Safe(w)
    ensures Parse(s, i) == Ok(JStr(w), i + |Quoted(w)|)
  {
    hide ParseList;
    hide ParseDict;
    hide At;
    hide Safe;
    hide ClosingQuote;
    QuotedAt(w, s, i);
    ClosingQuoteOf(w, s, i + 1);
    AtSlice(s, i + 1, w);
  }

  lemma QuotedAt(w: string, s: string, i: nat)
    requires At(s, i, Quoted(w))
    ensures At(s, i + 1, w) && i + 1 + |w| < |s| && s[i] == '"' && s[i + 1 + |w|] == '"'
    ensures NextToken(s, i) == Ok((), i)
  {
    assert Quoted(w) == ['"'] + (w + "\"");
    MarkHere(s, i, '"', w + "\"");
    AtSplit(s, i + 1, w, "\"");
    AtIndex(s, i + 1 + |w|, "\"", 0);
  }

  // ---------- Numbers ----------

  lemma {:induction false} DigitsSkipped(s: string, i: nat, ds: string, k: nat)
    requires At(s, i, ds) && AllDigits(ds) && k <= |ds|
    requires i + |ds| == |s| || !IsDigit(s[i + |ds|])
    ensures SkipDigits(s, i + k) == i + |ds|
    decreases |ds| - k
  {
    if k < |ds| {
      AtIndex(s, i, ds, k);
      DigitsSkipped(s, i, ds, k + 1);
    }
  }

  lemma NumberParses(n: nat, s: string, i: nat)
    requires n < INT32_LIMIT && At(s, i, PrintNat(n)) && Delimited(s, i + |PrintNat(n)|)
    ensures Parse(s, i) == Ok(JInt(n), i + |PrintNat(n)|)
  {
    hide ParseList;
    hide ParseDict;
    hide At;
    var ds := PrintNat(n);
    AtIndex(s, i, ds, 0);
    AtSlice(s, i, ds);
    TokenHere(s, i);
    DigitsSkipped(s, i, ds, 0);
    DigitsValuePrintNat(n);
  }

  // ---------- One step of each container loop ----------

  lemma ParseListIs(s: string, i: nat, j: nat)
    requires i + 1 <= j < |s| && s[i] == '[' && NextToken(s, i) == Ok((), i) && NextToken(s, i + 1) == Ok((), j)
    ensures Parse(s, i) == if s[j] == ']' then Ok(JList([]), j + 1) else ParseItems(s, j, [])
  {
  }

  lemma ParseItemsIs(s: string, i: nat, acc: seq<JObject>, v: JObject, next: nat)
    requires i <= next < |s| && Parse(s, i) == Ok(v, next) && NextToken(s, next) == Ok((), next)
    ensures s[next] == ']' ==> ParseItems(s, i, acc) == Ok(JList(acc + [v]), next + 1)
    ensures s[next] == ',' ==> ParseItems(s, i, acc) == ParseItems(s, next + 1, acc + [v])
  {
    hide Parse;
  }

  lemma ParseDictIs(s: string, i: nat, j: nat)
    requires i + 1 <= j < |s| && s[i] == '{' && NextToken(s, i) == Ok((), i) && NextToken(s, i + 1) == Ok((), j)
    ensures Parse(s, i) == if s[j] == '}' then Ok(JDict([]), j + 1) else ParseEntries(s, j, [])
  {
  }

  lemma ParseEntryIs(s: string, i: nat, e: Entry, c: nat, next: nat)
    requires i <= c < |s| && Parse(s, i) == Ok(JStr(e.key), c)
    requires NextToken(s, c) == Ok((), c) && s[c] == ':' && Parse(s, c + 1) == Ok(e.value, next)
    ensures ParseEntry(s, i) == Ok(e, next)
  {
    hide Parse;
  }

  lemma ParseEntriesIs(s: string, i: nat, acc: seq<Entry>, e: Entry, next: nat)
    requires i <= next < |s| && ParseEntry(s, i) == Ok(e, next) && NextToken(s, next) == Ok((), next)
    ensures s[next] == '}' ==> ParseEntries(s, i, acc) == Ok(JDict(Insert(acc, e.key, e.value)), next + 1)
    ensures s[next] == ',' ==> ParseEntries(s, i, acc) == ParseEntries(s, next + 1, Insert(acc, e.key, e.value))
  {
    hide Parse;
    hide ParseEntry;
  }

  // ---------- The shape of printed containers ----------

  lemma PrintItemsShape(items: seq<JObject>, fmt: DoubleFormat)
    requires items != []
    ensures PrintItems(items, fmt) + "]"
         == Print(items[0], fmt) + if |items| == 1 then [']'] + "" else [','] + (PrintItems(items[1..], fmt) + "]")
  {
    hide Print;
  }

  lemma PrintEntriesShape(es: seq<Entry>, fmt: DoubleFormat)
    requires es != []
    ensures PrintEntries(es, fmt) + "}"
         == PrintEntry(es[0], fmt) + if |es| == 1 then ['}'] + "" else [','] + (PrintEntries(es[1..], fmt) + "}")
  {
    hide PrintEntry;
  }

  lemma PrintEntryShape(e: Entry, fmt: DoubleFormat)
    ensures PrintEntry(e, fmt) == Quoted(e.key) + ([':'] + Print(e.value, fmt))
  {
    hide Print;
    hide Quoted;
  }

  lemma PrintableParts(v: JObject)
    requires Printable(v)
    ensures DoubleFree(v)
  {
  }

  lemma PrintNothing(fmt: DoubleFormat)
    ensures PrintItems([], fmt) == PrintEntries([], fmt) == ""
    ensures "" + "]" == [']'] + "" && "" + "}" == ['}'] + ""
  {
  }

  /** Where the first of some printed items ends, and what stands there. */
  lemma ItemHere(items: seq<JObject>, s: string, i: nat, fmt: DoubleFormat)
    requires items != [] && At(s, i, PrintItems(items, fmt) + "]")
    ensures var e := i + |Print(items[0], fmt)|;
      && At(s, i, Print(items[0], fmt)) && e < |s| && Delimited(s, e) && NextToken(s, e) == Ok((), e)
      && (|items| == 1 ==> s[e] == ']' && e == i + |PrintItems(items, fmt)|)
      && (|items| > 1 ==> s[e] == ',' && At(s, e + 1, PrintItems(items[1..], fmt) + "]")
                          && e + 1 + |PrintItems(items[1..], fmt)| == i + |PrintItems(items, fmt)|)
  {
    hide *;
    var p := Print(items[0], fmt);
    PrintItemsShape(items, fmt);
    if |items| == 1 {
      AtSplit(s, i, p, [']'] + "");
      MarkHere(s, i + |p|, ']', "");
    } else {
      var rest := PrintItems(items[1..], fmt) + "]";
      AtSplit(s, i, p, [','] + rest);
      MarkHere(s, i + |p|, ',', rest);
    }
  }

  lemma EntryHere(es: seq<Entry>, s: string, i: nat, fmt: DoubleFormat)
    requires es != [] && At(s, i, PrintEntries(es, fmt) + "}")
    ensures var e := i + |PrintEntry(es[0], fmt)|;
      && At(s, i, PrintEntry(es[0], fmt)) && e < |s| && Delimited(s, e) && NextToken(s, e) == Ok((), e)
      && (|es| == 1 ==> s[e] == '}' && e == i + |PrintEntries(es, fmt)|)
      && (|es| > 1 ==> s[e] == ',' && At(s, e + 1, PrintEntries(es[1..], fmt) + "}")
                       && e + 1 + |PrintEntries(es[1..], fmt)| == i + |PrintEntries(es, fmt)|)
  {
    hide *;
    var p := PrintEntry(es[0], fmt);
    PrintEntriesShape(es, fmt);
    if |es| == 1 {
      AtSplit(s, i, p, ['}'] + "");
      MarkHere(s, i + |p|, '}', "");
    } else {
      var rest := PrintEntries(es[1..], fmt) + "}";
      AtSplit(s, i, p, [','] + rest);
      MarkHere(s, i + |p|, ',', rest);
    }
  }

  // No printed value can be mistaken for blank space, a comment or a closing bracket.
  lemma PrintStartsToken(v: JObject, s: string, i: nat, fmt: DoubleFormat)
    requires DoubleFree(v) && At(s, i, Print(v, fmt))
    ensures i < |s| && NextToken(s, i) == Ok((), i) && s[i] != ']' && s[i] != '}'
  {
    AtIndex(s, i, Print(v, fmt), 0);
    TokenHere(s, i);
  }

  // ---------- Printed text parses back ----------

  lemma {:induction false} PrintedParses(v: JObject, s: string, i: nat, fmt: DoubleFormat)
    requires Printable(v) && At(s, i, Print(v, fmt)) && Delimited(s, i + |Print(v, fmt)|)
    ensures Parse(s, i) == Ok(v, i + |Print(v, fmt)|)
    decreases v, 1
  {
    match v
    case JInt(n) => NumberParses(n, s, i);
    case JStr(w) => StringParses(w, s, i);
    case JList(items) => ListParses(items, s, i, fmt);
    case JDict(es) => DictParses(es, s, i, fmt);
    case JNull =>
      PrintStartsToken(v, s, i, fmt);
      AtIndex(s, i, "null", 0);
    case JBool(b) =>
      PrintStartsToken(v, s, i, fmt);
      AtIndex(s, i, Print(v, fmt), 0);
      TrueStartsWithT(s, i);
  }

  lemma TrueStartsWithT(s: string, i: nat)
    ensures At(s, i, "true") ==> s[i] == 't'
  {
    if At(s, i, "true") { AtIndex(s, i, "true", 0); }
  }

  lemma {:induction false} ListParses(items: seq<JObject>, s: string, i: nat, fmt: DoubleFormat)
    requires forall k :: 0 <= k < |items| ==> Printable(items[k])
    requires At(s, i, "[" + PrintItems(items, fmt) + "]")
    ensures Parse(s, i) == Ok(JList(items), i + |PrintItems(items, fmt)| + 2)
    decreases items, 1
  {
    hide *;
    assert "[" + PrintItems(items, fmt) + "]" == ['['] + (PrintItems(items, fmt) + "]");
    MarkHere(s, i, '[', PrintItems(items, fmt) + "]");
    if items == [] {
      PrintNothing(fmt);
      MarkHere(s, i + 1, ']', "");
      ParseListIs(s, i, i + 1);
    } else {
      ItemHere(items, s, i + 1, fmt);
      assert DoubleFree(items[0]) by { PrintableParts(items[0]); }
      PrintStartsToken(items[0], s, i + 1, fmt);
      ParseListIs(s, i, i + 1);
      ItemsParse(items, [], s, i + 1, fmt);
      assert [] + items == items;
    }
  }

  lemma {:induction false} ItemsParse(items: seq<JObject>, acc: seq<JObject>, s: string, i: nat, fmt: DoubleFormat)
    requires items != [] && At(s, i, PrintItems(items, fmt) + "]")
    requires forall k :: 0 <= k < |items| ==> Printable(items[k])
    ensures ParseItems(s, i, acc) == Ok(JList(acc + items), i + |PrintItems(items, fmt)| + 1)
    decreases items, 0
  {
    hide *;
    var v, rest, e := items[0], items[1..], i + |Print(items[0], fmt)|;
    ItemHere(items, s, i, fmt);
    PrintedParses(v, s, i, fmt);
    ParseItemsIs(s, i, acc, v, e);
    assert acc + [v] + rest == acc + items;
    if |items| > 1 {
      ItemsParse(rest, acc + [v], s, e + 1, fmt);
    } else {
      assert acc + [v] == acc + items;
    }
  }

  lemma {:induction false} DictParses(es: seq<Entry>, s: string, i: nat, fmt: DoubleFormat)
    requires SortedKeys(es) && forall k :: 0 <= k < |es| ==> Safe(es[k].key) && Printable(es[k].value)
    requires At(s, i, "{" + PrintEntries(es, fmt) + "}")
    ensures Parse(s, i) == Ok(JDict(es), i + |PrintEntries(es, fmt)| + 2)
    decreases es, 1
  {
    hide *;
    assert "{" + PrintEntries(es, fmt) + "}" == ['{'] + (PrintEntries(es, fmt) + "}");
    MarkHere(s, i, '{', PrintEntries(es, fmt) + "}");
    if es == [] {
      PrintNothing(fmt);
      MarkHere(s, i + 1, '}', "");
      ParseDictIs(s, i, i + 1);
    } else {
      EntryHere(es, s, i + 1, fmt);
      KeyParses(es[0], s, i + 1, fmt);
      ParseDictIs(s, i, i + 1);
      assert [] + es == es;
      EntriesParse(es, [], s, i + 1, fmt);
    }
  }

  // The key and its colon parse whatever the value turns out to be.
  lemma KeyParses(e: Entry, s: string, i: nat, fmt: DoubleFormat)
    requires Safe(e.key) && At(s, i, PrintEntry(e, fmt))
    ensures var c := i + |Quoted(e.key)|;
            && NextToken(s, i) == Ok((), i) && s[i] == '"'
            && Parse(s, i) == Ok(JStr(e.key), c) && c < |s| && s[c] == ':'
            && NextToken(s, c) == Ok((), c) && At(s, c + 1, Print(e.value, fmt))
            && c + 1 + |Print(e.value, fmt)| == i + |PrintEntry(e, fmt)|
  {
    hide *;
    var q := Quoted(e.key);
    PrintEntryShape(e, fmt);
    AtSplit(s, i, q, [':'] + Print(e.value, fmt));
    MarkHere(s, i + |q|, ':', Print(e.value, fmt));
    QuotedAt(e.key, s, i);
    StringParses(e.key, s, i);
  }

  lemma {:induction false} EntryParses(e: Entry, s: string, i: nat, fmt: DoubleFormat)
    requires Safe(e.key) && Printable(e.value) && At(s, i, PrintEntry(e, fmt)) && Delimited(s, i + |PrintEntry(e, fmt)|)
    ensures ParseEntry(s, i) == Ok(e, i + |PrintEntry(e, fmt)|)
    decreases e, 0
  {
    hide *;
    KeyParses(e, s, i, fmt);
    var c := i + |Quoted(e.key)|;
    PrintedParses(e.value, s, c + 1, fmt);
    ParseEntryIs(s, i, e, c, i + |PrintEntry(e, fmt)|);
  }

  lemma {:induction false} EntriesParse(es: seq<Entry>, acc: seq<Entry>, s: string, i: nat, fmt: DoubleFormat)
    requires es != [] && At(s, i, PrintEntries(es, fmt) + "}") && SortedKeys(acc + es)
    requires forall k :: 0 <= k < |es| ==> Safe(es[k].key) && Printable(es[k].value)
    ensures ParseEntries(s, i, acc) == Ok(JDict(acc + es), i + |PrintEntries(es, fmt)| + 1)
    decreases es, 0
  {
    hide *;
    var e, rest, next := es[0], es[1..], i + |PrintEntry(es[0], fmt)|;
    SortedPrefix(acc, es);
    InsertAppends(acc, e.key, e.value);
    EntryHere(es, s, i, fmt);
    EntryParses(e, s, i, fmt);
    ParseEntriesIs(s, i, acc, e, next);
    assert acc + [e] + rest == acc + es;
    if |es| > 1 {
      EntriesParse(rest, acc + [e], s, next + 1, fmt);
    } else {
      assert acc + [e] == acc + es;
    }
  }

  lemma SortedPrefix(acc: seq<Entry>, es: seq<Entry>)
    requires es != [] && SortedKeys(acc + es)
    ensures forall k :: 0 <= k < |acc| ==> Less(acc[k].key, es[0].key)
  {
    hide Less;
    forall k | 0 <= k < |acc| ensures Less(acc[k].key, es[0].key) {
      assert (acc + es)[k] == acc[k] && (acc + es)[|acc|] == es[0];
    }
  }

  // ---------- A negative number never parses back ----------

  lemma {:induction false} PrintedThrows(v: JObject, s: string, i: nat, fmt: DoubleFormat)
    requires Clean(v) && !NonNegative(v) && At(s, i, Print(v, fmt))
    ensures Parse(s, i).Throw?
    decreases v, 1
  {
    match v
    case JInt(n) => MinusThrows(-n, s, i);
    case JList(items) => ListThrows(items, s, i, fmt);
    case JDict(es) => DictThrows(es, s, i, fmt);
  }

  lemma MinusThrows(n: nat, s: string, i: nat)
    requires At(s, i, "-" + PrintNat(n))
    ensures Parse(s, i) == Throw(NotNumber)
  {
    assert "-" + PrintNat(n) == ['-'] + PrintNat(n);
    MarkHere(s, i, '-', PrintNat(n));
  }

  lemma {:induction false} ListThrows(items: seq<JObject>, s: string, i: nat, fmt: DoubleFormat)
    requires forall k :: 0 <= k < |items| ==> Clean(items[k])
    requires exists k :: 0 <= k < |items| && !NonNegative(items[k])
    requires At(s, i, "[" + PrintItems(items, fmt) + "]")
    ensures Parse(s, i).Throw?
    decreases items, 1
  {
    hide *;
    assert "[" + PrintItems(items, fmt) + "]" == ['['] + (PrintItems(items, fmt) + "]");
    MarkHere(s, i, '[', PrintItems(items, fmt) + "]");
    ItemHere(items, s, i + 1, fmt);
    CleanParts(items[0]);
    PrintStartsToken(items[0], s, i + 1, fmt);
    ParseListIs(s, i, i + 1);
    ItemsThrow(items, [], s, i + 1, fmt);
  }

  lemma CleanParts(v: JObject)
    requires Clean(v)
    ensures DoubleFree(v)
    ensures NonNegative(v) ==> Printable(v)
  {
  }

  lemma {:induction false} ItemsThrow(items: seq<JObject>, acc: seq<JObject>, s: string, i: nat, fmt: DoubleFormat)
    requires At(s, i, PrintItems(items, fmt) + "]")
    requires forall k :: 0 <= k < |items| ==> Clean(items[k])
    requires exists k :: 0 <= k < |items| && !NonNegative(items[k])
    ensures ParseItems(s, i, acc).Throw?
    decreases items, 0
  {
    hide *;
    var v, rest, e := items[0], items[1..], i + |Print(items[0], fmt)|;
    ItemHere(items, s, i, fmt);
    if !NonNegative(v) {
      PrintedThrows(v, s, i, fmt);
      ParseItemsFails(s, i, acc);
    } else {
      var k :| 0 <= k < |items| && !NonNegative(items[k]);
      assert rest[k - 1] == items[k];
      CleanParts(v);
      PrintedParses(v, s, i, fmt);
      ParseItemsIs(s, i, acc, v, e);
      ItemsThrow(rest, acc + [v], s, e + 1, fmt);
    }
  }

  lemma ParseItemsFails(s: string, i: nat, acc: seq<JObject>)
    requires i <= |s| && Parse(s, i).Throw?
    ensures ParseItems(s, i, acc).Throw?
  {
    hide Parse;
  }

  lemma {:induction false} DictThrows(es: seq<Entry>, s: string, i: nat, fmt: DoubleFormat)
    requires SortedKeys(es) && forall k :: 0 <= k < |es| ==> Safe(es[k].key) && Clean(es[k].value)
    requires exists k :: 0 <= k < |es| && !NonNegative(es[k].value)
    requires At(s, i, "{" + PrintEntries(es, fmt) + "}")
    ensures Parse(s, i).Throw?
    decreases es, 1
  {
    hide *;
    assert "{" + PrintEntries(es, fmt) + "}" == ['{'] + (PrintEntries(es, fmt) + "}");
    MarkHere(s, i, '{', PrintEntries(es, fmt) + "}");
    EntryHere(es, s, i + 1, fmt);
    KeyParses(es[0], s, i + 1, fmt);
    ParseDictIs(s, i, i + 1);
    EntriesThrow(es, [], s, i + 1, fmt);
  }

  lemma {:induction false} EntriesThrow(es: seq<Entry>, acc: seq<Entry>, s: string, i: nat, fmt: DoubleFormat)
    requires At(s, i, PrintEntries(es, fmt) + "}")
    requires forall k :: 0 <= k < |es| ==> Safe(es[k].key) && Clean(es[k].value)
    requires exists k :: 0 <= k < |es| && !NonNegative(es[k].value)
    ensures ParseEntries(s, i, acc).Throw?
    decreases es, 0
  {
    hide *;
    var e, rest, next := es[0], es[1..], i + |PrintEntry(es[0], fmt)|;
    EntryHere(es, s, i, fmt);
    if !NonNegative(e.value) {
      KeyParses(e, s, i, fmt);
      var c := i + |Quoted(e.key)|;
      PrintedThrows(e.value, s, c + 1, fmt);
      ParseEntriesFails(s, i, e.key, c, acc);
    } else {
      var k :| 0 <= k < |es| && !NonNegative(es[k].value);
      assert rest[k - 1] == es[k];
      CleanParts(e.value);
      EntryParses(e, s, i, fmt);
      ParseEntriesIs(s, i, acc, e, next);
      EntriesThrow(rest, Insert(acc, e.key, e.value), s, next + 1, fmt);
    }
  }

  lemma ParseEntriesFails(s: string, i: nat, key: string, c: nat, acc: seq<Entry>)
    requires i <= c < |s| && Parse(s, i) == Ok(JStr(key), c)
    requires NextToken(s, c) == Ok((), c) && s[c] == ':' && Parse(s, c + 1).Throw?
    ensures ParseEntries(s, i, acc).Throw?
  {
    hide Parse;
  }

  // ---------- Code, strings and comments ----------

  /** What a position of the text belongs to, read from left to right. */
  datatype Mode = Code | InString | InComment

  function ModeAt(s: string, k: nat): Mode
    requires k <= |s|
  {
    if k == 0 then Code else
    match ModeAt(s, k - 1)
    case Code => if s[k - 1] == '"' then InString else if AtComment(s, k - 1) then InComment else Code
    case InString => if s[k - 1] == '"' && BackRun(s, k - 1) % 2 == 0 then Code else InString
    case InComment => if s[k - 1] == '\n' then Code else InComment
  }

  // A cursor that stands outside strings and comments.
  ghost predicate OnCode(s: string, i: nat) { i <= |s| && ModeAt(s, i).Code? }

  lemma PlainStep(s: string, i: nat)
    requires i < |s| && OnCode(s, i) && s[i] != '"' && s[i] != '/'
    ensures OnCode(s, i + 1)
  {
  }

  lemma {:induction false} SpacesOnCode(s: string, i: nat)
    requires OnCode(s, i)
    ensures OnCode(s, SkipSpaces(s, i))
    decreases |s| - i
  {
    if i < |s| && IsSpace(s[i]) {
      PlainStep(s, i);
      SpacesOnCode(s, i + 1);
    }
  }

  lemma {:induction false} DigitsOnCode(s: string, i: nat)
    requires OnCode(s, i)
    ensures OnCode(s, SkipDigits(s, i))
    ensures forall k :: i <= k < SkipDigits(s, i) ==> OnCode(s, k)
    decreases |s| - i
  {
    if i < |s| && IsDigit(s[i]) {
      PlainStep(s, i);
      DigitsOnCode(s, i + 1);
    }
  }

  lemma {:induction false} InCommentUpTo(s: string, i: nat, k: nat)
    requires AtComment(s, i) && OnCode(s, i) && i < k <= FindChar(s, '\n', i) && k <= |s|
    ensures ModeAt(s, k).InComment?
    decreases k
  {
    FindCharIsFirst(s, '\n', i);
    if k > i + 1 { InCommentUpTo(s, i, k - 1); }
  }

  // Some `//` outside strings and comments has no newline behind it.
  ghost predicate BareComment(s: string) {
    exists k :: 0 <= k < |s| && ModeAt(s, k).Code? && AtComment(s, k) && FindChar(s, '\n', k) == |s|
  }

  ghost predicate CommentOutcome(s: string, o: Outcome<()>) {
    (o.Ok? ==> OnCode(s, o.next)) && (o.CursorReset? ==> BareComment(s))
  }

  lemma {:induction false} CommentsOnCode(s: string, i: nat)
    requires OnCode(s, i)
    ensures CommentOutcome(s, SkipComment(s, i))
    decreases |s| - i
  {
    if AtComment(s, i) {
      var newline := FindChar(s, '\n', i);
      if newline < |s| {
        InCommentUpTo(s, i, newline);
        assert OnCode(s, newline + 1);
        SpacesOnCode(s, newline + 1);
        CommentsOnCode(s, SkipSpaces(s, newline + 1));
      }
    }
  }

  lemma TokenOnCode(s: string, i: nat)
    requires OnCode(s, i)
    ensures CommentOutcome(s, NextToken(s, i))
  {
    SpacesOnCode(s, i);
    CommentsOnCode(s, SkipSpaces(s, i));
  }

  // Any token but a quote or a slash is one character of code.
  lemma MarkOnCode(s: string, i: nat, mark: char)
    requires OnCode(s, i) && NextToken(s, i).Ok? && CharAt(s, NextToken(s, i).next) == mark
    requires mark != '\0' && mark != '"' && mark != '/'
    ensures OnCode(s, NextToken(s, i).next + 1)
  {
    TokenOnCode(s, i);
    PlainStep(s, NextToken(s, i).next);
  }

  lemma {:induction false} InStringUpTo(s: string, i: nat, k: nat)
    requires i < |s| && OnCode(s, i) && s[i] == '"' && i < k <= ClosingQuote(s, i + 1)
    ensures ModeAt(s, k).InString?
    decreases k
  {
    hide ClosingQuote;
    hide BackRun;
    if k > i + 1 {
      InStringUpTo(s, i, k - 1);
      assert s[k - 1] == '"' ==> BackRun(s, k - 1) % 2 == 1 by { ClosingQuoteIsFirst(s, i + 1); }
    }
  }

  lemma StringOnCode(s: string, i: nat)
    requires i < |s| && OnCode(s, i) && s[i] == '"' && ParseString(s, i).Ok?
    ensures OnCode(s, ParseString(s, i).next)
  {
    hide ClosingQuote;
    hide BackRun;
    var q := ClosingQuote(s, i + 1);
    assert s[q] == '"' && BackRun(s, q) % 2 == 0 by { ClosingQuoteIsFirst(s, i + 1); }
    InStringUpTo(s, i, q);
  }

  lemma {:induction false} WordOnCode(s: string, i: nat, w: string)
    requires OnCode(s, i) && At(s, i, w) && forall k :: 0 <= k < |w| ==> w[k] != '"' && w[k] != '/'
    ensures OnCode(s, i + |w|)
    decreases |w|
  {
    if w != "" {
      AtIndex(s, i, w, 0);
      PlainStep(s, i);
      assert w == [w[0]] + w[1..];
      AtSplit(s, i, [w[0]], w[1..]);
      WordOnCode(s, i + 1, w[1..]);
    }
  }

  lemma NumberOnCode(s: string, i: nat)
    requires OnCode(s, i) && ParseNumber(s, i).Ok?
    ensures OnCode(s, ParseNumber(s, i).next)
  {
    var j := SkipDigits(s, i);
    DigitsOnCode(s, i);
    if CharAt(s, j) == '.' {
      PlainStep(s, j);
      DigitsOnCode(s, j + 1);
    }
  }

  // ---------- Everything the parser returns is in normal form ----------

  ghost predicate Tidy(v: JObject) { WellFormed(v) && SafeText(v) }

  // Outside strings and comments: no digit is followed by a point; every run of digits denotes less
  // than 2^31.
  ghost predicate NoDecimals(s: string) {
    forall k :: 0 <= k < |s| - 1 && ModeAt(s, k).Code? && IsDigit(s[k]) ==> s[k + 1] != '.'
  }

  ghost predicate SmallLiterals(s: string) {
    forall i, j :: 0 <= i <= j <= |s| && ModeAt(s, i).Code? && AllDigits(s[i..j]) ==>
      DigitsValue(s[i..j]) < INT32_LIMIT
  }

  // What is true of a value parsed out of the text s.
  ghost predicate ParsedFrom(s: string, v: JObject) {
    && Tidy(v)
    && (NoDecimals(s) ==> DoubleFree(v))
    && (SmallLiterals(s) ==> NonNegative(v))
  }

  ghost predicate EntriesParsedFrom(s: string, es: seq<Entry>) {
    SortedKeys(es) && forall e :: e in es ==> Safe(e.key) && ParsedFrom(s, e.value)
  }

  /** What is true of an outcome of parsing in s from a position outside strings and comments. */
  ghost predicate Sound(s: string, o: Outcome<JObject>) {
    match o
    case Ok(v, next) => ParsedFrom(s, v) && OnCode(s, next)
    case Throw(_) => true
    case CursorReset(_) => BareComment(s)
  }

  lemma {:induction false} ParseIsSound(s: string, i: nat)
    requires OnCode(s, i)
    ensures Sound(s, Parse(s, i))
    decreases |s| - i, 2
  {
    hide ParseList;
    hide ParseDict;
    TokenOnCode(s, i);
    var t := NextToken(s, i);
    if t.Ok? {
      var c := CharAt(s, t.next);
      if c == '[' {
        ListIsSound(s, t.next);
      } else if c == '{' {
        DictIsSound(s, t.next);
      } else if c == '"' {
        StringIsSound(s, t.next);
      } else if c == '-' || IsDigit(c) {
        NumberIsSound(s, t.next);
      } else {
        WordIsSound(s, t.next);
      }
    }
  }

  lemma WordIsSound(s: string, i: nat)
    requires OnCode(s, i)
    ensures Sound(s, ParseNull(s, i)) && Sound(s, ParseBool(s, i))
  {
    if At(s, i, "null") { WordOnCode(s, i, "null"); }
    if At(s, i, "true") { WordOnCode(s, i, "true"); }
    if At(s, i, "false") { WordOnCode(s, i, "false"); }
  }

  lemma NumberIsSound(s: string, i: nat)
    requires OnCode(s, i)
    ensures Sound(s, ParseNumber(s, i))
  {
    if ParseNumber(s, i).Ok? {
      NumberOnCode(s, i);
      DigitsOnCode(s, i);
      var j := SkipDigits(s, i);
      assert IsDigit(s[i..j][j - i - 1]) && s[i..j][j - i - 1] == s[j - 1];
      assert OnCode(s, j - 1);
      if CharAt(s, j) == '.' { assert s[(j - 1) + 1] == '.'; }
    }
  }

  lemma StringIsSound(s: string, i: nat)
    requires i < |s| && OnCode(s, i) && s[i] == '"'
    ensures Sound(s, ParseString(s, i))
  {
    var q := ClosingQuote(s, i + 1);
    if q < |s| {
      StringOnCode(s, i);
      ReadBodyIsSafe(s, i);
      hide ClosingQuote;
      hide ModeAt;
      hide Safe;
    }
  }

  lemma ReadBodyIsSafe(s: string, i: nat)
    requires i < |s| && s[i] == '"' && ClosingQuote(s, i + 1) < |s|
    ensures Safe(s[i + 1..ClosingQuote(s, i + 1)])
  {
    hide ClosingQuote;
    hide Safe;
    var q := ClosingQuote(s, i + 1);
    assert s[q] == '"' by { ClosingQuoteIsFirst(s, i + 1); }
    assert Enclosed(s[i + 1..q], s, i + 1);
    EndedBodyIsSafe(s[i + 1..q], s, i + 1);
  }

  lemma {:induction false} ListIsSound(s: string, i: nat)
    requires i < |s| && OnCode(s, i) && s[i] == '['
    ensures Sound(s, ParseList(s, i))
    decreases |s| - i, 1
  {
    hide ParseItems;
    hide ModeAt;
    PlainStep(s, i);
    TokenOnCode(s, i + 1);
    var t := NextToken(s, i + 1);
    if t.Ok? {
      if CharAt(s, t.next) == ']' { MarkOnCode(s, i + 1, ']'); } else { ItemsAreSound(s, t.next, []); }
    }
  }

  lemma {:induction false} ItemsAreSound(s: string, i: nat, acc: seq<JObject>)
    requires OnCode(s, i) && forall k :: 0 <= k < |acc| ==> ParsedFrom(s, acc[k])
    ensures Sound(s, ParseItems(s, i, acc))
    decreases |s| - i, 3
  {
    hide Parse;
    hide NextToken;
    hide ModeAt;
    hide NoDecimals;
    hide SmallLiterals;
    hide BareComment;
    ParseIsSound(s, i);
    var v := Parse(s, i);
    if v.Ok? {
      TokenOnCode(s, v.next);
      var t := NextToken(s, v.next);
      if t.Ok? {
        if CharAt(s, t.next) == ',' {
          MarkOnCode(s, v.next, ',');
          ItemsAreSound(s, t.next + 1, acc + [v.value]);
        } else if CharAt(s, t.next) == ']' {
          MarkOnCode(s, v.next, ']');
          ListIsTidy(s, acc + [v.value]);
        }
      }
    }
  }

  lemma ListIsTidy(s: string, items: seq<JObject>)
    requires forall k :: 0 <= k < |items| ==> ParsedFrom(s, items[k])
    ensures ParsedFrom(s, JList(items))
  {
    hide NoDecimals;
    hide SmallLiterals;
  }

  lemma {:induction false} DictIsSound(s: string, i: nat)
    requires i < |s| && OnCode(s, i) && s[i] == '{'
    ensures Sound(s, ParseDict(s, i))
    decreases |s| - i, 1
  {
    hide ParseEntries;
    hide ModeAt;
    PlainStep(s, i);
    TokenOnCode(s, i + 1);
    var t := NextToken(s, i + 1);
    if t.Ok? {
      if CharAt(s, t.next) == '}' { MarkOnCode(s, i + 1, '}'); } else { EntriesAreSound(s, t.next, []); }
    }
  }

  lemma {:induction false} EntryIsSound(s: string, i: nat)
    requires OnCode(s, i)
    ensures match ParseEntry(s, i)
      case Ok(e, next) => Safe(e.key) && ParsedFrom(s, e.value) && OnCode(s, next)
      case Throw(_) => true
      case CursorReset(_) => BareComment(s)
    decreases |s| - i, 3
  {
    hide Parse;
    hide NextToken;
    hide ModeAt;
    hide NoDecimals;
    hide SmallLiterals;
    hide BareComment;
    ParseIsSound(s, i);
    var k := Parse(s, i);
    if k.Ok? {
      TokenOnCode(s, k.next);
      var t := NextToken(s, k.next);
      if t.Ok? && CharAt(s, t.next) == ':' {
        MarkOnCode(s, k.next, ':');
        ParseIsSound(s, t.next + 1);
      }
    }
  }

  lemma {:induction false} EntriesAreSound(s: string, i: nat, acc: seq<Entry>)
    requires OnCode(s, i) && EntriesParsedFrom(s, acc)
    ensures Sound(s, ParseEntries(s, i, acc))
    decreases |s| - i, 4
  {
    hide ParseEntry;
    hide ParsedFrom;
    hide NextToken;
    hide ModeAt;
    hide BareComment;
    EntryIsSound(s, i);
    var e := ParseEntry(s, i);
    if e.Ok? {
      TokenOnCode(s, e.next);
      InsertIsMapUpdate(acc, e.value.key, e.value.value);
      var dict := Insert(acc, e.value.key, e.value.value);
      assert EntriesParsedFrom(s, dict);
      var t := NextToken(s, e.next);
      if t.Ok? {
        if CharAt(s, t.next) == ',' {
          MarkOnCode(s, e.next, ',');
          EntriesAreSound(s, t.next + 1, dict);
        } else if CharAt(s, t.next) == '}' {
          MarkOnCode(s, e.next, '}');
          DictIsTidy(s, dict);
        }
      }
    }
  }

  lemma DictIsTidy(s: string, es: seq<Entry>)
    requires EntriesParsedFrom(s, es)
    ensures ParsedFrom(s, JDict(es))
  {
    hide NoDecimals;
    hide SmallLiterals;
    assert forall k :: 0 <= k < |es| ==> es[k] in es;
  }

  /** Whatever text is parsed: the value is well-formed and its strings are safe; it holds no double
      if no literal of the text is a decimal, and no negative int if none is 2^31 or more. What stands
      inside strings and comments does not matter. */
  lemma ParsedIsTidy(s: string)
    requires Parse(s, 0).Ok?
    ensures ParsedFrom(s, Parse(s, 0).value)
  {
    ParseIsSound(s, 0);
  }

  /** Unless some `//` outside strings has no newline behind it, parsing ends in a value or a thrown
      error: the cursor is never reset. */
  lemma ResetNeedsBareComment(s: string)
    requires Parse(s, 0).CursorReset?
    ensures BareComment(s)
  {
    ParseIsSound(s, 0);
  }

  // ---------- The theorems ----------

  lemma PrintHasNoTail(v: JObject, fmt: DoubleFormat)
    requires DoubleFree(v)
    ensures TrimRight(Print(v, fmt)) == Print(v, fmt)
  {
    var p := Print(v, fmt);
    assert p != "" && !IsSpace(p[|p| - 1]);
  }

  /** FromString(ToString(v)) == v exactly for values whose strings and keys are safe and whose
      ints are not negative; `WellFormed` holds of every JObject, doubles are not modelled. */
  lemma RoundTripExactly(v: JObject, fmt: DoubleFormat)
    requires WellFormed(v) && DoubleFree(v)
    ensures var r := FromString(Print(v, fmt));
            r.Ok? && r.value == v <==> SafeText(v) && NonNegative(v)
    ensures SafeText(v) && NonNegative(v) ==> FromString(Print(v, fmt)) == Ok(v, |Print(v, fmt)|)
  {
    hide Parse;
    hide Print;
    hide TrimRight;
    var s := Print(v, fmt);
    PrintHasNoTail(v, fmt);
    assert At(s, 0, s);
    if SafeText(v) && NonNegative(v) {
      PrintedParses(v, s, 0, fmt);
    } else if SafeText(v) {
      PrintedThrows(v, s, 0, fmt);
    } else if Parse(s, 0).Ok? {
      ParsedIsTidy(s);
    }
  }

  /** Printing is injective on the values it round-trips. */
  lemma PrintInjective(v: JObject, w: JObject, fmt: DoubleFormat)
    requires Printable(v) && Printable(w) && Print(v, fmt) == Print(w, fmt)
    ensures v == w
  {
    hide Parse;
    hide Print;
    RoundTripExactly(v, fmt);
    RoundTripExactly(w, fmt);
  }

  /** Parse-print-parse is parse, exactly when no literal wrapped to a negative int. */
  lemma NormalForm(text: string, fmt: DoubleFormat)
    requires FromString(text).Ok? && DoubleFree(FromString(text).value)
    ensures var v := FromString(text).value;
            && WellFormed(v) && SafeText(v)
            && ((var r := FromString(Print(v, fmt)); r.Ok? && r.value == v) <==> NonNegative(v))
  {
    hide Parse;
    ParsedIsTidy(TrimRight(text));
    RoundTripExactly(FromString(text).value, fmt);
  }

  /** In particular for every text without decimal literals and without literals of 2^31 or more,
      whatever its strings and comments hold. */
  lemma NormalFormOfPlainText(text: string, fmt: DoubleFormat)
    requires FromString(text).Ok? && NoDecimals(TrimRight(text)) && SmallLiterals(TrimRight(text))
    ensures var v := FromString(text).value;
            Printable(v) && FromString(Print(v, fmt)) == Ok(v, |Print(v, fmt)|)
  {
    hide Parse;
    ParsedIsTidy(TrimRight(text));
    RoundTripExactly(FromString(text).value, fmt);
  }
}
