/** The texts tinyjson reads, as trees of tokens with white space and comments between them, and what
    each tree means. Nothing here is defined by means of the parser; the parser is proved to read
    exactly these texts. */
module JsonText {
  import opened Slices
  import opened JsonValue
  import opened JsonGrammar
  import opened JsonRoundTrip

  // ---------- White space and comments ----------

  // A comment line and the white space behind it.
  datatype Comment = Comment(body: string, spaces: string)

  datatype Gap = Gap(spaces: string, comments: seq<Comment>)

  lemma SpaceCharacters(c: char)
    ensures IsSpace(c) <==> c == ' ' || c == '\t' || c == '\n' || c == 11 as char || c == 12 as char || c == '\r'
    ensures IsDigit(c) <==> c in "0123456789"
  {
  }

  ghost predicate Blank(w: string) { forall i :: 0 <= i < |w| ==> IsSpace(w[i]) }

  ghost predicate CommentOk(c: Comment) { '\n' !in c.body && Blank(c.spaces) }

  ghost predicate CommentsOk(cs: seq<Comment>) { forall i :: 0 <= i < |cs| ==> CommentOk(cs[i]) }

  ghost predicate GapOk(g: Gap) { Blank(g.spaces) && CommentsOk(g.comments) }

  function CommentText(c: Comment): string { ("//" + c.body) + ("\n" + c.spaces) }

  function CommentsText(cs: seq<Comment>): string {
    if cs == [] then "" else CommentText(cs[0]) + CommentsText(cs[1..])
  }

  function GapText(g: Gap): string { g.spaces + CommentsText(g.comments) }

  // ---------- Trees ----------

  datatype Tree =
    | TNull
    | TBool(b: bool)
    | TInt(digits: string)
    | TDecimal(whole: string, fraction: string)
    | TStr(body: string)
    | TNoItems(inside: Gap)
    | TList(items: seq<Item>)
    | TNoPairs(inside: Gap)
    | TDict(pairs: seq<Pair>)

  datatype Item = Item(before: Gap, value: Tree, after: Gap)

  datatype Pair = Pair(before: Gap, key: string, behind: Gap, item: Item)

  function Text(t: Tree): string
    decreases t, 1
  {
    match t
    case TNull => "null"
    case TBool(b) => if b then "true" else "false"
    case TInt(digits) => digits
    case TDecimal(whole, fraction) => whole + ("." + fraction)
    case TStr(body) => Quoted(body)
    case TNoItems(g) => "[" + (GapText(g) + "]")
    case TList(items) => "[" + (ItemsText(items) + "]")
    case TNoPairs(g) => "{" + (GapText(g) + "}")
    case TDict(pairs) => "{" + (PairsText(pairs) + "}")
  }

  function ItemText(i: Item): string
    decreases i, 2
  {
    (GapText(i.before) + Text(i.value)) + GapText(i.after)
  }

  function ItemsText(items: seq<Item>): string
    decreases items, 0
  {
    if items == [] then ""
    else if |items| == 1 then ItemText(items[0])
    else ItemText(items[0]) + ("," + ItemsText(items[1..]))
  }

  function KeyText(p: Pair): string { (GapText(p.before) + Quoted(p.key)) + (GapText(p.behind) + ":") }

  function PairText(p: Pair): string
    decreases p, 2
  {
    KeyText(p) + ItemText(p.item)
  }

  function PairsText(ps: seq<Pair>): string
    decreases ps, 0
  {
    if ps == [] then ""
    else if |ps| == 1 then PairText(ps[0])
    else PairText(ps[0]) + ("," + PairsText(ps[1..]))
  }

  ghost predicate Wf(t: Tree) {
    match t
    case TNull => true
    case TBool(_) => true
    case TInt(digits) => digits != "" && AllDigits(digits)
    case TDecimal(whole, fraction) => whole != "" && AllDigits(whole) && fraction != "" && AllDigits(fraction)
    case TStr(body) => Safe(body)
    case TNoItems(g) => GapOk(g)
    case TList(items) => items != [] && forall k :: 0 <= k < |items| ==> ItemWf(items[k])
    case TNoPairs(g) => GapOk(g)
    case TDict(ps) => ps != [] && forall k :: 0 <= k < |ps| ==> PairWf(ps[k])
  }

  ghost predicate ItemWf(i: Item) { GapOk(i.before) && Wf(i.value) && GapOk(i.after) }

  ghost predicate PairWf(p: Pair) { GapOk(p.before) && Safe(p.key) && GapOk(p.behind) && ItemWf(p.item) }

  // ---------- What a tree at position i of the text s means ----------

  function From(s: string, i: nat): string { if i <= |s| then s[i..] else "" }

  // strtof64 is handed the rest of the text; a later entry replaces an earlier one with the same key.
  ghost function Value(t: Tree, s: string, i: nat): JObject
    decreases t, 1
  {
    match t
    case TNull => JNull
    case TBool(b) => JBool(b)
    case TInt(digits) => JInt(if AllDigits(digits) then StrToInt(digits) else 0)
    case TDecimal(_, _) => JDouble(From(s, i))
    case TStr(body) => JStr(body)
    case TNoItems(_) => JList([])
    case TList(items) => JList(Values(items, s, i + 1))
    case TNoPairs(_) => JDict([])
    case TDict(ps) => JDict(Bindings(ps, s, i + 1, []))
  }

  ghost function ItemValue(item: Item, s: string, i: nat): JObject
    decreases item, 2
  {
    Value(item.value, s, i + |GapText(item.before)|)
  }

  ghost function Values(items: seq<Item>, s: string, i: nat): seq<JObject>
    decreases items, 0
  {
    if items == [] then []
    else [ItemValue(items[0], s, i)] + Values(items[1..], s, i + |ItemText(items[0])| + 1)
  }

  ghost function Bindings(ps: seq<Pair>, s: string, i: nat, acc: seq<Entry>): seq<Entry>
    decreases ps, 0
  {
    if ps == [] then acc else
    var v := ItemValue(ps[0].item, s, i + |KeyText(ps[0])|);
    Bindings(ps[1..], s, i + |PairText(ps[0])| + 1, Insert(acc, ps[0].key, v))
  }

  // What may follow a number: otherwise it goes on.
  ghost predicate Ends(t: Tree, s: string, e: nat) {
    match t
    case TInt(_) => e < |s| ==> !IsDigit(s[e]) && s[e] != '.'
    case TDecimal(_, _) => e < |s| ==> !IsDigit(s[e])
    case _ => true
  }

  // ---------- A gap is skipped ----------

  // A character that ends a gap.
  predicate Solid(s: string, e: nat) { e < |s| && !IsSpace(s[e]) && s[e] != '/' }

  lemma {:induction false} SpacesSkipped(s: string, i: nat, w: string, k: nat)
    requires At(s, i, w) && Blank(w) && k <= |w| && (i + |w| < |s| ==> !IsSpace(s[i + |w|]))
    ensures SkipSpaces(s, i + k) == i + |w|
    decreases |w| - k
  {
    if k < |w| {
      AtIndex(s, i, w, k);
      SpacesSkipped(s, i, w, k + 1);
    }
  }

  lemma {:induction false} NewlineFound(s: string, i: nat, w: string, k: nat)
    requires At(s, i, w) && '\n' !in w && k <= |w| && i + |w| < |s| && s[i + |w|] == '\n'
    ensures FindChar(s, '\n', i + k) == i + |w|
    decreases |w| - k
  {
    if k < |w| {
      AtIndex(s, i, w, k);
      NewlineFound(s, i, w, k + 1);
    }
  }

  lemma CommentHere(s: string, i: nat, c: Comment)
    requires CommentOk(c) && At(s, i, CommentText(c))
    ensures var n := i + 2 + |c.body|;
      && AtComment(s, i) && n < |s| && FindChar(s, '\n', i) == n && At(s, n + 1, c.spaces)
      && n + 1 + |c.spaces| == i + |CommentText(c)|
  {
    var line := "//" + c.body;
    AtSplit(s, i, line, "\n" + c.spaces);
    AtIndex(s, i, line, 0);
    AtIndex(s, i, line, 1);
    AtSplit(s, i + |line|, "\n", c.spaces);
    AtIndex(s, i + |line|, "\n", 0);
    hide At;
    NewlineFound(s, i, line, 0);
  }

  lemma {:induction false} CommentsSkipped(s: string, i: nat, cs: seq<Comment>)
    requires CommentsOk(cs) && At(s, i, CommentsText(cs)) && Solid(s, i + |CommentsText(cs)|)
    ensures SkipComment(s, i) == Ok((), i + |CommentsText(cs)|)
    decreases |cs|
  {
    if cs == [] {
      assert !AtComment(s, i);
    } else {
      var c, rest := cs[0], cs[1..];
      assert CommentOk(c) && CommentsOk(rest) && CommentsText(cs) == CommentText(c) + CommentsText(rest);
      var j := i + |CommentText(c)|;
      assert rest == [] ==> CommentsText(rest) == "";
      hide *;
      AtSplit(s, i, CommentText(c), CommentsText(rest));
      if rest != [] {
        CommentStarts(s, j, rest);
        SlashIsNoSpace();
      } else {
        SolidIs(s, j);
      }
      CommentSkipped(s, i, c);
      CommentsSkipped(s, j, rest);
    }
  }

  lemma SlashIsNoSpace()
    ensures !IsSpace('/')
  {
  }

  lemma SolidIs(s: string, e: nat)
    requires Solid(s, e)
    ensures e < |s| && !IsSpace(s[e])
  {
  }

  lemma CommentSkipped(s: string, i: nat, c: Comment)
    requires CommentOk(c) && At(s, i, CommentText(c))
    requires var j := i + |CommentText(c)|; j < |s| && !IsSpace(s[j])
    ensures SkipComment(s, i) == SkipComment(s, i + |CommentText(c)|)
  {
    var j := i + |CommentText(c)|;
    CommentHere(s, i, c);
    hide At;
    hide CommentText;
    hide SkipComment;
    SpacesSkipped(s, j - |c.spaces|, c.spaces, 0);
    hide SkipSpaces;
    hide FindChar;
    CommentRound(s, i, j);
  }

  lemma CommentRound(s: string, i: nat, j: nat)
    requires AtComment(s, i) && FindChar(s, '\n', i) < |s| && SkipSpaces(s, FindChar(s, '\n', i) + 1) == j
    ensures j <= |s| && SkipComment(s, i) == SkipComment(s, j)
  {
  }

  lemma CommentStarts(s: string, i: nat, cs: seq<Comment>)
    requires cs != [] && CommentsOk(cs) && At(s, i, CommentsText(cs))
    ensures i < |s| && s[i] == '/'
  {
    AtSplit(s, i, CommentText(cs[0]), CommentsText(cs[1..]));
    hide At;
    CommentHere(s, i, cs[0]);
  }

  /** White space and whole comment lines are skipped, up to the character behind them. */
  lemma GapSkipped(s: string, i: nat, g: Gap)
    requires GapOk(g) && At(s, i, GapText(g)) && Solid(s, i + |GapText(g)|)
    ensures NextToken(s, i) == Ok((), i + |GapText(g)|)
  {
    hide At;
    hide CommentsOk;
    hide SkipComment;
    AtSplit(s, i, g.spaces, CommentsText(g.comments));
    var j := i + |g.spaces|;
    if g.comments != [] { CommentStarts(s, j, g.comments); }
    hide CommentsText;
    SpacesSkipped(s, i, g.spaces, 0);
    CommentsSkipped(s, j, g.comments);
  }

  // A gap of its own and what follows it begin with a space, a slash or what follows.
  lemma GapStarts(s: string, i: nat, g: Gap)
    requires GapOk(g) && At(s, i, GapText(g)) && i + |GapText(g)| < |s|
    ensures IsSpace(s[i]) || s[i] == '/' || GapText(g) == ""
  {
    AtSplit(s, i, g.spaces, CommentsText(g.comments));
    if g.spaces != "" {
      AtIndex(s, i, g.spaces, 0);
    } else if g.comments != [] {
      CommentStarts(s, i, g.comments);
    }
  }

  // ---------- The cursor may as well stand on the token ----------

  lemma {:induction false} SkipSpacesStops(s: string, i: nat)
    requires i <= |s|
    ensures var j := SkipSpaces(s, i); (j < |s| ==> !IsSpace(s[j])) && Blank(s[i..j])
    decreases |s| - i
  {
    if i < |s| && IsSpace(s[i]) {
      SkipSpacesStops(s, i + 1);
      var j := SkipSpaces(s, i);
      assert s[i..j] == [s[i]] + s[i + 1..j];
    }
  }

  lemma {:induction false} SkipCommentStops(s: string, i: nat)
    requires i <= |s| && SkipComment(s, i).Ok? && (i < |s| ==> !IsSpace(s[i]))
    ensures var j := SkipComment(s, i).next; !AtComment(s, j) && (j < |s| ==> !IsSpace(s[j]))
    decreases |s| - i
  {
    if AtComment(s, i) {
      var n := FindChar(s, '\n', i);
      SkipSpacesStops(s, n + 1);
      SkipCommentStops(s, SkipSpaces(s, n + 1));
    }
  }

  lemma {:induction false} CommentUnit(s: string, i: nat)
    requires i <= |s| && SkipComment(s, i).Ok?
    ensures SkipComment(s, i) == Ok((), SkipComment(s, i).next)
    decreases |s| - i
  {
    if AtComment(s, i) { CommentUnit(s, SkipSpaces(s, FindChar(s, '\n', i) + 1)); }
  }

  lemma TokenUnit(s: string, i: nat)
    requires i <= |s| && NextToken(s, i).Ok?
    ensures NextToken(s, i) == Ok((), NextToken(s, i).next)
  {
    CommentUnit(s, SkipSpaces(s, i));
  }

  lemma TokenStays(s: string, i: nat)
    requires i <= |s| && NextToken(s, i).Ok?
    ensures var p := NextToken(s, i).next; p < |s| ==> NextToken(s, p) == Ok((), p)
  {
    SkipSpacesStops(s, i);
    SkipCommentStops(s, SkipSpaces(s, i));
  }

  lemma ParseFromToken(s: string, i: nat)
    requires i <= |s| && NextToken(s, i).Ok? && NextToken(s, i).next < |s|
    ensures Parse(s, NextToken(s, i).next) == Parse(s, i)
  {
    TokenStays(s, i);
    hide ParseList;
    hide ParseDict;
    hide ParseScalar;
    hide NextToken;
  }

  lemma ItemsFromToken(s: string, i: nat, acc: seq<JObject>)
    requires i <= |s| && NextToken(s, i).Ok? && NextToken(s, i).next < |s|
    ensures ParseItems(s, NextToken(s, i).next, acc) == ParseItems(s, i, acc)
  {
    hide *;
    ParseFromToken(s, i);
    ItemsUnfold(s, i, acc);
    ItemsUnfold(s, NextToken(s, i).next, acc);
  }

  // The rest of an entry round, once the entry is read.
  ghost function EntriesBehind(s: string, e: Outcome<Entry>, acc: seq<Entry>): Outcome<JObject>
    requires e.Ok? ==> e.next <= |s|
  {
    if !e.Ok? then Rethrow(e) else
    var t := NextMark(s, e.next);
    if !t.Ok? then Rethrow(t) else
    var c := CharAt(s, t.next);
    var dict := Insert(acc, e.value.key, e.value.value);
    if c == '}' then Ok(JDict(dict), t.next + 1)
    else if c != ',' then Throw(NoCommaInDict)
    else ParseEntries(s, t.next + 1, dict)
  }

  lemma EntriesUnfold(s: string, i: nat, acc: seq<Entry>)
    requires i <= |s|
    ensures ParseEntries(s, i, acc) == EntriesBehind(s, ParseEntry(s, i), acc)
  {
    hide ParseEntry;
    hide NextMark;
    hide Insert;
  }

  lemma EntriesFromToken(s: string, i: nat, acc: seq<Entry>)
    requires i <= |s| && NextToken(s, i).Ok? && NextToken(s, i).next < |s|
    ensures ParseEntries(s, NextToken(s, i).next, acc) == ParseEntries(s, i, acc)
  {
    hide *;
    EntryFromToken(s, i);
    EntriesUnfold(s, i, acc);
    EntriesUnfold(s, NextToken(s, i).next, acc);
  }

  // The rest of an entry, once its key is read.
  ghost function EntryBehind(s: string, k: Outcome<JObject>): Outcome<Entry>
    requires k.Ok? ==> k.next <= |s|
  {
    if !k.Ok? then Rethrow(k)
    else if !k.value.JStr? then Throw(KeyNotString) else
    var t := NextMark(s, k.next);
    if !t.Ok? then Rethrow(t)
    else if CharAt(s, t.next) != ':' then Throw(NoColonInDict) else
    var v := Parse(s, t.next + 1);
    if !v.Ok? then Rethrow(v) else Ok(Entry(k.value.s, v.value), v.next)
  }

  lemma EntryUnfold(s: string, i: nat)
    requires i <= |s|
    ensures ParseEntry(s, i) == EntryBehind(s, Parse(s, i))
  {
    hide Parse;
    hide NextMark;
  }

  lemma EntryFromToken(s: string, i: nat)
    requires i <= |s| && NextToken(s, i).Ok? && NextToken(s, i).next < |s|
    ensures ParseEntry(s, NextToken(s, i).next) == ParseEntry(s, i)
  {
    hide *;
    ParseFromToken(s, i);
    EntryUnfold(s, i);
    EntryUnfold(s, NextToken(s, i).next);
  }

  // One round of each loop, with a gap before the mark.
  lemma ItemsRound(s: string, i: nat, acc: seq<JObject>, v: JObject, n: nat, m: nat)
    requires i <= n <= m < |s| && Parse(s, i) == Ok(v, n) && NextToken(s, n) == Ok((), m)
    ensures s[m] == ']' ==> ParseItems(s, i, acc) == Ok(JList(acc + [v]), m + 1)
    ensures s[m] == ',' ==> ParseItems(s, i, acc) == ParseItems(s, m + 1, acc + [v])
  {
    hide Parse;
    hide NextToken;
  }

  lemma EntryRound(s: string, i: nat, key: string, n: nat, m: nat, v: JObject, e: nat)
    requires i <= n <= m < |s| && Parse(s, i) == Ok(JStr(key), n)
    requires NextToken(s, n) == Ok((), m) && s[m] == ':' && Parse(s, m + 1) == Ok(v, e)
    ensures ParseEntry(s, i) == Ok(Entry(key, v), e)
  {
    hide Parse;
    hide NextToken;
  }

  lemma EntriesRound(s: string, i: nat, acc: seq<Entry>, e: Entry, n: nat, m: nat)
    requires i <= n <= m < |s| && ParseEntry(s, i) == Ok(e, n) && NextToken(s, n) == Ok((), m)
    ensures s[m] == '}' ==> ParseEntries(s, i, acc) == Ok(JDict(Insert(acc, e.key, e.value)), m + 1)
    ensures s[m] == ',' ==> ParseEntries(s, i, acc) == ParseEntries(s, m + 1, Insert(acc, e.key, e.value))
  {
    hide ParseEntry;
    hide NextToken;
    hide Insert;
  }

  lemma ListRound(s: string, i: nat, j: nat)
    requires i < |s| && s[i] == '[' && NextToken(s, i) == Ok((), i)
    requires i + 1 <= j < |s| && NextToken(s, i + 1) == Ok((), j)
    ensures Parse(s, i) == if s[j] == ']' then Ok(JList([]), j + 1) else ParseItems(s, i + 1, [])
  {
    ParseListIs(s, i, j);
    hide Parse;
    hide NextToken;
    ItemsFromToken(s, i + 1, []);
  }

  lemma DictRound(s: string, i: nat, j: nat)
    requires i < |s| && s[i] == '{' && NextToken(s, i) == Ok((), i)
    requires i + 1 <= j < |s| && NextToken(s, i + 1) == Ok((), j)
    ensures Parse(s, i) == if s[j] == '}' then Ok(JDict([]), j + 1) else ParseEntries(s, i + 1, [])
  {
    ParseDictIs(s, i, j);
    hide Parse;
    hide NextToken;
    EntriesFromToken(s, i + 1, []);
  }

  // ---------- Every tree is read ----------

  lemma TextHead(t: Tree)
    requires Wf(t)
    ensures Text(t) != "" && Token(Text(t)[0]) && Text(t)[0] != ']' && Text(t)[0] != '}'
  {
  }

  // A character no gap begins with.
  predicate Token(c: char) { !IsSpace(c) && c != '/' }

  lemma Tokens()
    ensures Token(',') && Token(':') && Token(']') && Token('}') && Token('"') && Token('[') && Token('{')
  {
  }

  // A gap and what stands behind it.
  lemma GapThen(s: string, i: nat, g: Gap, rest: string)
    requires GapOk(g) && At(s, i, GapText(g) + rest) && rest != "" && Token(rest[0])
    ensures var e := i + |GapText(g)|;
      e < |s| && s[e] == rest[0] && NextToken(s, i) == Ok((), e) && At(s, e, rest) && At(s, i, GapText(g))
  {
    hide At;
    hide GapText;
    hide NextToken;
    AtSplit(s, i, GapText(g), rest);
    AtIndex(s, i + |GapText(g)|, rest, 0);
    GapSkipped(s, i, g);
  }

  lemma {:induction false} BareParses(t: Tree, s: string, i: nat)
    requires Wf(t) && At(s, i, Text(t)) && Ends(t, s, i + |Text(t)|)
    ensures Parse(s, i) == Ok(Value(t, s, i), i + |Text(t)|)
    decreases t, 1
  {
    hide Parse;
    hide At;
    hide GapText;
    hide Safe;
    match t
    case TNull => WordParses(t, s, i);
    case TBool(_) => WordParses(t, s, i);
    case TInt(digits) => IntParses(digits, s, i);
    case TDecimal(whole, fraction) => DecimalParses(whole, fraction, s, i);
    case TStr(body) => StringParses(body, s, i);
    case TNoItems(g) => NoItemsParse(g, s, i);
    case TList(items) => ListParses(items, s, i);
    case TNoPairs(g) => NoPairsParse(g, s, i);
    case TDict(ps) => DictParses(ps, s, i);
  }

  lemma NoItemsParse(g: Gap, s: string, i: nat)
    requires GapOk(g) && At(s, i, "[" + (GapText(g) + "]"))
    ensures Parse(s, i) == Ok(JList([]), i + |GapText(g)| + 2)
  {
    hide *;
    Tokens();
    MarkHere(s, i, '[', GapText(g) + "]");
    GapThen(s, i + 1, g, "]");
    ListRound(s, i, i + 1 + |GapText(g)|);
  }

  lemma NoPairsParse(g: Gap, s: string, i: nat)
    requires GapOk(g) && At(s, i, "{" + (GapText(g) + "}"))
    ensures Parse(s, i) == Ok(JDict([]), i + |GapText(g)| + 2)
  {
    hide *;
    Tokens();
    MarkHere(s, i, '{', GapText(g) + "}");
    GapThen(s, i + 1, g, "}");
    DictRound(s, i, i + 1 + |GapText(g)|);
  }

  lemma WordParses(t: Tree, s: string, i: nat)
    requires (t.TNull? || t.TBool?) && At(s, i, Text(t))
    ensures Parse(s, i) == Ok(Value(t, s, i), i + |Text(t)|)
  {
    AtIndex(s, i, Text(t), 0);
    TokenHere(s, i);
    TrueStartsWithT(s, i);
  }

  lemma DigitIsNumber(s: string, i: nat)
    requires i < |s| && IsDigit(s[i])
    ensures Parse(s, i) == ParseNumber(s, i)
  {
    hide ParseList;
    hide ParseDict;
    hide ParseNumber;
    TokenHere(s, i);
  }

  lemma IntNumber(s: string, i: nat, j: nat)
    requires i < j <= |s| && SkipDigits(s, i) == j && (j < |s| ==> s[j] != '.')
    ensures AllDigits(s[i..j]) && ParseNumber(s, i) == Ok(JInt(StrToInt(s[i..j])), j)
  {
    hide StrToInt;
    hide SkipDigits;
  }

  lemma DecimalNumber(s: string, i: nat, j: nat, k: nat)
    requires i < j < |s| && SkipDigits(s, i) == j && s[j] == '.' && j + 1 < k <= |s| && SkipDigits(s, j + 1) == k
    ensures ParseNumber(s, i) == Ok(JDouble(s[i..]), k)
  {
    hide StrToInt;
    hide SkipDigits;
  }

  lemma IntParses(digits: string, s: string, i: nat)
    requires digits != "" && AllDigits(digits) && At(s, i, digits) && Ends(TInt(digits), s, i + |digits|)
    ensures Parse(s, i) == Ok(JInt(StrToInt(digits)), i + |digits|)
  {
    AtIndex(s, i, digits, 0);
    AtSlice(s, i, digits);
    hide At;
    hide Parse;
    hide ParseNumber;
    DigitIsNumber(s, i);
    DigitsSkipped(s, i, digits, 0);
    IntNumber(s, i, i + |digits|);
  }

  lemma DecimalAt(whole: string, fraction: string, s: string, i: nat)
    requires whole != "" && At(s, i, whole + ("." + fraction))
    ensures var j := i + |whole|;
      && At(s, i, whole) && j < |s| && s[i] == whole[0] && s[j] == '.'
      && At(s, j + 1, fraction) && j + 1 + |fraction| <= |s|
  {
    hide At;
    var j := i + |whole|;
    AtSplit(s, i, whole, "." + fraction);
    AtSplit(s, j, ".", fraction);
    AtIndex(s, i, whole, 0);
    AtIndex(s, j, ".", 0);
    AtSlice(s, j + 1, fraction);
  }

  lemma DecimalFacts(whole: string, fraction: string, s: string, e: nat)
    requires Wf(TDecimal(whole, fraction)) && Ends(TDecimal(whole, fraction), s, e)
    ensures whole != "" && fraction != "" && AllDigits(whole) && AllDigits(fraction) && IsDigit(whole[0])
    ensures !IsDigit('.') && (e < |s| ==> !IsDigit(s[e]))
  {
  }

  lemma DecimalParses(whole: string, fraction: string, s: string, i: nat)
    requires Wf(TDecimal(whole, fraction)) && At(s, i, whole + ("." + fraction))
    requires Ends(TDecimal(whole, fraction), s, i + |whole| + 1 + |fraction|)
    ensures Parse(s, i) == Ok(JDouble(From(s, i)), i + |whole| + 1 + |fraction|)
  {
    hide *;
    var j := i + |whole|;
    DecimalFacts(whole, fraction, s, j + 1 + |fraction|);
    DecimalAt(whole, fraction, s, i);
    DigitIsNumber(s, i);
    DigitsSkipped(s, i, whole, 0);
    DigitsSkipped(s, j + 1, fraction, 0);
    DecimalNumber(s, i, j, j + 1 + |fraction|);
    FromIs(s, i);
  }

  lemma FromIs(s: string, i: nat)
    requires i <= |s|
    ensures From(s, i) == s[i..]
  {
  }

  lemma {:induction false} TreeParses(t: Tree, g: Gap, s: string, i: nat)
    requires GapOk(g) && Wf(t) && At(s, i, GapText(g) + Text(t)) && Ends(t, s, i + |GapText(g)| + |Text(t)|)
    ensures Parse(s, i) == Ok(Value(t, s, i + |GapText(g)|), i + |GapText(g)| + |Text(t)|)
    decreases t, 2
  {
    hide *;
    TextHead(t);
    GapThen(s, i, g, Text(t));
    ParseFromToken(s, i);
    BareParses(t, s, i + |GapText(g)|);
  }

  // What follows an item: a comma or the mark that closes its container.
  predicate Mark(c: char) { c == ',' || c == ']' || c == '}' }

  lemma MarksAreTokens(c: char)
    requires Mark(c)
    ensures Token(c)
  {
  }

  lemma Regroup(a: string, b: string, c: string)
    ensures a + b + c == a + (b + c)
  {
  }

  lemma ItemShape(item: Item, tail: string)
    ensures ItemText(item) + tail == GapText(item.before) + Text(item.value) + (GapText(item.after) + tail)
    ensures |ItemText(item)| == |GapText(item.before)| + |Text(item.value)| + |GapText(item.after)|
  {
    hide GapText;
    hide Text;
    Regroup(GapText(item.before) + Text(item.value), GapText(item.after), tail);
  }

  lemma ItemParts(item: Item)
    requires ItemWf(item)
    ensures GapOk(item.before) && Wf(item.value) && GapOk(item.after)
  {
  }

  // A number in a container does not go on.
  lemma EndsHere(t: Tree, s: string, n: nat, g: Gap)
    requires GapOk(g) && At(s, n, GapText(g)) && n + |GapText(g)| < |s| && Mark(s[n + |GapText(g)|])
    ensures Ends(t, s, n)
  {
    hide At;
    hide GapText;
    GapStarts(s, n, g);
  }

  // Where the parts of an item stand.
  lemma ItemHere(item: Item, tail: string, s: string, i: nat)
    requires ItemWf(item) && At(s, i, ItemText(item) + tail) && tail != "" && Mark(tail[0])
    ensures var n, m := i + |GapText(item.before)| + |Text(item.value)|, i + |ItemText(item)|;
      && n <= m < |s| && At(s, i, GapText(item.before) + Text(item.value)) && Ends(item.value, s, n)
      && NextToken(s, n) == Ok((), m) && s[m] == tail[0] && At(s, m, tail)
  {
    hide *;
    ItemShape(item, tail);
    ItemParts(item);
    MarksAreTokens(tail[0]);
    var n := i + |GapText(item.before)| + |Text(item.value)|;
    AtSplit(s, i, GapText(item.before) + Text(item.value), GapText(item.after) + tail);
    GapThen(s, n, item.after, tail);
    EndsHere(item.value, s, n, item.after);
  }

  lemma {:induction false} ItemParses(item: Item, tail: string, s: string, i: nat)
    requires ItemWf(item) && At(s, i, ItemText(item) + tail) && tail != "" && Mark(tail[0])
    ensures var n, m := i + |GapText(item.before)| + |Text(item.value)|, i + |ItemText(item)|;
      && n <= m < |s| && Parse(s, i) == Ok(ItemValue(item, s, i), n)
      && NextToken(s, n) == Ok((), m) && s[m] == tail[0] && At(s, m, tail)
    decreases item, 3
  {
    hide *;
    ItemHere(item, tail, s, i);
    ItemParts(item);
    TreeParses(item.value, item.before, s, i);
    ItemValueIs(item, s, i);
  }

  lemma ItemValueIs(item: Item, s: string, i: nat)
    ensures ItemValue(item, s, i) == Value(item.value, s, i + |GapText(item.before)|)
  {
  }

  lemma ItemsShape(items: seq<Item>)
    requires items != []
    ensures ItemsText(items) + "]"
         == ItemText(items[0]) + if |items| == 1 then "]" else "," + (ItemsText(items[1..]) + "]")
  {
    hide ItemText;
  }

  lemma PairsShape(ps: seq<Pair>)
    requires ps != []
    ensures PairsText(ps) + "}"
         == PairText(ps[0]) + if |ps| == 1 then "}" else "," + (PairsText(ps[1..]) + "}")
  {
    hide PairText;
  }

  // The first token of a list that has items is not its closing bracket.
  lemma ItemsBegin(items: seq<Item>, s: string, i: nat)
    requires items != [] && ItemWf(items[0]) && At(s, i, ItemsText(items) + "]")
    ensures var t := NextToken(s, i); t.Ok? && t == Ok((), t.next) && t.next < |s| && s[t.next] != ']'
  {
    hide *;
    ItemsShape(items);
    var item := items[0];
    var tail := if |items| == 1 then "]" else "," + (ItemsText(items[1..]) + "]");
    ItemParts(item);
    ItemShape(item, tail);
    var front := GapText(item.before) + Text(item.value);
    AtSplit(s, i, front, GapText(item.after) + tail);
    TextHead(item.value);
    GapThen(s, i, item.before, Text(item.value));
  }

  lemma {:induction false} ListParses(items: seq<Item>, s: string, i: nat)
    requires items != [] && (forall k :: 0 <= k < |items| ==> ItemWf(items[k]))
    requires At(s, i, "[" + (ItemsText(items) + "]"))
    ensures Parse(s, i) == Ok(JList(Values(items, s, i + 1)), i + |ItemsText(items)| + 2)
    decreases items, 1
  {
    hide *;
    MarkHere(s, i, '[', ItemsText(items) + "]");
    ItemsBegin(items, s, i + 1);
    ListRound(s, i, NextToken(s, i + 1).next);
    ItemsParse(items, [], s, i + 1);
    assert [] + Values(items, s, i + 1) == Values(items, s, i + 1);
  }

  lemma {:induction false} ItemsParse(items: seq<Item>, acc: seq<JObject>, s: string, i: nat)
    requires items != [] && (forall k :: 0 <= k < |items| ==> ItemWf(items[k])) && At(s, i, ItemsText(items) + "]")
    ensures ParseItems(s, i, acc) == Ok(JList(acc + Values(items, s, i)), i + |ItemsText(items)| + 1)
    decreases items, 0
  {
    hide *;
    var item, rest := items[0], items[1..];
    var tail := if |items| == 1 then "]" else "," + (ItemsText(rest) + "]");
    ItemsShape(items);
    MarkOf(tail, ItemsText(rest) + "]");
    ItemParses(item, tail, s, i);
    var v, n, m := ItemValue(item, s, i), i + |GapText(item.before)| + |Text(item.value)|, i + |ItemText(item)|;
    ItemsRound(s, i, acc, v, n, m);
    ValuesStep(items, s, i, acc);
    if |items| > 1 {
      AtSplit(s, m, ",", ItemsText(rest) + "]");
      ItemsParse(rest, acc + [v], s, m + 1);
    }
  }

  lemma MarkOf(tail: string, rest: string)
    ensures tail == "]" || tail == "}" || tail == "," + rest ==> tail != "" && Mark(tail[0])
    ensures tail == "," + rest ==> tail[0] == ','
  {
  }

  lemma ValuesStep(items: seq<Item>, s: string, i: nat, acc: seq<JObject>)
    requires items != []
    ensures var v := ItemValue(items[0], s, i);
      acc + Values(items, s, i) ==
        if |items| == 1 then acc + [v] else acc + [v] + Values(items[1..], s, i + |ItemText(items[0])| + 1)
  {
    hide ItemValue;
    hide ItemText;
    var v, rest := ItemValue(items[0], s, i), Values(items[1..], s, i + |ItemText(items[0])| + 1);
    assert acc + ([v] + rest) == acc + [v] + rest;
    if |items| == 1 { assert rest == []; }
  }

  // ---------- Dictionaries ----------

  lemma KeyShape(p: Pair, rest: string)
    ensures KeyText(p) + rest == GapText(p.before) + Quoted(p.key) + (GapText(p.behind) + (":" + rest))
    ensures |KeyText(p)| == |GapText(p.before)| + |Quoted(p.key)| + |GapText(p.behind)| + 1
  {
    hide GapText;
    hide Quoted;
    Regroup(GapText(p.before) + Quoted(p.key), GapText(p.behind) + ":", rest);
    Regroup(GapText(p.behind), ":", rest);
  }

  lemma QuotedHead(w: string)
    ensures Quoted(w) != "" && Quoted(w)[0] == '"'
  {
  }

  lemma PairParts(p: Pair)
    requires PairWf(p)
    ensures GapOk(p.before) && Safe(p.key) && GapOk(p.behind) && ItemWf(p.item)
  {
  }

  lemma PairShape(p: Pair, tail: string)
    ensures PairText(p) + tail == KeyText(p) + (ItemText(p.item) + tail)
    ensures |PairText(p)| == |KeyText(p)| + |ItemText(p.item)|
  {
    hide KeyText;
    hide ItemText;
    Regroup(KeyText(p), ItemText(p.item), tail);
  }

  lemma KeyParses(p: Pair, rest: string, s: string, i: nat)
    requires PairWf(p) && At(s, i, KeyText(p) + rest)
    ensures var n, m := i + |GapText(p.before)| + |Quoted(p.key)|, i + |KeyText(p)| - 1;
      && i <= n <= m < |s| && Parse(s, i) == Ok(JStr(p.key), n) && NextToken(s, n) == Ok((), m) && s[m] == ':'
      && At(s, m + 1, rest)
  {
    hide *;
    KeyShape(p, rest);
    PairParts(p);
    Tokens();
    QuotedHead(p.key);
    var front := GapText(p.before) + Quoted(p.key);
    var n := i + |front|;
    AtSplit(s, i, front, GapText(p.behind) + (":" + rest));
    GapThen(s, n, p.behind, ":" + rest);
    AtSplit(s, n + |GapText(p.behind)|, ":", rest);
    GapThen(s, i, p.before, Quoted(p.key));
    ParseFromToken(s, i);
    StringParses(p.key, s, i + |GapText(p.before)|);
  }

  lemma {:induction false} PairParses(p: Pair, tail: string, s: string, i: nat)
    requires PairWf(p) && At(s, i, PairText(p) + tail) && tail != "" && Mark(tail[0])
    ensures var k := i + |KeyText(p)|;
      var n, m := k + |GapText(p.item.before)| + |Text(p.item.value)|, i + |PairText(p)|;
      && n <= m < |s| && ParseEntry(s, i) == Ok(Entry(p.key, ItemValue(p.item, s, k)), n)
      && NextToken(s, n) == Ok((), m) && s[m] == tail[0] && At(s, m, tail)
    decreases p, 3
  {
    hide *;
    PairShape(p, tail);
    PairParts(p);
    KeyParses(p, ItemText(p.item) + tail, s, i);
    var k := i + |KeyText(p)|;
    ItemParses(p.item, tail, s, k);
    var n := k + |GapText(p.item.before)| + |Text(p.item.value)|;
    EntryRound(s, i, p.key, i + |GapText(p.before)| + |Quoted(p.key)|, k - 1, ItemValue(p.item, s, k), n);
  }

  lemma PairsBegin(ps: seq<Pair>, s: string, i: nat)
    requires ps != [] && PairWf(ps[0]) && At(s, i, PairsText(ps) + "}")
    ensures var t := NextToken(s, i); t.Ok? && t == Ok((), t.next) && t.next < |s| && s[t.next] != '}'
  {
    hide *;
    PairsShape(ps);
    var p := ps[0];
    var tail := if |ps| == 1 then "}" else "," + (PairsText(ps[1..]) + "}");
    var rest := ItemText(p.item) + tail;
    PairParts(p);
    PairShape(p, tail);
    KeyShape(p, rest);
    Tokens();
    QuotedHead(p.key);
    AtSplit(s, i, GapText(p.before) + Quoted(p.key), GapText(p.behind) + (":" + rest));
    GapThen(s, i, p.before, Quoted(p.key));
  }

  lemma {:induction false} DictParses(ps: seq<Pair>, s: string, i: nat)
    requires ps != [] && (forall k :: 0 <= k < |ps| ==> PairWf(ps[k]))
    requires At(s, i, "{" + (PairsText(ps) + "}"))
    ensures Parse(s, i) == Ok(JDict(Bindings(ps, s, i + 1, [])), i + |PairsText(ps)| + 2)
    decreases ps, 1
  {
    hide *;
    MarkHere(s, i, '{', PairsText(ps) + "}");
    PairsBegin(ps, s, i + 1);
    DictRound(s, i, NextToken(s, i + 1).next);
    PairsParse(ps, [], s, i + 1);
  }

  lemma {:induction false} PairsParse(ps: seq<Pair>, acc: seq<Entry>, s: string, i: nat)
    requires ps != [] && (forall k :: 0 <= k < |ps| ==> PairWf(ps[k])) && At(s, i, PairsText(ps) + "}")
    ensures ParseEntries(s, i, acc) == Ok(JDict(Bindings(ps, s, i, acc)), i + |PairsText(ps)| + 1)
    decreases ps, 0
  {
    hide *;
    var p, rest := ps[0], ps[1..];
    var tail := if |ps| == 1 then "}" else "," + (PairsText(rest) + "}");
    PairsShape(ps);
    MarkOf(tail, PairsText(rest) + "}");
    PairParses(p, tail, s, i);
    var k, m := i + |KeyText(p)|, i + |PairText(p)|;
    var v, n := ItemValue(p.item, s, k), k + |GapText(p.item.before)| + |Text(p.item.value)|;
    EntriesRound(s, i, acc, Entry(p.key, v), n, m);
    BindingsStep(ps, s, i, acc);
    if |ps| > 1 {
      AtSplit(s, m, ",", PairsText(rest) + "}");
      PairsParse(rest, Insert(acc, p.key, v), s, m + 1);
    }
  }

  lemma BindingsStep(ps: seq<Pair>, s: string, i: nat, acc: seq<Entry>)
    requires ps != []
    ensures var dict := Insert(acc, ps[0].key, ItemValue(ps[0].item, s, i + |KeyText(ps[0])|));
      Bindings(ps, s, i, acc) == if |ps| == 1 then dict else Bindings(ps[1..], s, i + |PairText(ps[0])| + 1, dict)
  {
    hide ItemValue;
    hide PairText;
    hide KeyText;
    hide Insert;
  }

  // ---------- Everything that is read is a tree ----------

  lemma {:induction false} CommentsThere(s: string, i: nat) returns (cs: seq<Comment>)
    requires i <= |s| && SkipComment(s, i).Ok?
    ensures CommentsOk(cs) && At(s, i, CommentsText(cs)) && SkipComment(s, i).next == i + |CommentsText(cs)|
    decreases |s| - i
  {
    if !AtComment(s, i) {
      cs := [];
    } else {
      assert FindChar(s, '\n', i) < |s|;
      var c, j := FirstComment(s, i);
      hide *;
      var rest := CommentsThere(s, j);
      cs := [c] + rest;
      AtJoin(s, i, CommentText(c), CommentsText(rest));
      CommentsMore(c, rest);
    }
  }

  lemma FirstComment(s: string, i: nat) returns (c: Comment, j: nat)
    requires AtComment(s, i) && FindChar(s, '\n', i) < |s|
    ensures CommentOk(c) && At(s, i, CommentText(c)) && i < j <= |s| && j == i + |CommentText(c)|
    ensures SkipComment(s, i) == SkipComment(s, j)
  {
    var n := FindChar(s, '\n', i);
    FindCharIsFirst(s, '\n', i);
    assert i + 2 <= n;
    hide FindChar;
    j := SkipSpaces(s, n + 1);
    SkipSpacesStops(s, n + 1);
    hide SkipSpaces;
    c := Comment(s[i + 2..n], s[n + 1..j]);
    CommentThere(s, i, n, j);
    CommentRound(s, i, j);
    hide SkipComment;
    hide At;
    hide CommentText;
  }

  lemma CommentsMore(c: Comment, rest: seq<Comment>)
    ensures CommentsText([c] + rest) == CommentText(c) + CommentsText(rest)
    ensures CommentOk(c) && CommentsOk(rest) ==> CommentsOk([c] + rest)
  {
    hide CommentText;
    hide CommentOk;
    assert ([c] + rest)[1..] == rest;
  }

  lemma CommentThere(s: string, i: nat, n: nat, j: nat)
    requires AtComment(s, i) && i + 2 <= n < j <= |s| && s[n] == '\n'
    ensures var c := Comment(s[i + 2..n], s[n + 1..j]); At(s, i, CommentText(c)) && j == i + |CommentText(c)|
  {
    var line := "//" + s[i + 2..n];
    assert s[i..n] == line;
    assert s[n..j] == "\n" + s[n + 1..j];
    assert s[i..j] == s[i..n] + s[n..j];
  }

  /** What the parser skips before a token is white space and whole comment lines, and the token begins
      with neither. */
  lemma GapThere(s: string, i: nat) returns (g: Gap)
    requires i <= |s| && NextToken(s, i).Ok?
    ensures GapOk(g) && At(s, i, GapText(g)) && NextToken(s, i) == Ok((), i + |GapText(g)|)
    ensures var p := NextToken(s, i).next; !AtComment(s, p) && (p < |s| ==> !IsSpace(s[p]))
  {
    hide CommentsText;
    hide CommentsOk;
    hide SkipComment;
    hide SkipSpaces;
    var j := SkipSpaces(s, i);
    SkipSpacesStops(s, i);
    SkipCommentStops(s, j);
    hide Blank;
    var cs := CommentsThere(s, j);
    g := Gap(s[i..j], cs);
    assert At(s, i, s[i..j]);
    hide At;
    AtJoin(s, i, s[i..j], CommentsText(cs));
    TokenUnit(s, i);
  }

  // A tree stands at p, means v and ends before next.
  ghost predicate Reads(t: Tree, s: string, p: nat, v: JObject, next: nat) {
    && Wf(t) && At(s, p, Text(t)) && next == p + |Text(t)| && Ends(t, s, next) && Value(t, s, p) == v
  }

  lemma ScalarThere(s: string, p: nat) returns (t: Tree)
    requires p < |s| && ParseScalar(s, p).Ok?
    ensures Reads(t, s, p, ParseScalar(s, p).value, ParseScalar(s, p).next)
  {
    var c := s[p];
    if c == 'n' {
      t := TNull;
    } else if c == 't' || c == 'f' {
      t := TBool(At(s, p, "true"));
    } else if c == '"' {
      StringThere(s, p);
      t := TStr(ParseString(s, p).value.s);
    } else {
      t := NumberThere(s, p);
    }
  }

  lemma StringThere(s: string, p: nat)
    requires p < |s| && s[p] == '"' && ParseString(s, p).Ok?
    ensures ParseString(s, p).value.JStr?
    ensures Reads(TStr(ParseString(s, p).value.s), s, p, ParseString(s, p).value, ParseString(s, p).next)
  {
    hide ClosingQuote;
    hide Safe;
    var q := ClosingQuote(s, p + 1);
    assert s[q] == '"' by { ClosingQuoteIsFirst(s, p + 1); }
    ReadBodyIsSafe(s, p);
    QuotedThere(s, p, q);
    hide At;
    hide Quoted;
  }

  lemma QuotedThere(s: string, p: nat, q: nat)
    requires p < q < |s| && s[p] == '"' && s[q] == '"'
    ensures At(s, p, Quoted(s[p + 1..q])) && |Quoted(s[p + 1..q])| == q + 1 - p
  {
    assert s[p..q + 1] == Quoted(s[p + 1..q]);
  }

  lemma {:induction false} SkipDigitsStops(s: string, i: nat)
    requires i <= |s|
    ensures var j := SkipDigits(s, i); j < |s| ==> !IsDigit(s[j])
    decreases |s| - i
  {
    if i < |s| && IsDigit(s[i]) { SkipDigitsStops(s, i + 1); }
  }

  lemma NumberThere(s: string, p: nat) returns (t: Tree)
    requires p <= |s| && ParseNumber(s, p).Ok?
    ensures Reads(t, s, p, ParseNumber(s, p).value, ParseNumber(s, p).next)
  {
    hide SkipDigits;
    hide StrToInt;
    var j := SkipDigits(s, p);
    SkipDigitsStops(s, p);
    if CharAt(s, j) != '.' {
      t := TInt(s[p..j]);
    } else {
      var k := SkipDigits(s, j + 1);
      SkipDigitsStops(s, j + 1);
      t := TDecimal(s[p..j], s[j + 1..k]);
      DecimalThere(s, p, j, k);
      hide At;
    }
  }

  lemma DecimalThere(s: string, p: nat, j: nat, k: nat)
    requires p <= j < k <= |s| && s[j] == '.'
    ensures At(s, p, s[p..j] + ("." + s[j + 1..k]))
  {
    assert s[j..k] == "." + s[j + 1..k];
    assert s[p..k] == s[p..j] + s[j..k];
  }

  lemma ParseIs(s: string, i: nat)
    requires i <= |s| && Parse(s, i).Ok?
    ensures var t := NextToken(s, i);
      && t.Ok? && t.next < |s|
      && Parse(s, i) == if s[t.next] == '[' then ParseList(s, t.next)
                        else if s[t.next] == '{' then ParseDict(s, t.next)
                        else ParseScalar(s, t.next)
  {
    hide ParseList;
    hide ParseDict;
    hide NextToken;
  }

  lemma {:induction false} TreeThere(s: string, i: nat) returns (g: Gap, t: Tree)
    requires i <= |s| && Parse(s, i).Ok?
    ensures GapOk(g) && At(s, i, GapText(g))
    ensures Reads(t, s, i + |GapText(g)|, Parse(s, i).value, Parse(s, i).next)
    decreases |s| - i, 2
  {
    hide *;
    ParseIs(s, i);
    g := GapThere(s, i);
    var p := NextToken(s, i).next;
    if s[p] == '[' {
      t := ListThere(s, p);
    } else if s[p] == '{' {
      t := DictThere(s, p);
    } else {
      t := ScalarThere(s, p);
    }
  }

  // What ParseList and ParseDict do first.
  lemma ListIs(s: string, p: nat)
    requires p < |s| && ParseList(s, p).Ok?
    ensures var t := NextToken(s, p + 1);
      && t.Ok? && t.next < |s|
      && ParseList(s, p) == if s[t.next] == ']' then Ok(JList([]), t.next + 1) else ParseItems(s, p + 1, [])
  {
    var t := NextToken(s, p + 1);
    hide NextToken;
    hide ParseItems;
    if t.next < |s| {
      ItemsFromToken(s, p + 1, []);
    } else {
      ItemsAtEnd(s, []);
    }
  }

  lemma ItemsAtEnd(s: string, acc: seq<JObject>)
    ensures !ParseItems(s, |s|, acc).Ok?
  {
  }

  lemma DictIs(s: string, p: nat)
    requires p < |s| && ParseDict(s, p).Ok?
    ensures var t := NextToken(s, p + 1);
      && t.Ok? && t.next < |s|
      && ParseDict(s, p) == if s[t.next] == '}' then Ok(JDict([]), t.next + 1) else ParseEntries(s, p + 1, [])
  {
    var t := NextToken(s, p + 1);
    hide NextToken;
    hide ParseEntries;
    if t.next < |s| {
      EntriesFromToken(s, p + 1, []);
    } else {
      EntriesAtEnd(s, []);
    }
  }

  lemma EntriesAtEnd(s: string, acc: seq<Entry>)
    ensures !ParseEntries(s, |s|, acc).Ok?
  {
  }

  // Two marks around something that stands between them.
  lemma Around(s: string, p: nat, open: string, inside: string, close: string)
    requires |open| == |close| == 1 && p < |s| && s[p] == open[0] && At(s, p + 1, inside)
    requires p + 1 + |inside| < |s| && s[p + 1 + |inside|] == close[0]
    ensures At(s, p, open + (inside + close))
  {
    var e := p + 1 + |inside|;
    assert s[e..e + 1] == close;
    AtJoin(s, p + 1, inside, close);
    assert s[p..p + 1] == open;
    AtJoin(s, p, open, inside + close);
  }

  lemma {:induction false} ListThere(s: string, p: nat) returns (t: Tree)
    requires p < |s| && s[p] == '[' && ParseList(s, p).Ok?
    ensures Reads(t, s, p, ParseList(s, p).value, ParseList(s, p).next)
    decreases |s| - p, 1
  {
    hide *;
    ListIs(s, p);
    var j := NextToken(s, p + 1).next;
    if s[j] == ']' {
      var g := GapThere(s, p + 1);
      t := TNoItems(g);
      Around(s, p, "[", GapText(g), "]");
      ReadsNoItems(g, s, p);
    } else {
      var items := ItemsThere(s, p + 1, []);
      t := TList(items);
      Around(s, p, "[", ItemsText(items), "]");
      ReadsList(items, s, p);
      assert [] + Values(items, s, p + 1) == Values(items, s, p + 1);
    }
  }

  lemma ReadsNoItems(g: Gap, s: string, p: nat)
    requires GapOk(g) && At(s, p, "[" + (GapText(g) + "]"))
    ensures Reads(TNoItems(g), s, p, JList([]), p + 1 + |GapText(g)| + 1)
  {
    hide At;
    hide GapText;
  }

  lemma ReadsList(items: seq<Item>, s: string, p: nat)
    requires items != [] && (forall k :: 0 <= k < |items| ==> ItemWf(items[k]))
    requires At(s, p, "[" + (ItemsText(items) + "]"))
    ensures Reads(TList(items), s, p, JList(Values(items, s, p + 1)), p + 1 + |ItemsText(items)| + 1)
  {
    hide At;
    hide ItemsText;
    hide Values;
    hide ItemWf;
  }

  lemma ReadsNoPairs(g: Gap, s: string, p: nat)
    requires GapOk(g) && At(s, p, "{" + (GapText(g) + "}"))
    ensures Reads(TNoPairs(g), s, p, JDict([]), p + 1 + |GapText(g)| + 1)
  {
    hide At;
    hide GapText;
  }

  lemma ReadsDict(ps: seq<Pair>, s: string, p: nat)
    requires ps != [] && (forall k :: 0 <= k < |ps| ==> PairWf(ps[k])) && At(s, p, "{" + (PairsText(ps) + "}"))
    ensures Reads(TDict(ps), s, p, JDict(Bindings(ps, s, p + 1, [])), p + 1 + |PairsText(ps)| + 1)
  {
    hide At;
    hide PairsText;
    hide Bindings;
    hide PairWf;
  }

  lemma ItemsIs(s: string, i: nat, acc: seq<JObject>)
    requires i <= |s| && ParseItems(s, i, acc).Ok?
    ensures Parse(s, i).Ok?
    ensures var t := NextToken(s, Parse(s, i).next);
      t.Ok? && t == Ok((), t.next) && t.next < |s| && (s[t.next] == ']' || s[t.next] == ',')
  {
    hide Parse;
    hide NextToken;
    hide ParseItems;
    ItemsUnfold(s, i, acc);
    TokenUnit(s, Parse(s, i).next);
  }

  lemma ItemsUnfold(s: string, i: nat, acc: seq<JObject>)
    requires i <= |s|
    ensures ParseItems(s, i, acc) == ItemsBehind(s, Parse(s, i), acc)
  {
    hide Parse;
    hide NextToken;
  }

  // The rest of an element round, once the element is read.
  ghost function ItemsBehind(s: string, v: Outcome<JObject>, acc: seq<JObject>): Outcome<JObject>
    requires v.Ok? ==> v.next <= |s|
  {
    if !v.Ok? then v else
    var t := NextMark(s, v.next);
    if !t.Ok? then Rethrow(t) else
    var c := CharAt(s, t.next);
    if c == ']' then Ok(JList(acc + [v.value]), t.next + 1)
    else if c != ',' then Throw(NoCommaInList)
    else ParseItems(s, t.next + 1, acc + [v.value])
  }

  // The item at i: its value and the gaps around it.
  lemma {:induction false} ItemThere(s: string, i: nat) returns (item: Item)
    requires i <= |s| && Parse(s, i).Ok? && NextToken(s, Parse(s, i).next).Ok?
    ensures ItemWf(item) && At(s, i, ItemText(item)) && ItemValue(item, s, i) == Parse(s, i).value
    ensures NextToken(s, Parse(s, i).next) == Ok((), i + |ItemText(item)|)
    decreases |s| - i, 3
  {
    hide *;
    var g, t := TreeThere(s, i);
    var n := Parse(s, i).next;
    var a := GapThere(s, n);
    item := Item(g, t, a);
    ReadsParts(t, s, i + |GapText(g)|, Parse(s, i).value, n);
    AtJoin(s, i, GapText(g), Text(t));
    AtJoin(s, i, GapText(g) + Text(t), GapText(a));
    ItemIs(item, s, i);
  }

  lemma ReadsParts(t: Tree, s: string, p: nat, v: JObject, next: nat)
    requires Reads(t, s, p, v, next)
    ensures Wf(t) && At(s, p, Text(t)) && next == p + |Text(t)| && Value(t, s, p) == v
  {
  }

  lemma ItemIs(item: Item, s: string, i: nat)
    ensures ItemText(item) == GapText(item.before) + Text(item.value) + GapText(item.after)
    ensures GapOk(item.before) && Wf(item.value) && GapOk(item.after) ==> ItemWf(item)
    ensures ItemValue(item, s, i) == Value(item.value, s, i + |GapText(item.before)|)
  {
  }

  lemma {:induction false} ItemsThere(s: string, i: nat, acc: seq<JObject>) returns (items: seq<Item>)
    requires i <= |s| && ParseItems(s, i, acc).Ok?
    ensures items != [] && (forall k :: 0 <= k < |items| ==> ItemWf(items[k]))
    ensures var e := i + |ItemsText(items)|;
      && At(s, i, ItemsText(items)) && e < |s| && s[e] == ']'
      && ParseItems(s, i, acc) == Ok(JList(acc + Values(items, s, i)), e + 1)
    decreases |s| - i, 4
  {
    hide *;
    ItemsIs(s, i, acc);
    var item := ItemThere(s, i);
    var v := Parse(s, i);
    var m := NextToken(s, v.next).next;
    ItemsRound(s, i, acc, v.value, v.next, m);
    if s[m] == ']' {
      items := [item];
      ItemsOne(item);
      ValuesStep(items, s, i, acc);
    } else {
      var rest := ItemsThere(s, m + 1, acc + [v.value]);
      items := [item] + rest;
      assert items[1..] == rest;
      ItemsMore(item, rest);
      ValuesStep(items, s, i, acc);
      Comma(s, i, ItemText(item), ItemsText(rest));
    }
  }

  lemma ItemsOne(item: Item)
    ensures ItemsText([item]) == ItemText(item)
  {
  }

  lemma ItemsMore(item: Item, rest: seq<Item>)
    requires rest != []
    ensures ItemsText([item] + rest) == ItemText(item) + ("," + ItemsText(rest))
  {
    assert ([item] + rest)[1..] == rest;
  }

  lemma Comma(s: string, i: nat, a: string, b: string)
    requires At(s, i, a) && i + |a| < |s| && s[i + |a|] == ',' && At(s, i + |a| + 1, b)
    ensures At(s, i, a + ("," + b))
  {
    assert s[i + |a|..i + |a| + 1] == ",";
    AtJoin(s, i + |a|, ",", b);
    AtJoin(s, i, a, "," + b);
  }

  // ---------- Dictionaries ----------

  lemma {:induction false} DictThere(s: string, p: nat) returns (t: Tree)
    requires p < |s| && s[p] == '{' && ParseDict(s, p).Ok?
    ensures Reads(t, s, p, ParseDict(s, p).value, ParseDict(s, p).next)
    decreases |s| - p, 1
  {
    hide *;
    DictIs(s, p);
    var j := NextToken(s, p + 1).next;
    if s[j] == '}' {
      var g := GapThere(s, p + 1);
      t := TNoPairs(g);
      Around(s, p, "{", GapText(g), "}");
      ReadsNoPairs(g, s, p);
    } else {
      var ps := PairsThere(s, p + 1, []);
      t := TDict(ps);
      Around(s, p, "{", PairsText(ps), "}");
      ReadsDict(ps, s, p);
    }
  }

  lemma EntryIs(s: string, i: nat)
    requires i <= |s| && ParseEntry(s, i).Ok?
    ensures Parse(s, i).Ok? && Parse(s, i).value.JStr?
    ensures var t := NextToken(s, Parse(s, i).next); t.Ok? && t.next < |s| && s[t.next] == ':'
    ensures var v := Parse(s, NextToken(s, Parse(s, i).next).next + 1);
      v.Ok? && ParseEntry(s, i) == Ok(Entry(Parse(s, i).value.s, v.value), v.next)
  {
    hide Parse;
    hide NextToken;
  }

  lemma EntriesIs(s: string, i: nat, acc: seq<Entry>)
    requires i <= |s| && ParseEntries(s, i, acc).Ok?
    ensures ParseEntry(s, i).Ok?
    ensures var t := NextToken(s, ParseEntry(s, i).next);
      t.Ok? && t == Ok((), t.next) && t.next < |s| && (s[t.next] == '}' || s[t.next] == ',')
  {
    hide ParseEntry;
    hide NextToken;
    hide ParseEntries;
    EntriesUnfold(s, i, acc);
    TokenUnit(s, ParseEntry(s, i).next);
  }

  lemma StrTree(t: Tree, s: string, p: nat, v: JObject, next: nat)
    requires Reads(t, s, p, v, next) && v.JStr?
    ensures Safe(v.s) && At(s, p, Quoted(v.s)) && next == p + |Quoted(v.s)|
  {
  }

  // The pair at i: its key and the item behind the colon.
  lemma {:induction false} PairThere(s: string, i: nat) returns (p: Pair)
    requires i <= |s| && ParseEntry(s, i).Ok? && NextToken(s, ParseEntry(s, i).next).Ok?
    ensures PairWf(p) && At(s, i, PairText(p))
    ensures ParseEntry(s, i).value == Entry(p.key, ItemValue(p.item, s, i + |KeyText(p)|))
    ensures NextToken(s, ParseEntry(s, i).next) == Ok((), i + |PairText(p)|)
    decreases |s| - i, 4
  {
    hide *;
    EntryIs(s, i);
    var k := Parse(s, i);
    var b, t := TreeThere(s, i);
    StrTree(t, s, i + |GapText(b)|, k.value, k.next);
    var g := GapThere(s, k.next);
    var m := NextToken(s, k.next).next;
    var item := ItemThere(s, m + 1);
    p := Pair(b, k.value.s, g, item);
    PairIs(p);
    AtJoin(s, i, GapText(b), Quoted(p.key));
    Colon(s, k.next, GapText(g));
    AtJoin(s, i, GapText(b) + Quoted(p.key), GapText(g) + ":");
    AtJoin(s, i, KeyText(p), ItemText(item));
  }

  lemma Colon(s: string, i: nat, a: string)
    requires At(s, i, a) && i + |a| < |s| && s[i + |a|] == ':'
    ensures At(s, i, a + ":")
  {
    assert s[i + |a|..i + |a| + 1] == ":";
    AtJoin(s, i, a, ":");
  }

  lemma PairIs(p: Pair)
    ensures KeyText(p) == GapText(p.before) + Quoted(p.key) + (GapText(p.behind) + ":")
    ensures PairText(p) == KeyText(p) + ItemText(p.item)
    ensures GapOk(p.before) && Safe(p.key) && GapOk(p.behind) && ItemWf(p.item) ==> PairWf(p)
  {
  }

  lemma {:induction false} PairsThere(s: string, i: nat, acc: seq<Entry>) returns (ps: seq<Pair>)
    requires i <= |s| && ParseEntries(s, i, acc).Ok?
    ensures ps != [] && (forall k :: 0 <= k < |ps| ==> PairWf(ps[k]))
    ensures var e := i + |PairsText(ps)|;
      && At(s, i, PairsText(ps)) && e < |s| && s[e] == '}'
      && ParseEntries(s, i, acc) == Ok(JDict(Bindings(ps, s, i, acc)), e + 1)
    decreases |s| - i, 5
  {
    hide *;
    EntriesIs(s, i, acc);
    var p := PairThere(s, i);
    var e := ParseEntry(s, i);
    var m := NextToken(s, e.next).next;
    EntriesRound(s, i, acc, e.value, e.next, m);
    if s[m] == '}' {
      ps := [p];
      PairsOne(p);
      BindingsStep(ps, s, i, acc);
    } else {
      var rest := PairsThere(s, m + 1, Insert(acc, e.value.key, e.value.value));
      ps := [p] + rest;
      assert ps[1..] == rest;
      PairsMore(p, rest);
      BindingsStep(ps, s, i, acc);
      Comma(s, i, PairText(p), PairsText(rest));
    }
  }

  lemma PairsOne(p: Pair)
    ensures PairsText([p]) == PairText(p)
  {
  }

  lemma PairsMore(p: Pair, rest: seq<Pair>)
    requires rest != []
    ensures PairsText([p] + rest) == PairText(p) + ("," + PairsText(rest))
  {
    assert ([p] + rest)[1..] == rest;
  }

  // ---------- The parser reads exactly the trees ----------

  /** Parsing from position i returns v and stops at next if and only if a gap and a tree that means v
      stand there, and the tree ends at next. */
  lemma ParsesExactly(s: string, i: nat, v: JObject, next: nat)
    requires i <= |s|
    ensures Parse(s, i) == Ok(v, next) <==> exists g, t :: StandsAt(g, t, s, i, v, next)
  {
    hide *;
    if Parse(s, i) == Ok(v, next) {
      var g, t := TreeThere(s, i);
      Stands(g, t, s, i, v, next);
    }
    if g, t :| StandsAt(g, t, s, i, v, next) { ReadsTree(g, t, s, i, v, next); }
  }

  // A gap stands at i, and behind it a tree that means v and ends before next.
  ghost predicate StandsAt(g: Gap, t: Tree, s: string, i: nat, v: JObject, next: nat) {
    GapOk(g) && At(s, i, GapText(g)) && Reads(t, s, i + |GapText(g)|, v, next)
  }

  lemma Stands(g: Gap, t: Tree, s: string, i: nat, v: JObject, next: nat)
    requires GapOk(g) && At(s, i, GapText(g)) && Reads(t, s, i + |GapText(g)|, v, next)
    ensures StandsAt(g, t, s, i, v, next)
  {
  }

  lemma ReadsTree(g: Gap, t: Tree, s: string, i: nat, v: JObject, next: nat)
    requires StandsAt(g, t, s, i, v, next)
    ensures i <= |s| && Parse(s, i) == Ok(v, next)
  {
    hide Parse;
    hide At;
    hide GapText;
    hide Text;
    hide Value;
    hide Wf;
    AtJoin(s, i, GapText(g), Text(t));
    TreeParses(t, g, s, i);
  }

  // ---------- Whole texts ----------

  lemma TextLast(t: Tree)
    requires Wf(t)
    ensures Text(t) != "" && !IsSpace(Text(t)[|Text(t)| - 1])
  {
    hide GapText;
    hide ItemsText;
    hide PairsText;
    match t
    case TInt(digits) => assert IsDigit(digits[|digits| - 1]);
    case TDecimal(whole, fraction) => assert IsDigit(fraction[|fraction| - 1]);
    case _ =>
  }

  lemma {:induction false} TrimBlank(a: string, tail: string)
    requires a != "" && !IsSpace(a[|a| - 1]) && Blank(tail)
    ensures TrimRight(a + tail) == a
    decreases |tail|
  {
    if tail == "" {
      assert a + tail == a;
    } else {
      var n := |tail| - 1;
      assert (a + tail)[..|a| + n] == a + tail[..n];
      assert (a + tail)[|a| + n] == tail[n];
      TrimBlank(a, tail[..n]);
    }
  }

  /** A text that is a tree with a gap in front of it and blanks behind it is read as what the tree
      means. */
  lemma TextParses(g: Gap, t: Tree, tail: string)
    requires GapOk(g) && Wf(t) && Blank(tail)
    ensures var s := GapText(g) + Text(t); FromString(s + tail) == Ok(Value(t, s, |GapText(g)|), |s|)
  {
    hide *;
    var s := GapText(g) + Text(t);
    TextLast(t);
    TrimBlank(s, tail);
    WholeText(t, s);
    TreeParses(t, g, s, 0);
    FromStringIs(s + tail, s);
  }

  lemma WholeText(t: Tree, s: string)
    ensures At(s, 0, s) && Ends(t, s, |s|)
  {
  }

  lemma FromStringIs(text: string, s: string)
    requires TrimRight(text) == s
    ensures FromString(text) == Parse(s, 0)
  {
  }

  /** The tree has the tokens of Print(v), with any white space and comments around them. */
  ghost predicate Spaced(t: Tree, v: JObject) {
    match v
    case JNull => t.TNull?
    case JBool(b) => t == TBool(b)
    case JInt(n) => n >= 0 && t == TInt(PrintNat(n))
    case JDouble(_) => false
    case JStr(w) => t == TStr(w)
    case JList(vs) =>
      if vs == [] then t.TNoItems? && GapOk(t.inside) else
      t.TList? && |t.items| == |vs| && forall k :: 0 <= k < |vs| ==> SpacedItem(t.items[k], vs[k])
    case JDict(es) =>
      if es == [] then t.TNoPairs? && GapOk(t.inside) else
      t.TDict? && |t.pairs| == |es| && forall k :: 0 <= k < |es| ==> SpacedPair(t.pairs[k], es[k])
  }

  ghost predicate SpacedItem(item: Item, v: JObject) {
    GapOk(item.before) && Spaced(item.value, v) && GapOk(item.after)
  }

  ghost predicate SpacedPair(p: Pair, e: Entry) {
    GapOk(p.before) && p.key == e.key && GapOk(p.behind) && SpacedItem(p.item, e.value)
  }

  lemma {:induction false} SpacedMeans(t: Tree, v: JObject, s: string, i: nat)
    requires Printable(v) && Spaced(t, v)
    ensures Wf(t) && Value(t, s, i) == v
    decreases v, 1
  {
    match v
    case JInt(n) => DigitsValuePrintNat(n);
    case JList(vs) => if vs != [] { SpacedItemsMean(t.items, vs, s, i + 1); }
    case JDict(es) =>
      if es != [] {
        SpacedPairsMean(t.pairs, es, [], s, i + 1);
        assert [] + es == es;
      }
    case _ =>
  }

  lemma {:induction false} SpacedItemsMean(items: seq<Item>, vs: seq<JObject>, s: string, i: nat)
    requires |items| == |vs| && forall k :: 0 <= k < |vs| ==> Printable(vs[k]) && SpacedItem(items[k], vs[k])
    ensures Values(items, s, i) == vs && forall k :: 0 <= k < |items| ==> ItemWf(items[k])
    decreases vs, 0
  {
    hide GapText;
    hide ItemText;
    hide Printable;
    hide GapOk;
    if vs != [] {
      SpacedMeans(items[0].value, vs[0], s, i + |GapText(items[0].before)|);
      SpacedItemsMean(items[1..], vs[1..], s, i + |ItemText(items[0])| + 1);
      assert vs == [vs[0]] + vs[1..] && items == [items[0]] + items[1..];
    }
  }

  lemma SpacedPairParts(p: Pair, e: Entry)
    requires SpacedPair(p, e)
    ensures GapOk(p.before) && p.key == e.key && GapOk(p.behind)
    ensures GapOk(p.item.before) && Spaced(p.item.value, e.value) && GapOk(p.item.after)
  {
  }

  lemma {:induction false} SpacedPairsMean(ps: seq<Pair>, es: seq<Entry>, acc: seq<Entry>, s: string, i: nat)
    requires |ps| == |es| && SortedKeys(acc + es)
    requires forall k :: 0 <= k < |es| ==> Safe(es[k].key) && Printable(es[k].value) && SpacedPair(ps[k], es[k])
    ensures Bindings(ps, s, i, acc) == acc + es && forall k :: 0 <= k < |ps| ==> PairWf(ps[k])
    decreases es, 0
  {
    hide GapText;
    hide ItemText;
    hide PairText;
    hide KeyText;
    hide Printable;
    hide GapOk;
    hide Safe;
    hide SortedKeys;
    hide Insert;
    if es == [] {
      assert acc + es == acc;
    } else {
      var p, e := ps[0], es[0];
      var j := i + |KeyText(p)|;
      SpacedPairParts(p, e);
      SpacedMeans(p.item.value, e.value, s, j + |GapText(p.item.before)|);
      SortedPrefix(acc, es);
      InsertAppends(acc, e.key, e.value);
      assert acc + [e] + es[1..] == acc + es;
      SpacedPairsMean(ps[1..], es[1..], acc + [e], s, i + |PairText(p)| + 1);
      assert ps == [p] + ps[1..];
    }
  }

  /** Any white space and newline-terminated comments around the tokens of a printed value make no
      difference: the text is read as the value. */
  lemma SpacedTextParses(v: JObject, g: Gap, t: Tree, tail: string)
    requires Printable(v) && GapOk(g) && Spaced(t, v) && Blank(tail)
    ensures FromString(GapText(g) + Text(t) + tail) == Ok(v, |GapText(g) + Text(t)|)
  {
    hide *;
    SpacedMeans(t, v, GapText(g) + Text(t), |GapText(g)|);
    TextParses(g, t, tail);
  }

  /** FromString returns v exactly when a gap and a tree that means v stand at the start of the trimmed
      text; what stands behind the tree is not looked at. */
  lemma FromStringExactly(content: string, v: JObject, next: nat)
    ensures FromString(content) == Ok(v, next) <==> exists g, t :: StandsAt(g, t, TrimRight(content), 0, v, next)
  {
    hide *;
    FromStringIs(content, TrimRight(content));
    ParsesExactly(TrimRight(content), 0, v, next);
  }

  /** A double printed as a decimal literal is read back as that literal. */
  lemma DecimalReadsBack(text: string, fmt: DoubleFormat, whole: string, fraction: string)
    requires Wf(TDecimal(whole, fraction)) && fmt(text) == whole + ("." + fraction)
    ensures FromString(Print(JDouble(text), fmt)) == Ok(JDouble(fmt(text)), |fmt(text)|)
  {
    var none := Gap("", []);
    var s := fmt(text);
    assert GapText(none) == "" && GapOk(none) && Text(TDecimal(whole, fraction)) == s && "" + s == s && s + "" == s;
    assert Value(TDecimal(whole, fraction), s, 0) == JDouble(s);
    assert Print(JDouble(text), fmt) == s;
    hide FromString;
    hide GapText;
    hide Text;
    TextParses(none, TDecimal(whole, fraction), "");
  }

  // ---------- Which error is thrown ----------

  /** A string without any quote behind it, and one whose quotes are all escaped. */
  lemma StringErrors(s: string, i: nat)
    requires i < |s|
    ensures ParseString(s, i) == Throw(NoString) <==> forall k :: i < k < |s| ==> s[k] != '"'
    ensures ParseString(s, i) == Throw(NoClosingQuote) <==>
      && (exists k :: i < k < |s| && s[k] == '"')
      && (forall k :: i < k < |s| && s[k] == '"' ==> BackRun(s, k) % 2 == 1)
    ensures ParseString(s, i).Ok? || ParseString(s, i) == Throw(NoString) || ParseString(s, i) == Throw(NoClosingQuote)
  {
    var q, f := ClosingQuote(s, i + 1), FindChar(s, '"', i + 1);
    ClosingQuoteIsFirst(s, i + 1);
    FindCharIsFirst(s, '"', i + 1);
    hide ClosingQuote;
    hide FindChar;
    hide BackRun;
    if q < |s| { assert s[q] == '"' && BackRun(s, q) % 2 == 0; }
    if f < |s| { assert s[f] == '"'; }
  }

  /** The error of a value that is no container tells what it began with. */
  lemma ScalarErrors(s: string, p: nat)
    requires p <= |s| && ParseScalar(s, p).Throw?
    ensures var c, e := CharAt(s, p), ParseScalar(s, p).error;
      && (c == 'n' <==> e == NotNull)
      && (c == 't' || c == 'f' <==> e == NotBool)
      && (c == '"' <==> e == NoString || e == NoClosingQuote)
      && (c == '-' ==> e == NotNumber)
      && (IsDigit(c) ==> e == NoFraction)
      && (c !in "ntf\"-0123456789" <==> e == UnexpectedCharacter)
  {
    SpaceCharacters(CharAt(s, p));
    hide ClosingQuote;
    hide FindChar;
  }

  /** Errors pass through; behind an element, a key and an entry only the right mark is taken. */
  lemma ItemsErrors(s: string, i: nat, acc: seq<JObject>)
    requires i <= |s|
    ensures Parse(s, i).Throw? ==> ParseItems(s, i, acc) == Throw(Parse(s, i).error)
    ensures Parse(s, i).Ok? && NextToken(s, Parse(s, i).next).Ok? ==>
      var c := CharAt(s, NextToken(s, Parse(s, i).next).next);
      c != ',' && c != ']' ==> ParseItems(s, i, acc) == Throw(NoCommaInList)
  {
    hide Parse;
    hide NextToken;
    ItemsUnfold(s, i, acc);
    hide ParseItems;
  }

  lemma EntryErrors(s: string, i: nat)
    requires i <= |s| && Parse(s, i).Ok?
    ensures !Parse(s, i).value.JStr? ==> ParseEntry(s, i) == Throw(KeyNotString)
    ensures Parse(s, i).value.JStr? && NextToken(s, Parse(s, i).next).Ok? ==>
      var c := CharAt(s, NextToken(s, Parse(s, i).next).next);
      c != ':' ==> ParseEntry(s, i) == Throw(NoColonInDict)
  {
    hide Parse;
    hide NextToken;
    EntryUnfold(s, i);
    hide ParseEntry;
  }

  lemma EntriesErrors(s: string, i: nat, acc: seq<Entry>)
    requires i <= |s|
    ensures ParseEntry(s, i).Throw? ==> ParseEntries(s, i, acc) == Throw(ParseEntry(s, i).error)
    ensures ParseEntry(s, i).Ok? && NextToken(s, ParseEntry(s, i).next).Ok? ==>
      var c := CharAt(s, NextToken(s, ParseEntry(s, i).next).next);
      c != ',' && c != '}' ==> ParseEntries(s, i, acc) == Throw(NoCommaInDict)
  {
    hide ParseEntry;
    hide NextToken;
    EntriesUnfold(s, i, acc);
    hide ParseEntries;
  }
}
