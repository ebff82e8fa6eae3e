/** The grammar tinyjson accepts, as functions of the text and a cursor.

    `str_[str_.size()]` is the NUL character in C++, so reading one past the end is `CharAt`.
    A comment without a newline makes the code compute `npos + 1`, which puts the cursor back
    to 0; that event is the outcome `CursorReset`, kept apart from the thrown errors. `JsonRestart`
    says what the code does after it.
  */
module JsonGrammar {
  import opened Slices
  import opened JsonValue

  datatype ParseError =
    | UnexpectedCharacter | NotNull | NotBool | NotNumber | NoFraction
    | NoString | NoClosingQuote | NoCommaInList | NoColonInDict | NoCommaInDict | KeyNotString

  datatype Outcome<+T> =
    | Ok(value: T, next: nat)
    | Throw(error: ParseError)
    | CursorReset(expected: Expected)

  // What the code was looking for when the cursor was reset: a value, or the mark behind one.
  datatype Expected = ForValue | ForMark

  predicate IsSpace(c: char) { c == ' ' || '\t' <= c <= '\r' }

  function CharAt(s: string, i: nat): char { if i < |s| then s[i] else '\0' }

  // ---------- Lexical scans ----------

  function SkipSpaces(s: string, i: nat): (r: nat)
    requires i <= |s|
    ensures i <= r <= |s|
    decreases |s| - i
  {
    if i < |s| && IsSpace(s[i]) then SkipSpaces(s, i + 1) else i
  }

  function SkipDigits(s: string, i: nat): (r: nat)
    requires i <= |s|
    ensures i <= r <= |s| && AllDigits(s[i..r])
    decreases |s| - i
  {
    if i < |s| && IsDigit(s[i]) then SkipDigits(s, i + 1) else i
  }

  /** `str_.find(c, i)`, with `|s|` standing for npos. */
  function FindChar(s: string, c: char, i: nat): (r: nat)
    requires i <= |s|
    ensures i <= r <= |s| && (r < |s| ==> s[r] == c)
    decreases |s| - i
  {
    if i < |s| && s[i] != c then FindChar(s, c, i + 1) else i
  }

  predicate AtComment(s: string, i: nat) { i + 1 < |s| && s[i] == '/' && s[i + 1] == '/' }

  /** The cursor after the comment lines that start at i, if any do. */
  function SkipComment(s: string, i: nat): (r: Outcome<()>)
    requires i <= |s|
    ensures r.Ok? ==> i <= r.next <= |s|
    ensures r.CursorReset? ==> r.expected.ForValue?
    decreases |s| - i
  {
    if !AtComment(s, i) then Ok((), i) else
    var newline := FindChar(s, '\n', i);
    if newline == |s| then CursorReset(ForValue) else
    SkipComment(s, SkipSpaces(s, newline + 1))
  }

  function NextToken(s: string, i: nat): (r: Outcome<()>)
    requires i <= |s|
    ensures r.Ok? ==> i <= r.next <= |s|
    ensures r.CursorReset? ==> r.expected.ForValue?
  {
    var j := SkipSpaces(s, i);
    if j >= |s| then Throw(UnexpectedCharacter) else SkipComment(s, j)
  }

  /** The token behind a value: a comma, a colon or a closing mark. */
  function NextMark(s: string, i: nat): (r: Outcome<()>)
    requires i <= |s|
    ensures r.Ok? ==> i <= r.next <= |s|
    ensures !r.CursorReset? ==> r == NextToken(s, i)
    ensures r.CursorReset? <==> NextToken(s, i).CursorReset?
  {
    ExpectMark(NextToken(s, i))
  }

  function ExpectMark(t: Outcome<()>): Outcome<()> { if t.CursorReset? then CursorReset(ForMark) else t }

  /** How many backslashes stand immediately before position p. */
  function BackRun(s: string, p: nat): (n: nat)
    requires p <= |s|
    ensures n <= p
  {
    if p > 0 && s[p - 1] == '\\' then 1 + BackRun(s, p - 1) else 0
  }

  lemma {:induction false} BackRunIs(s: string, p: nat)
    requires p <= |s|
    ensures var n := BackRun(s, p);
      (forall k :: p - n <= k < p ==> s[k] == '\\') && (n < p ==> s[p - n - 1] != '\\')
  {
    if p > 0 && s[p - 1] == '\\' { BackRunIs(s, p - 1); }
  }

  /** The quote that ends a string whose body starts at p; `|s|` when there is none. */
  function ClosingQuote(s: string, p: nat): (q: nat)
    requires p <= |s|
    ensures p <= q <= |s|
    decreases |s| - p
  {
    var q := FindChar(s, '"', p);
    if q == |s| || BackRun(s, q) % 2 == 0 then q else ClosingQuote(s, q + 1)
  }

  lemma {:induction false} FindCharIsFirst(s: string, c: char, i: nat)
    requires i <= |s|
    ensures forall k :: i <= k < FindChar(s, c, i) ==> s[k] != c
    decreases |s| - i
  {
    if i < |s| && s[i] != c { FindCharIsFirst(s, c, i + 1); }
  }

  /** A string ends exactly at the first quote behind an even run of backslashes. */
  lemma {:induction false} ClosingQuoteIsFirst(s: string, p: nat)
    requires p <= |s|
    ensures var q := ClosingQuote(s, p);
            && (q < |s| ==> s[q] == '"' && BackRun(s, q) % 2 == 0)
            && (forall k :: p <= k < q && s[k] == '"' ==> BackRun(s, k) % 2 == 1)
    decreases |s| - p
  {
    var q := FindChar(s, '"', p);
    FindCharIsFirst(s, '"', p);
    if q < |s| && BackRun(s, q) % 2 == 1 { ClosingQuoteIsFirst(s, q + 1); }
  }

  // ---------- Values ----------

  function ParseNull(s: string, i: nat): Outcome<JObject> {
    if At(s, i, "null") then Ok(JNull, i + 4) else Throw(NotNull)
  }

  function ParseBool(s: string, i: nat): Outcome<JObject> {
    if At(s, i, "true") then Ok(JBool(true), i + 4)
    else if At(s, i, "false") then Ok(JBool(false), i + 5)
    else Throw(NotBool)
  }

  function ParseNumber(s: string, i: nat): (r: Outcome<JObject>)
    requires i <= |s|
    ensures r.Ok? ==> i < r.next <= |s|
  {
    var j := SkipDigits(s, i);
    if j == i then Throw(NotNumber)
    else if CharAt(s, j) != '.' then Ok(JInt(StrToInt(s[i..j])), j)
    else
      var k := SkipDigits(s, j + 1);
      if k == j + 1 then Throw(NoFraction) else Ok(JDouble(s[i..]), k)
  }

  function ParseString(s: string, i: nat): (r: Outcome<JObject>)
    requires i < |s|
    ensures r.Ok? ==> i < r.next <= |s|
  {
    var q := ClosingQuote(s, i + 1);
    if q < |s| then Ok(JStr(s[i + 1..q]), q + 1)
    else if FindChar(s, '"', i + 1) == |s| then Throw(NoString)
    else Throw(NoClosingQuote)
  }

  /** Any token but an opening bracket or brace. */
  function ParseScalar(s: string, p: nat): (r: Outcome<JObject>)
    requires p <= |s|
    ensures r.Ok? ==> p < r.next <= |s|
    ensures !r.CursorReset?
  {
    var c := CharAt(s, p);
    if c == 'n' then ParseNull(s, p)
    else if c == 't' || c == 'f' then ParseBool(s, p)
    else if c == '-' || IsDigit(c) then ParseNumber(s, p)
    else if c == '"' then ParseString(s, p)
    else Throw(UnexpectedCharacter)
  }

  function Parse(s: string, i: nat): (r: Outcome<JObject>)
    requires i <= |s|
    ensures r.Ok? ==> i < r.next <= |s|
    decreases |s| - i, 2
  {
    var t := NextToken(s, i);
    if !t.Ok? then Rethrow(t)
    else if CharAt(s, t.next) == '[' then ParseList(s, t.next)
    else if CharAt(s, t.next) == '{' then ParseDict(s, t.next)
    else ParseScalar(s, t.next)
  }

  // An exception keeps propagating, whatever its thrower was about to return.
  function Rethrow<T, U>(o: Outcome<T>): (r: Outcome<U>)
    requires !o.Ok?
    ensures !r.Ok?
  {
    match o
    case Throw(e) => Throw(e)
    case CursorReset(x) => CursorReset(x)
  }

  function ParseList(s: string, i: nat): (r: Outcome<JObject>)
    requires i < |s|
    ensures r.Ok? ==> i < r.next <= |s|
    decreases |s| - i, 1
  {
    var t := NextToken(s, i + 1);
    if !t.Ok? then Rethrow(t)
    else if CharAt(s, t.next) == ']' then Ok(JList([]), t.next + 1)
    else ParseItems(s, t.next, [])
  }

  /** The element loop of ParseList, with `acc` already pushed. */
  function ParseItems(s: string, i: nat, acc: seq<JObject>): (r: Outcome<JObject>)
    requires i <= |s|
    ensures r.Ok? ==> i < r.next <= |s|
    decreases |s| - i, 3
  {
    var v := Parse(s, i);
    if !v.Ok? then v else
    var t := NextMark(s, v.next);
    if !t.Ok? then Rethrow(t) else
    var c := CharAt(s, t.next);
    if c == ']' then Ok(JList(acc + [v.value]), t.next + 1)
    else if c != ',' then Throw(NoCommaInList)
    else ParseItems(s, t.next + 1, acc + [v.value])
  }

  function ParseDict(s: string, i: nat): (r: Outcome<JObject>)
    requires i < |s|
    ensures r.Ok? ==> i < r.next <= |s|
    decreases |s| - i, 1
  {
    var t := NextToken(s, i + 1);
    if !t.Ok? then Rethrow(t)
    else if CharAt(s, t.next) == '}' then Ok(JDict([]), t.next + 1)
    else ParseEntries(s, t.next, [])
  }

  /** One `key : value` pair. */
  function ParseEntry(s: string, i: nat): (r: Outcome<Entry>)
    requires i <= |s|
    ensures r.Ok? ==> i < r.next <= |s|
    decreases |s| - i, 3
  {
    var k := Parse(s, i);
    if !k.Ok? then Rethrow(k)
    else if !k.value.JStr? then Throw(KeyNotString) else
    var t := NextMark(s, k.next);
    if !t.Ok? then Rethrow(t)
    else if CharAt(s, t.next) != ':' then Throw(NoColonInDict) else
    var v := Parse(s, t.next + 1);
    if !v.Ok? then Rethrow(v) else Ok(Entry(k.value.s, v.value), v.next)
  }

  /** The entry loop of ParseDict, with `acc` already inserted. */
  function ParseEntries(s: string, i: nat, acc: seq<Entry>): (r: Outcome<JObject>)
    requires i <= |s|
    ensures r.Ok? ==> i < r.next <= |s|
    decreases |s| - i, 4
  {
    var e := ParseEntry(s, i);
    if !e.Ok? then Rethrow(e) else
    var t := NextMark(s, e.next);
    if !t.Ok? then Rethrow(t) else
    var c := CharAt(s, t.next);
    var dict := Insert(acc, e.value.key, e.value.value);
    if c == '}' then Ok(JDict(dict), t.next + 1)
    else if c != ',' then Throw(NoCommaInDict)
    else ParseEntries(s, t.next + 1, dict)
  }

  function TrimRight(s: string): (r: string)
    ensures r <= s && forall k :: |r| <= k < |s| ==> IsSpace(s[k])
    ensures r != "" ==> !IsSpace(r[|r| - 1])
  {
    if s != "" && IsSpace(s[|s| - 1]) then TrimRight(s[..|s| - 1]) else s
  }

  function FromString(content: string): Outcome<JObject> {
    Parse(TrimRight(content), 0)
  }
}

/** tinyjson::Parser: the cursor-driven recursive descent, proved to compute `JsonGrammar`. */
module JsonParser {
  import opened JsonValue
  import opened JsonGrammar

  class Parser {
    var str: string
    var idx: nat

    constructor ()
      ensures str == "" && idx == 0
    {
      str, idx := "", 0;
    }

    ghost predicate Valid() reads this { idx <= |str| }

    /** The static instance is reused, so the result must not depend on what it held before. */
    method FromString(content: string) returns (r: Outcome<JObject>)
      modifies this
      ensures r == JsonGrammar.FromString(content)
    {
      Init(content);
      r := Parse();
    }

    method Init(src: string)
      modifies this
      ensures Valid() && idx == 0 && str == JsonGrammar.TrimRight(src)
    {
      str := src;
      idx := 0;
      TrimRight();
    }

    method TrimRight()
      modifies `str
      ensures str == JsonGrammar.TrimRight(old(str))
    {
      while str != "" && IsSpace(str[|str| - 1])
        invariant JsonGrammar.TrimRight(str) == JsonGrammar.TrimRight(old(str))
        decreases |str|
      {
        str := str[..|str| - 1];
      }
    }

    method SkipSpaces()
      requires Valid()
      modifies `idx
      ensures Valid() && idx == JsonGrammar.SkipSpaces(str, old(idx))
    {
      while IsSpace(CharAt(str, idx))
        invariant Valid()
        invariant JsonGrammar.SkipSpaces(str, idx) == JsonGrammar.SkipSpaces(str, old(idx))
        decreases |str| - idx
      {
        idx := idx + 1;
      }
    }

    method SkipComment() returns (r: Outcome<()>)
      requires Valid()
      modifies `idx
      ensures r == JsonGrammar.SkipComment(str, old(idx))
      ensures Valid() && (r.Ok? ==> idx == r.next)
    {
      hide JsonGrammar.SkipSpaces;
      hide FindChar;
      while AtComment(str, idx)
        invariant Valid()
        invariant JsonGrammar.SkipComment(str, idx) == JsonGrammar.SkipComment(str, old(idx))
        decreases |str| - idx
      {
        SkipCommentRound(str, idx);
        var next := FindChar(str, '\n', idx);
        if next == |str| {
          return CursorReset(ForValue);
        }
        idx := next + 1;
        SkipSpaces();
      }
      r := Ok((), idx);
    }

    static lemma SkipCommentRound(s: string, i: nat)
      requires AtComment(s, i)
      ensures var newline := FindChar(s, '\n', i);
              JsonGrammar.SkipComment(s, i) ==
                if newline == |s| then CursorReset(ForValue)
                else JsonGrammar.SkipComment(s, JsonGrammar.SkipSpaces(s, newline + 1))
    {
    }

    method GetNextToken() returns (r: Outcome<()>, token: char)
      requires Valid()
      modifies `idx
      ensures r == NextToken(str, old(idx))
      ensures Valid() && (r.Ok? ==> idx == r.next && token == CharAt(str, idx))
    {
      SkipSpaces();
      if idx >= |str| {
        return Throw(UnexpectedCharacter), '\0';
      }
      r := SkipComment();
      token := CharAt(str, idx);
    }

    method Parse() returns (r: Outcome<JObject>)
      requires Valid()
      modifies `idx
      ensures r == JsonGrammar.Parse(str, old(idx))
      ensures Valid() && (r.Ok? ==> idx == r.next)
      decreases |str| - idx, 2
    {
      var t, token := GetNextToken();
      if !t.Ok? {
        return Rethrow(t);
      }
      if token == 'n' {
        r := JsonGrammar.ParseNull(str, idx);
        if r.Ok? { idx := r.next; }
      } else if token == 't' || token == 'f' {
        r := JsonGrammar.ParseBool(str, idx);
        if r.Ok? { idx := r.next; }
      } else if token == '-' || IsDigit(token) {
        r := ParseNumber();
      } else if token == '"' {
        r := ParseString();
      } else if token == '[' {
        r := ParseList();
      } else if token == '{' {
        r := ParseDict();
      } else {
        r := Throw(UnexpectedCharacter);
      }
    }

    method SkipDigits()
      requires Valid()
      modifies `idx
      ensures Valid() && idx == JsonGrammar.SkipDigits(str, old(idx))
    {
      while IsDigit(CharAt(str, idx))
        invariant Valid()
        invariant JsonGrammar.SkipDigits(str, idx) == JsonGrammar.SkipDigits(str, old(idx))
        decreases |str| - idx
      {
        idx := idx + 1;
      }
    }

    method ParseNumber() returns (r: Outcome<JObject>)
      requires Valid()
      modifies `idx
      ensures r == JsonGrammar.ParseNumber(str, old(idx))
      ensures Valid() && (r.Ok? ==> idx == r.next)
    {
      var begin := idx;
      if !IsDigit(CharAt(str, idx)) {
        return Throw(NotNumber);
      }
      SkipDigits();
      if CharAt(str, idx) != '.' {
        return Ok(JInt(StrToInt(str[begin..idx])), idx);
      }
      idx := idx + 1;
      if !IsDigit(CharAt(str, idx)) {
        return Throw(NoFraction);
      }
      SkipDigits();
      r := Ok(JDouble(str[begin..]), idx);
    }

    /** IsEscConsume: walk left over the backslashes and test the parity of their number. */
    method IsEscConsume(pos: nat) returns (even: bool)
      requires pos < |str| && str[pos] == '\\'
      requires exists k :: 0 <= k < pos && str[k] == '"'
      ensures even == (BackRun(str, pos + 1) % 2 == 0)
    {
      ghost var k :| 0 <= k < pos && str[k] == '"';
      var p := pos;
      while str[p] == '\\'
        invariant k <= p <= pos
        invariant BackRun(str, pos + 1) == (pos - p) + BackRun(str, p + 1)
        decreases p
      {
        p := p - 1;
      }
      even := (pos - p) % 2 == 0;
    }

    /** The quote search of ParseString: skip every quote an odd backslash run escapes. */
    method FindClosingQuote(start: nat, first: nat) returns (pos: nat)
      requires 0 < start <= first < |str| && str[start - 1] == '"'
      requires first == FindChar(str, '"', start)
      ensures pos == ClosingQuote(str, start)
    {
      hide ClosingQuote;
      hide FindChar;
      pos := first;
      ClosingQuoteRound(str, start);
      while true
        invariant start <= pos < |str| && str[pos] == '"'
        invariant ClosingQuote(str, start) == ClosingQuote(str, pos)
        decreases |str| - pos
      {
        ClosingQuoteRound(str, pos);
        if str[pos - 1] != '\\' {
          return;
        }
        var consumed := IsEscConsume(pos - 1);
        if consumed {
          return;
        }
        ClosingQuoteRound(str, pos + 1);
        pos := FindChar(str, '"', pos + 1);
        if pos == |str| {
          return;
        }
      }
    }

    static lemma ClosingQuoteRound(s: string, p: nat)
      requires p <= |s|
      ensures p < |s| && s[p] == '"' ==> FindChar(s, '"', p) == p
      ensures var q := FindChar(s, '"', p);
              ClosingQuote(s, p) == ClosingQuote(s, q)
              == if q == |s| || BackRun(s, q) % 2 == 0 then q else ClosingQuote(s, q + 1)
    {
      var q := FindChar(s, '"', p);
      assert FindChar(s, '"', q) == q;
    }

    method ParseString() returns (r: Outcome<JObject>)
      requires Valid() && idx < |str| && str[idx] == '"'
      modifies `idx
      ensures r == JsonGrammar.ParseString(str, old(idx))
      ensures Valid() && (r.Ok? ==> idx == r.next)
    {
      idx := idx + 1;
      var start := idx;
      var pos := FindChar(str, '"', idx);
      if pos == |str| {
        return Throw(NoString);
      }
      pos := FindClosingQuote(start, pos);
      if pos == |str| {
        return Throw(NoClosingQuote);
      }
      idx := pos + 1;
      r := Ok(JStr(str[start..pos]), idx);
    }

    method ParseList() returns (r: Outcome<JObject>)
      requires Valid() && idx < |str|
      modifies `idx
      ensures r == JsonGrammar.ParseList(str, old(idx))
      ensures Valid() && (r.Ok? ==> idx == r.next)
      decreases |str| - idx, 1
    {
      hide JsonGrammar.Parse;
      hide NextToken;
      var arr: seq<JObject> := [];
      idx := idx + 1;
      var t, ch := GetNextToken();
      if !t.Ok? {
        return Rethrow(t);
      }
      if ch == ']' {
        idx := idx + 1;
        return Ok(JList(arr), idx);
      }
      while true
        invariant Valid() && old(idx) < idx
        invariant JsonGrammar.ParseList(str, old(idx)) == ParseItems(str, idx, arr)
        decreases |str| - idx
      {
        var v := Parse();
        if !v.Ok? {
          return v;
        }
        arr := arr + [v.value];
        t, ch := GetNextToken();
        if !t.Ok? {
          return Rethrow(ExpectMark(t));
        }
        if ch == ']' {
          idx := idx + 1;
          return Ok(JList(arr), idx);
        }
        if ch != ',' {
          return Throw(NoCommaInList);
        }
        idx := idx + 1;
      }
    }

    /** The first half of one ParseDict round: key, colon, value. */
    method ParseEntry() returns (r: Outcome<Entry>)
      requires Valid()
      modifies `idx
      ensures r == JsonGrammar.ParseEntry(str, old(idx))
      ensures Valid() && (r.Ok? ==> idx == r.next)
      decreases |str| - idx, 3
    {
      hide JsonGrammar.Parse;
      hide NextToken;
      var k := Parse();
      if !k.Ok? {
        return Rethrow(k);
      }
      if !k.value.JStr? {
        return Throw(KeyNotString);
      }
      var t, ch := GetNextToken();
      if !t.Ok? {
        return Rethrow(ExpectMark(t));
      }
      if ch != ':' {
        return Throw(NoColonInDict);
      }
      idx := idx + 1;
      var v := Parse();
      if !v.Ok? {
        return Rethrow(v);
      }
      r := Ok(Entry(k.value.s, v.value), idx);
    }

    method ParseDict() returns (r: Outcome<JObject>)
      requires Valid() && idx < |str|
      modifies `idx
      ensures r == JsonGrammar.ParseDict(str, old(idx))
      ensures Valid() && (r.Ok? ==> idx == r.next)
      decreases |str| - idx, 1
    {
      hide JsonGrammar.Parse;
      hide JsonGrammar.ParseEntry;
      hide NextToken;
      hide Insert;
      var dict: seq<Entry> := [];
      idx := idx + 1;
      var t, ch := GetNextToken();
      if !t.Ok? {
        return Rethrow(t);
      }
      if ch == '}' {
        idx := idx + 1;
        return Ok(JDict(dict), idx);
      }
      while true
        invariant Valid() && old(idx) < idx
        invariant JsonGrammar.ParseDict(str, old(idx)) == ParseEntries(str, idx, dict)
        decreases |str| - idx
      {
        var e := ParseEntry();
        if !e.Ok? {
          return Rethrow(e);
        }
        dict := Insert(dict, e.value.key, e.value.value);
        t, ch := GetNextToken();
        if !t.Ok? {
          return Rethrow(ExpectMark(t));
        }
        if ch == '}' {
          idx := idx + 1;
          return Ok(JDict(dict), idx);
        }
        if ch != ',' {
          return Throw(NoCommaInDict);
        }
        idx := idx + 1;
      }
    }
  }
}
