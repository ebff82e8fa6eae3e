/** What the parser does after a cursor reset: it goes on from position 0.

    These are the functions of `JsonGrammar` with the reset followed instead of reported. Such a run
    need not end, so each call takes some fuel; here `CursorReset` means that the run is not over yet.
  */
module JsonRestart {
  import opened JsonValue
  import opened JsonGrammar

  /** GetNextToken: a comment without newline puts the cursor at `npos + 1`, which is 0. */
  function Token(s: string, i: nat, fuel: nat): (r: Outcome<()>)
    requires i <= |s|
    ensures r.Ok? ==> r.next <= |s|
  {
    var t := NextToken(s, i);
    if t.CursorReset? && fuel > 0 then Token(s, 0, fuel - 1) else t
  }

  function Value(s: string, i: nat, fuel: nat): (r: Outcome<JObject>)
    requires i <= |s|
    ensures r.Ok? ==> r.next <= |s|
    decreases fuel
  {
    if fuel == 0 then CursorReset(ForValue) else
    var t := Token(s, i, fuel - 1);
    if !t.Ok? then Rethrow(t)
    else if CharAt(s, t.next) == '[' then List(s, t.next, fuel - 1)
    else if CharAt(s, t.next) == '{' then Dict(s, t.next, fuel - 1)
    else ParseScalar(s, t.next)
  }

  function List(s: string, i: nat, fuel: nat): (r: Outcome<JObject>)
    requires i < |s|
    ensures r.Ok? ==> r.next <= |s|
    decreases fuel
  {
    if fuel == 0 then CursorReset(ForValue) else
    var t := Token(s, i + 1, fuel - 1);
    if !t.Ok? then Rethrow(t)
    else if CharAt(s, t.next) == ']' then Ok(JList([]), t.next + 1)
    else Items(s, t.next, [], fuel - 1)
  }

  function Items(s: string, i: nat, acc: seq<JObject>, fuel: nat): (r: Outcome<JObject>)
    requires i <= |s|
    ensures r.Ok? ==> r.next <= |s|
    decreases fuel
  {
    if fuel == 0 then CursorReset(ForValue) else
    var v := Value(s, i, fuel - 1);
    if !v.Ok? then v else
    var t := Token(s, v.next, fuel - 1);
    if !t.Ok? then Rethrow(t) else
    var c := CharAt(s, t.next);
    if c == ']' then Ok(JList(acc + [v.value]), t.next + 1)
    else if c != ',' then Throw(NoCommaInList)
    else Items(s, t.next + 1, acc + [v.value], fuel - 1)
  }

  function Dict(s: string, i: nat, fuel: nat): (r: Outcome<JObject>)
    requires i < |s|
    ensures r.Ok? ==> r.next <= |s|
    decreases fuel
  {
    if fuel == 0 then CursorReset(ForValue) else
    var t := Token(s, i + 1, fuel - 1);
    if !t.Ok? then Rethrow(t)
    else if CharAt(s, t.next) == '}' then Ok(JDict([]), t.next + 1)
    else Entries(s, t.next, [], fuel - 1)
  }

  function KeyAndValue(s: string, i: nat, fuel: nat): (r: Outcome<Entry>)
    requires i <= |s|
    ensures r.Ok? ==> r.next <= |s|
    decreases fuel
  {
    if fuel == 0 then CursorReset(ForValue) else
    var k := Value(s, i, fuel - 1);
    if !k.Ok? then Rethrow(k)
    else if !k.value.JStr? then Throw(KeyNotString) else
    var t := Token(s, k.next, fuel - 1);
    if !t.Ok? then Rethrow(t)
    else if CharAt(s, t.next) != ':' then Throw(NoColonInDict) else
    var v := Value(s, t.next + 1, fuel - 1);
    if !v.Ok? then Rethrow(v) else Ok(Entry(k.value.s, v.value), v.next)
  }

  function Entries(s: string, i: nat, acc: seq<Entry>, fuel: nat): (r: Outcome<JObject>)
    requires i <= |s|
    ensures r.Ok? ==> r.next <= |s|
    decreases fuel
  {
    if fuel == 0 then CursorReset(ForValue) else
    var e := KeyAndValue(s, i, fuel - 1);
    if !e.Ok? then Rethrow(e) else
    var t := Token(s, e.next, fuel - 1);
    if !t.Ok? then Rethrow(t) else
    var c := CharAt(s, t.next);
    var dict := Insert(acc, e.value.key, e.value.value);
    if c == '}' then Ok(JDict(dict), t.next + 1)
    else if c != ',' then Throw(NoCommaInDict)
    else Entries(s, t.next + 1, dict, fuel - 1)
  }

  /** FromString as the code runs, for as long as the fuel lasts. */
  function RunFromString(content: string, fuel: nat): Outcome<JObject> {
    Value(TrimRight(content), 0, fuel)
  }

  // ---------- The grammar is what the code computes ----------

  // How much fuel is enough for a call that stands at i, if no reset occurs,
  function Enough(s: string, i: nat, rank: nat): int { 5 * (|s| - i) + rank }

  // and how much more if one does and the code throws.
  function Extra(s: string, x: Expected): nat { if x.ForValue? then 5 * |s| + 10 else 2 }

  /** The text begins with a bracket or brace, and parsing it resets the cursor. */
  ghost predicate Doomed(s: string, x: Expected) { NextToken(s, 0).Ok? && Parse(s, 0) == CursorReset(x) }

  /** How the run agrees with the grammar's outcome o, in a text doomed with x. After a reset the code
      stands at the bracket the text begins with. Where a value is expected it enters it again, and
      meets the same end again; where a mark is expected it throws. */
  ghost predicate Agrees<T>(s: string, run: Outcome<T>, o: Outcome<T>, x: Expected, fuel: nat, need: int) {
    if !o.CursorReset? then run == o || (run.CursorReset? && fuel <= need)
    else Doomed(s, x) ==>
      if o.expected.ForValue? && x.ForValue? then run.CursorReset?
      else !run.Ok? && (fuel > need + Extra(s, o.expected) ==> run.Throw?)
  }

  // The bracket or brace a doomed text begins with.
  ghost predicate AtStart(s: string, p: nat, x: Expected) {
    && p < |s| && (s[p] == '[' || s[p] == '{') && NextToken(s, p) == Ok((), p)
    && (if s[p] == '[' then ParseList(s, p) else ParseDict(s, p)) == CursorReset(x)
  }

  lemma FirstTokenOfDoomed(s: string, x: Expected)
    requires Doomed(s, x)
    ensures AtStart(s, NextToken(s, 0).next, x)
  {
    hide ParseList;
    hide ParseDict;
    hide ParseScalar;
  }

  // In a doomed text a reset brings the cursor back to where it started.
  lemma TokenAgrees(s: string, i: nat, fuel: nat, x: Expected)
    requires i <= |s|
    ensures !NextToken(s, i).CursorReset? ==> Token(s, i, fuel) == NextToken(s, i)
    ensures Doomed(s, x) && NextToken(s, i).CursorReset? ==>
      var t := Token(s, i, fuel);
      if fuel == 0 then t.CursorReset?
      else t.Ok? && AtStart(s, t.next, x) && (CharAt(s, t.next) == '[' || CharAt(s, t.next) == '{')
  {
    if Doomed(s, x) { FirstTokenOfDoomed(s, x); }
    hide Doomed;
    hide AtStart;
    hide NextToken;
  }

  lemma StartIsDoomed(s: string, p: nat, x: Expected)
    requires AtStart(s, p, x)
    ensures Parse(s, p) == CursorReset(x)
    ensures ParseItems(s, p, []) == CursorReset(x) && ParseEntries(s, p, []) == CursorReset(x)
  {
    assert Parse(s, p) == CursorReset(x) by {
      hide ParseList;
      hide ParseDict;
    }
    hide Parse;
  }

  lemma {:induction false} ValueAgrees(s: string, i: nat, fuel: nat, x: Expected)
    requires i <= |s|
    ensures Agrees(s, Value(s, i, fuel), Parse(s, i), x, fuel, Enough(s, i, 2))
    decreases fuel
  {
    hide Doomed;
    hide ParseScalar;
    hide ParseList;
    hide ParseDict;
    hide List;
    hide Dict;
    if fuel > 0 {
      TokenAgrees(s, i, fuel - 1, x);
      var t := Token(s, i, fuel - 1);
      if t.Ok? && CharAt(s, t.next) == '[' { ListAgrees(s, t.next, fuel - 1, x); }
      if t.Ok? && CharAt(s, t.next) == '{' { DictAgrees(s, t.next, fuel - 1, x); }
    }
  }

  lemma {:induction false} ListAgrees(s: string, i: nat, fuel: nat, x: Expected)
    requires i < |s|
    ensures Agrees(s, List(s, i, fuel), ParseList(s, i), x, fuel, Enough(s, i, 1))
    decreases fuel
  {
    hide Doomed;
    hide NextToken;
    hide Token;
    hide AtStart;
    hide ParseItems;
    hide Items;
    if fuel > 0 {
      TokenAgrees(s, i + 1, fuel - 1, x);
      var t := Token(s, i + 1, fuel - 1);
      if t.Ok? {
        ItemsAgree(s, t.next, [], fuel - 1, x);
        if AtStart(s, t.next, x) { StartIsDoomed(s, t.next, x); }
      }
    }
  }

  lemma {:induction false} ItemsAgree(s: string, i: nat, acc: seq<JObject>, fuel: nat, x: Expected)
    requires i <= |s|
    ensures Agrees(s, Items(s, i, acc, fuel), ParseItems(s, i, acc), x, fuel, Enough(s, i, 3))
    decreases fuel
  {
    hide Doomed;
    hide NextToken;
    hide Token;
    hide AtStart;
    hide Parse;
    hide Value;
    if fuel > 0 {
      ValueAgrees(s, i, fuel - 1, x);
      var v := Value(s, i, fuel - 1);
      if v.Ok? && v == Parse(s, i) {
        TokenAgrees(s, v.next, fuel - 1, x);
        var t := Token(s, v.next, fuel - 1);
        if t.Ok? && CharAt(s, t.next) == ',' { ItemsAgree(s, t.next + 1, acc + [v.value], fuel - 1, x); }
      }
    }
  }

  lemma {:induction false} DictAgrees(s: string, i: nat, fuel: nat, x: Expected)
    requires i < |s|
    ensures Agrees(s, Dict(s, i, fuel), ParseDict(s, i), x, fuel, Enough(s, i, 1))
    decreases fuel
  {
    hide Doomed;
    hide NextToken;
    hide Token;
    hide AtStart;
    hide ParseEntries;
    hide Entries;
    if fuel > 0 {
      TokenAgrees(s, i + 1, fuel - 1, x);
      var t := Token(s, i + 1, fuel - 1);
      if t.Ok? {
        EntriesAgree(s, t.next, [], fuel - 1, x);
        if AtStart(s, t.next, x) { StartIsDoomed(s, t.next, x); }
      }
    }
  }

  lemma {:induction false} EntryAgrees(s: string, i: nat, fuel: nat, x: Expected)
    requires i <= |s|
    ensures Agrees(s, KeyAndValue(s, i, fuel), ParseEntry(s, i), x, fuel, Enough(s, i, 3))
    decreases fuel
  {
    hide Doomed;
    hide NextToken;
    hide Token;
    hide AtStart;
    hide Parse;
    hide Value;
    if fuel > 0 {
      ValueAgrees(s, i, fuel - 1, x);
      var k := Value(s, i, fuel - 1);
      if k.Ok? && k == Parse(s, i) {
        TokenAgrees(s, k.next, fuel - 1, x);
        var t := Token(s, k.next, fuel - 1);
        if t.Ok? && CharAt(s, t.next) == ':' { ValueAgrees(s, t.next + 1, fuel - 1, x); }
      }
    }
  }

  lemma {:induction false} EntriesAgree(s: string, i: nat, acc: seq<Entry>, fuel: nat, x: Expected)
    requires i <= |s|
    ensures Agrees(s, Entries(s, i, acc, fuel), ParseEntries(s, i, acc), x, fuel, Enough(s, i, 4))
    decreases fuel
  {
    hide Doomed;
    hide NextToken;
    hide Token;
    hide AtStart;
    hide Insert;
    hide ParseEntry;
    hide KeyAndValue;
    if fuel > 0 {
      EntryAgrees(s, i, fuel - 1, x);
      var e := KeyAndValue(s, i, fuel - 1);
      if e.Ok? && e == ParseEntry(s, i) {
        TokenAgrees(s, e.next, fuel - 1, x);
        var t := Token(s, e.next, fuel - 1);
        if t.Ok? && CharAt(s, t.next) == ',' {
          EntriesAgree(s, t.next + 1, Insert(acc, e.value.key, e.value.value), fuel - 1, x);
        }
      }
    }
  }

  // A text that begins with a comment without newline is skipped over and over.
  lemma {:induction false} FirstTokenLoops(s: string, fuel: nat)
    requires NextToken(s, 0).CursorReset?
    ensures Token(s, 0, fuel).CursorReset?
  {
    hide NextToken;
    if fuel > 0 { FirstTokenLoops(s, fuel - 1); }
  }

  // More than enough fuel for a run that ends.
  function Ample(content: string): nat { 10 * |content| + 20 }

  /** On every text the code ends with the grammar's outcome, within a number of calls bounded by the
      size of the text. Where the grammar reports a reset at a value the code never ends; where it
      reports one at a mark, the code throws. */
  lemma GrammarIsTheCode(content: string, fuel: nat)
    ensures match FromString(content)
      case CursorReset(ForValue) => RunFromString(content, fuel).CursorReset?
      case CursorReset(ForMark) => fuel > Ample(content) ==> RunFromString(content, fuel).Throw?
      case o => fuel > Ample(content) ==> RunFromString(content, fuel) == o
  {
    hide Token;
    hide NextToken;
    hide ParseList;
    hide ParseDict;
    hide List;
    hide Dict;
    var s := TrimRight(content);
    assert |s| <= |content|;
    if NextToken(s, 0).CursorReset? {
      if fuel > 0 { FirstTokenLoops(s, fuel - 1); }
    } else {
      var o := Parse(s, 0);
      ValueAgrees(s, 0, fuel, if o.CursorReset? then o.expected else ForValue);
    }
  }

  /** The parser comes to an end, with a value or a thrown error, if and only if no comment without
      newline stands where it looks for a value. */
  lemma EndsExactly(content: string)
    ensures (exists fuel :: !RunFromString(content, fuel).CursorReset?)
            <==> FromString(content) != CursorReset(ForValue)
  {
    hide RunFromString;
    hide FromString;
    if FromString(content) != CursorReset(ForValue) {
      GrammarIsTheCode(content, Ample(content) + 1);
      assert !RunFromString(content, Ample(content) + 1).CursorReset?;
    } else {
      forall fuel: nat ensures RunFromString(content, fuel).CursorReset? { GrammarIsTheCode(content, fuel); }
    }
  }

  /** A text that is one comment is never finished with. */
  lemma LoneCommentLoops(fuel: nat)
    ensures FromString("//x") == CursorReset(ForValue) && RunFromString("//x", fuel).CursorReset?
  {
    var s := "//x";
    assert TrimRight(s) == s;
    assert FindChar(s, '\n', 3) == 3 && FindChar(s, '\n', 2) == 3 && FindChar(s, '\n', 1) == 3;
    assert NextToken(s, 0) == CursorReset(ForValue);
    GrammarIsTheCode(s, fuel);
  }
}
