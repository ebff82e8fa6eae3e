/** Join, Split and Replace of luce/common/string_util.cpp. */
module StringUtil {
  import opened Slices

  // ---------- Searching ----------

  const NPOS: int := -1

  /** std::string::find(pat, from). */
  function Find(s: string, pat: string, from: nat): (p: int)
    ensures p == NPOS || (from <= p && p + |pat| <= |s| && At(s, p, pat))
    ensures forall k :: from <= k && (p == NPOS || k < p) ==> !At(s, k, pat)
    decreases |s| - from
  {
    if from + |pat| > |s| then NPOS
    else if At(s, from, pat) then from
    else Find(s, pat, from + 1)
  }

  lemma OccursBehind(a: string, b: string, pat: string, k: nat)
    ensures At(a + b, |a| + k, pat) <==> At(b, k, pat)
  {
    if k + |pat| <= |b| { assert (a + b)[|a| + k..|a| + k + |pat|] == b[k..k + |pat|]; }
  }

  lemma OccursInFront(a: string, b: string, pat: string, k: nat)
    requires k + |pat| <= |a|
    ensures At(a + b, k, pat) <==> At(a, k, pat)
  {
    assert (a + b)[k..k + |pat|] == a[k..k + |pat|];
  }

  /** Find is determined by what it finds. */
  lemma FindIsFirst(s: string, pat: string, from: nat, p: nat)
    requires from <= p && At(s, p, pat) && forall k :: from <= k < p ==> !At(s, k, pat)
    ensures Find(s, pat, from) == p
  {
    hide At;
  }

  /** Searching behind a prefix is searching the rest. */
  lemma {:induction false} FindInSuffix(a: string, b: string, pat: string, k: nat := 0)
    ensures var p := Find(b, pat, k);
      Find(a + b, pat, |a| + k) == if p == NPOS then NPOS else |a| + p
    decreases |b| - k
  {
    hide At;
    OccursBehind(a, b, pat, k);
    if k + |pat| <= |b| && !At(b, k, pat) { FindInSuffix(a, b, pat, k + 1); }
  }

  // ---------- Specification ----------

  /** The pieces between successive leftmost occurrences of d. */
  function Pieces(s: string, d: string): (r: seq<string>)
    requires d != ""
    ensures r != []
    decreases |s|
  {
    var p := Find(s, d, 0);
    if p == NPOS then [s] else [s[..p]] + Pieces(s[p + |d|..], d)
  }

  function Concat(parts: seq<string>, delim: string): string {
    if parts == [] then ""
    else if |parts| == 1 then parts[0]
    else parts[0] + delim + Concat(parts[1..], delim)
  }

  function NonEmpty(parts: seq<string>): seq<string> {
    if parts == [] then []
    else (if parts[0] == "" then [] else [parts[0]]) + NonEmpty(parts[1..])
  }

  /** The pieces glued with `to` at the first `count` joints and with `from` at the others. */
  function Glue(parts: seq<string>, to: string, from: string, count: nat): string {
    if parts == [] then ""
    else if |parts| == 1 then parts[0]
    else parts[0] + (if count > 0 then to else from) + Glue(parts[1..], to, from, if count > 0 then count - 1 else 0)
  }

  // ---------- The code ----------

  /** JoinImpl: measure, then append with the delimiter before every part but the first. */
  method Join(parts: seq<string>, delim: string) returns (result: string)
    ensures result == Concat(parts, delim)
  {
    var size, k := 0, 0;
    while k < |parts|
      invariant 0 <= k <= |parts| && size >= 0
      invariant size == 0 ==> k == 0 || (delim == "" && forall i :: 0 <= i < k ==> parts[i] == "")
    {
      size := size + |parts[k]| + |delim|;
      k := k + 1;
    }
    result := "";
    if size == 0 {
      ConcatOfNothing(parts, delim);
      return;
    }
    var i := 0;
    assert parts[0..] == parts;
    while i < |parts|
      invariant 0 <= i <= |parts|
      invariant result + (if 0 < i < |parts| then delim else "") + Concat(parts[i..], delim) == Concat(parts, delim)
    {
      ghost var before := result + (if i > 0 then delim else "");
      ConcatStep(before, parts, i, delim);
      if i != 0 {
        result := result + delim;
      }
      result := result + parts[i];
      i := i + 1;
    }
  }

  lemma {:induction false} ConcatOfNothing(parts: seq<string>, delim: string)
    requires parts == [] || (delim == "" && forall i :: 0 <= i < |parts| ==> parts[i] == "")
    ensures Concat(parts, delim) == ""
  {
    if |parts| > 1 { ConcatOfNothing(parts[1..], delim); }
  }

  lemma ConcatStep(before: string, parts: seq<string>, i: nat, delim: string)
    requires i < |parts|
    ensures before + Concat(parts[i..], delim)
         == before + parts[i] + (if i + 1 < |parts| then delim else "") + Concat(parts[i + 1..], delim)
  {
    assert parts[i..][1..] == parts[i + 1..];
  }

  // The result of Split.
  function SplitParts(s: string, d: string, keepEmpty: bool): seq<string>
    requires d != "" || s == ""
  {
    if s == "" then [] else Kept(Pieces(s, d), keepEmpty)
  }

  /** Split; with an empty delimiter the C++ loop never advances in a text that is not empty. */
  method Split(str: string, delim: string, keepEmpty: bool) returns (result: seq<string>)
    requires delim != "" || str == ""
    ensures result == SplitParts(str, delim, keepEmpty)
  {
    hide Find;
    hide Kept;
    hide At;
    result := [];
    if str == "" { return; }
    var current := str;
    while true
      invariant current != ""
      invariant result + Kept(Pieces(current, delim), keepEmpty) == Kept(Pieces(str, delim), keepEmpty)
      decreases |current|
    {
      var pos := Find(current, delim, 0);
      ghost var before := result;
      if pos != 0 || keepEmpty {
        result := result + [if pos == NPOS then current else current[..pos]];
      }
      if pos == NPOS {
        KeptLast(before, current, keepEmpty);
        return;
      }
      KeptStep(before, current[..pos], Pieces(current[pos + |delim|..], delim), keepEmpty);
      current := current[pos + |delim|..];
      if current == "" {
        EmptyHasOnePiece(delim);
        KeptLast(result, "", keepEmpty);
        if keepEmpty {
          result := result + [""];
        }
        return;
      }
    }
  }

  function Kept(parts: seq<string>, keepEmpty: bool): seq<string> {
    if keepEmpty then parts else NonEmpty(parts)
  }

  lemma EmptyHasOnePiece(d: string)
    requires d != ""
    ensures Pieces("", d) == [""]
  {
  }

  lemma KeptLast(before: seq<string>, piece: string, keepEmpty: bool)
    ensures before + Kept([piece], keepEmpty) == if piece != "" || keepEmpty then before + [piece] else before
  {
    assert [piece][1..] == [];
    assert NonEmpty([piece]) == if piece == "" then [] else [piece];
    assert before + [] == before;
  }

  lemma KeptStep(before: seq<string>, piece: string, rest: seq<string>, keepEmpty: bool)
    ensures before + Kept([piece] + rest, keepEmpty)
         == (if piece != "" || keepEmpty then before + [piece] else before) + Kept(rest, keepEmpty)
  {
    assert ([piece] + rest)[1..] == rest;
    var head := if piece == "" then [] else [piece];
    if !keepEmpty { assert NonEmpty([piece] + rest) == head + NonEmpty(rest); }
  }

  // ---------- When Split ends ----------

  datatype Splitting = Going(current: string, result: seq<string>) | Ended(result: seq<string>)

  /** One round of Split's loop. */
  function Round(s: Splitting, delim: string, keepEmpty: bool): Splitting {
    if s.Ended? then s else
    var pos := Find(s.current, delim, 0);
    if pos == NPOS then Ended(s.result + [s.current]) else
    var result := if pos != 0 || keepEmpty then s.result + [s.current[..pos]] else s.result;
    var rest := s.current[pos + |delim|..];
    if rest != "" then Going(rest, result) else Ended(if keepEmpty then result + [""] else result)
  }

  function Rounds(s: Splitting, delim: string, keepEmpty: bool, n: nat): Splitting
    decreases n
  {
    if n == 0 then s else Rounds(Round(s, delim, keepEmpty), delim, keepEmpty, n - 1)
  }

  lemma {:induction false} EndedStays(s: Splitting, delim: string, keepEmpty: bool, n: nat)
    requires s.Ended?
    ensures Rounds(s, delim, keepEmpty, n) == s
  {
    if n > 0 { EndedStays(s, delim, keepEmpty, n - 1); }
  }

  /** With a delimiter every round but the last shortens the text; the rounds end in Split's result. */
  lemma {:induction false} RoundsSplit(s: Splitting, delim: string, keepEmpty: bool, n: nat)
    requires delim != "" && s.Going? && s.current != "" && n >= |s.current|
    ensures Rounds(s, delim, keepEmpty, n) == Ended(s.result + Kept(Pieces(s.current, delim), keepEmpty))
    decreases n
  {
    hide Find;
    hide Kept;
    hide At;
    var pos, r := Find(s.current, delim, 0), Round(s, delim, keepEmpty);
    if pos == NPOS {
      KeptLast(s.result, s.current, keepEmpty);
    } else {
      var rest := s.current[pos + |delim|..];
      KeptStep(s.result, s.current[..pos], Pieces(rest, delim), keepEmpty);
      if rest == "" {
        EmptyHasOnePiece(delim);
        KeptLast(if pos != 0 || keepEmpty then s.result + [s.current[..pos]] else s.result, "", keepEmpty);
      }
    }
    if r.Ended? { EndedStays(r, delim, keepEmpty, n - 1); } else { RoundsSplit(r, delim, keepEmpty, n - 1); }
  }

  /** Without one the text is found again as it was. */
  lemma {:induction false} RoundsGoOn(s: Splitting, keepEmpty: bool, n: nat)
    requires s.Going? && s.current != ""
    ensures Rounds(s, "", keepEmpty, n).Going?
    decreases n
  {
    FindNothing(s.current);
    hide Find;
    if n > 0 { RoundsGoOn(Round(s, "", keepEmpty), keepEmpty, n - 1); }
  }

  /** On a text that is not empty, Split's loop ends if and only if the delimiter is not empty. */
  lemma SplitEndsExactly(s: string, delim: string, keepEmpty: bool)
    requires s != ""
    ensures (exists n :: Rounds(Going(s, []), delim, keepEmpty, n).Ended?) <==> delim != ""
    ensures delim != "" ==> Rounds(Going(s, []), delim, keepEmpty, |s|) == Ended(SplitParts(s, delim, keepEmpty))
  {
    hide Rounds;
    if delim != "" {
      RoundsSplit(Going(s, []), delim, keepEmpty, |s|);
      assert [] + Kept(Pieces(s, delim), keepEmpty) == Kept(Pieces(s, delim), keepEmpty);
      assert Rounds(Going(s, []), delim, keepEmpty, |s|).Ended?;
    } else {
      forall n: nat ensures Rounds(Going(s, []), delim, keepEmpty, n).Going? {
        RoundsGoOn(Going(s, []), keepEmpty, n);
      }
    }
  }

  // ---------- Replacing ----------

  function Repeat(w: string, n: nat): string { if n == 0 then "" else Repeat(w, n - 1) + w }

  /** Replace in place. The count bounds the loop, so `from` may be empty: it is found again behind
      each replacement, and all of them go in front of the text. */
  method Replace(s: string, from: string, to: string, count: nat) returns (target: string)
    ensures from != "" ==> target == Glue(Pieces(s, from), to, from, count)
    ensures from == "" ==> target == Repeat(to, count) + s
  {
    hide Find;
    hide Glue;
    hide Pieces;
    target := s;
    var p := Find(target, from, 0);
    var left: nat := count;
    ghost var done, rest := "", s;
    assert "" + s == s;
    while p != NPOS && left != 0
      invariant p == NPOS || (p >= 0 && At(target, p, from))
      invariant target == done + rest && p == Find(target, from, |done|)
      invariant from != "" ==>
        done + Glue(Pieces(rest, from), to, from, left) == Glue(Pieces(s, from), to, from, count)
      invariant from == "" ==> left <= count && done == Repeat(to, count - left) && rest == s
      decreases left
    {
      left := left - 1;
      FindInSuffix(done, rest, from);
      if from != "" { ReplaceStep(done, rest, from, to, left + 1); } else { FindNothing(rest); }
      ghost var q := p - |done|;
      assert target[..p] == done + rest[..q] && target[p + |from|..] == rest[q + |from|..];
      done, rest := done + rest[..q] + to, rest[q + |from|..];
      target := target[..p] + to + target[p + |from|..];
      p := Find(target, from, p + |to|);
    }
    FindInSuffix(done, rest, from);
    if from != "" { NothingMore(rest, from, to, left); } else { FindNothing(rest); }
  }

  // The empty text is found wherever the search begins.
  lemma FindNothing(s: string)
    ensures Find(s, "", 0) == 0
  {
    assert s[0..0] == "";
  }

  lemma ReplaceStep(done: string, rest: string, from: string, to: string, left: nat)
    requires from != "" && left > 0 && Find(rest, from, 0) != NPOS
    ensures var q := Find(rest, from, 0);
      done + Glue(Pieces(rest, from), to, from, left)
      == (done + rest[..q] + to) + Glue(Pieces(rest[q + |from|..], from), to, from, left - 1)
  {
    var q := Find(rest, from, 0);
    var parts := Pieces(rest, from);
    assert parts[1..] == Pieces(rest[q + |from|..], from);
  }

  lemma NothingMore(rest: string, from: string, to: string, left: nat)
    requires from != "" && (left == 0 || Find(rest, from, 0) == NPOS)
    ensures Glue(Pieces(rest, from), to, from, left) == rest
  {
    if left == 0 {
      GlueZero(Pieces(rest, from), to, from);
      ConcatPieces(rest, from);
    }
  }

  // ---------- The algebra ----------

  lemma {:induction false} GlueZero(parts: seq<string>, to: string, from: string)
    ensures Glue(parts, to, from, 0) == Concat(parts, from)
  {
    if |parts| > 1 { GlueZero(parts[1..], to, from); }
  }

  lemma {:induction false} GlueAll(parts: seq<string>, to: string, from: string, count: nat)
    requires |parts| <= count + 1
    ensures Glue(parts, to, from, count) == Concat(parts, to)
  {
    if |parts| > 1 { GlueAll(parts[1..], to, from, count - 1); }
  }

  /** In general the first `count` joints get the replacement and the others keep the original. */
  lemma {:induction false} GlueSome(parts: seq<string>, to: string, from: string, count: nat)
    requires count + 1 < |parts|
    ensures Glue(parts, to, from, count) == Concat(parts[..count + 1], to) + from + Concat(parts[count + 1..], from)
    decreases count
  {
    var rest := parts[1..];
    if count == 0 {
      GlueZero(rest, to, from);
      assert parts[..1] == [parts[0]];
    } else {
      GlueSome(rest, to, from, count - 1);
      assert parts[..count + 1][1..] == rest[..count] && parts[count + 1..] == rest[count..];
    }
  }

  /** Leaving out the empty pieces keeps all others, in order. */
  lemma {:induction false} NonEmptyFilters(a: seq<string>, b: seq<string>)
    ensures NonEmpty(a + b) == NonEmpty(a) + NonEmpty(b)
  {
    if a == [] {
      assert a + b == b;
    } else {
      NonEmptyStep(a, []);
      NonEmptyStep(a, b);
      assert a + [] == a && a[1..] + [] == a[1..];
      hide NonEmpty;
      NonEmptyFilters(a[1..], b);
      Regroup(if a[0] == "" then [] else [a[0]], NonEmpty(a[1..]), NonEmpty(b));
    }
  }

  lemma NonEmptyStep(a: seq<string>, b: seq<string>)
    requires a != []
    ensures NonEmpty(a + b) == (if a[0] == "" then [] else [a[0]]) + NonEmpty(a[1..] + b)
  {
    assert (a + b)[1..] == a[1..] + b && (a + b)[0] == a[0];
  }

  lemma Regroup(a: seq<string>, b: seq<string>, c: seq<string>)
    ensures a + b + c == a + (b + c)
  {
  }

  lemma NonEmptyOne(piece: string)
    ensures NonEmpty([piece]) == if piece == "" then [] else [piece]
  {
    assert [piece][1..] == [];
  }

  /** An empty text has no pieces at all. */
  lemma SplitOfNothing(d: string, keepEmpty: bool)
    ensures SplitParts("", d, keepEmpty) == []
  {
  }

  /** Join(Split(s, d, true), d) == s. */
  lemma {:induction false} ConcatPieces(s: string, d: string)
    requires d != ""
    ensures Concat(Pieces(s, d), d) == s
    decreases |s|
  {
    var p := Find(s, d, 0);
    if p != NPOS {
      var rest := s[p + |d|..];
      ConcatPieces(rest, d);
      assert Pieces(s, d)[1..] == Pieces(rest, d);
      assert s == s[..p] + d + rest;
    }
  }

  /** Pieces are exactly the greedy leftmost decomposition: each but the last ends where d first
      occurs in it followed by d, and the last contains no d. */
  ghost predicate Leftmost(parts: seq<string>, d: string) {
    && parts != []
    && (forall i :: 0 <= i < |parts| - 1 ==> Find(parts[i] + d, d, 0) == |parts[i]|)
    && Find(parts[|parts| - 1], d, 0) == NPOS
  }

  lemma {:induction false} PiecesAreLeftmost(s: string, d: string)
    requires d != ""
    ensures Leftmost(Pieces(s, d), d)
    decreases |s|
  {
    hide Find;
    hide At;
    var p := Find(s, d, 0);
    if p != NPOS {
      PiecesAreLeftmost(s[p + |d|..], d);
      FirstStays(s, d);
    }
  }

  lemma FirstStays(s: string, d: string)
    requires d != "" && Find(s, d, 0) != NPOS
    ensures Find(s[..Find(s, d, 0)] + d, d, 0) == Find(s, d, 0)
  {
    var p := Find(s, d, 0);
    var t := s[..p] + d;
    assert t == s[..p + |d|] && s == t + s[p + |d|..];
    hide At;
    hide Find;
    OccursInFront(t, s[p + |d|..], d, p);
    forall k | 0 <= k < p ensures !At(t, k, d) { OccursInFront(t, s[p + |d|..], d, k); }
    FindIsFirst(t, d, 0, p);
  }

  /** Splitting is the only decomposition of its kind: it undoes joining leftmost pieces. */
  lemma {:induction false} SplitUndoesJoin(parts: seq<string>, d: string)
    requires d != "" && Leftmost(parts, d)
    ensures Pieces(Concat(parts, d), d) == parts
    decreases |parts|
  {
    hide Find;
    if |parts| > 1 {
      var rest, tail := parts[1..], Concat(parts[1..], d);
      SplitUndoesJoin(rest, d);
      PiecesOfJoined(parts[0], tail, d);
      assert parts == [parts[0]] + rest;
    } else {
      assert parts == [parts[0]];
    }
  }

  lemma PiecesOfJoined(first: string, tail: string, d: string)
    requires d != "" && Find(first + d, d, 0) == |first|
    ensures Pieces(first + d + tail, d) == [first] + Pieces(tail, d)
  {
    var s := first + d + tail;
    FirstInLonger(first + d, tail, d, |first|);
    hide Find;
    assert s[..|first|] == first && s[|first| + |d|..] == tail;
  }

  lemma FirstInLonger(a: string, b: string, d: string, p: nat)
    requires d != "" && p + |d| == |a| && Find(a, d, 0) == p
    ensures Find(a + b, d, 0) == p
  {
    hide At;
    hide Find;
    forall k | 0 <= k <= p ensures At(a + b, k, d) <==> At(a, k, d) { OccursInFront(a, b, d, k); }
    FindIsFirst(a + b, d, 0, p);
  }

  /** No piece contains the delimiter. */
  lemma NoPieceContains(s: string, d: string, i: nat, k: nat)
    requires d != "" && i < |Pieces(s, d)|
    ensures !At(Pieces(s, d)[i], k, d)
  {
    PiecesAreLeftmost(s, d);
    var piece := Pieces(s, d)[i];
    if i < |Pieces(s, d)| - 1 && k + |d| <= |piece| {
      assert (piece + d)[k..k + |d|] == piece[k..k + |d|];
      assert !At(piece + d, k, d);
    }
  }

  /** Replace with a count of at least the number of matches is Split then Join, */
  lemma ReplaceIsSplitThenJoin(s: string, from: string, to: string, count: nat)
    requires from != "" && |Pieces(s, from)| - 1 <= count
    ensures Glue(Pieces(s, from), to, from, count) == Concat(SplitParts(s, from, true), to)
  {
    GlueAll(Pieces(s, from), to, from, count);
    if s == "" { EmptyHasOnePiece(from); }
  }

  /** so Join undoes Split on every text, the empty one included. */
  lemma JoinUndoesSplit(s: string, d: string)
    requires d != ""
    ensures Concat(SplitParts(s, d, true), d) == s
  {
    ConcatPieces(s, d);
  }

  /** The three functions together. */
  method ReplaceBothWays(s: string, from: string, to: string, count: nat)
    returns (replaced: string, joined: string, back: string)
    requires from != "" && |Pieces(s, from)| - 1 <= count
    ensures replaced == joined && back == s
  {
    replaced := Replace(s, from, to, count);
    var parts := Split(s, from, true);
    joined := Join(parts, to);
    back := Join(parts, from);
    ReplaceIsSplitThenJoin(s, from, to, count);
    JoinUndoesSplit(s, from);
  }
}
