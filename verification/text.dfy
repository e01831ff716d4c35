/**
 * The handful of `java.lang.String` / `Integer` behaviours the panels rely on:
 * `trim`, ASCII `toLowerCase`, `contains`, `Integer.parseInt`, and `String.split`
 * (for a single character and for the one regular expression the settings import uses).
 * Strings are sequences of Unicode scalars; every literal the program uses lies in the
 * Basic Multilingual Plane, so Java `char` indices and Dafny indices coincide.
 */
module Text {
  import opened Optional

  // ---------------------------------------------------------------------------
  // String.trim
  // ---------------------------------------------------------------------------

  /** `String.trim` removes every leading and trailing character whose code is at most U+0020. */
  predicate IsTrimChar(c: char) {
    c <= ' '
  }

  /** True when `s` has no trim character at either end, i.e. `trim` leaves it alone. */
  predicate IsTrimmed(s: string) {
    s == [] || (!IsTrimChar(s[0]) && !IsTrimChar(s[|s| - 1]))
  }

  function TrimLeft(s: string): (r: string)
    ensures |r| <= |s| && r == s[|s| - |r|..]
    ensures r != [] ==> !IsTrimChar(r[0])
    ensures forall i :: 0 <= i < |s| - |r| ==> IsTrimChar(s[i])
    decreases |s|
  {
    if |s| > 0 && IsTrimChar(s[0]) then TrimLeft(s[1..]) else s
  }

  function TrimRight(s: string): (r: string)
    ensures |r| <= |s| && r == s[..|r|]
    ensures r != [] ==> !IsTrimChar(r[|r| - 1])
    ensures forall i :: |r| <= i < |s| ==> IsTrimChar(s[i])
    decreases |s|
  {
    if |s| > 0 && IsTrimChar(s[|s| - 1]) then TrimRight(s[..|s| - 1]) else s
  }

  /** Java `String.trim`. */
  function Trim(s: string): (r: string)
    ensures IsTrimmed(r)
    ensures |r| <= |s|
  {
    TrimRight(TrimLeft(s))
  }

  /** `trim` returns the empty string exactly for a blank input. */
  lemma TrimEmptyIffBlank(s: string)
    ensures Trim(s) == [] <==> forall i :: 0 <= i < |s| ==> IsTrimChar(s[i])
  {
    var l := TrimLeft(s);
    if TrimRight(l) == [] {
      assert l == [];
    }
  }

  /** A string that `trim` leaves alone is returned unchanged. */
  lemma TrimOfTrimmed(s: string)
    requires IsTrimmed(s)
    ensures Trim(s) == s
  {
    TrimLeftKeeps(s);
    TrimRightKeeps(s);
  }

  lemma TrimLeftKeeps(s: string)
    requires s == [] || !IsTrimChar(s[0])
    ensures TrimLeft(s) == s
  {
  }

  lemma TrimRightKeeps(s: string)
    requires s == [] || !IsTrimChar(s[|s| - 1])
    ensures TrimRight(s) == s
  {
  }

  /** Trimming twice is trimming once. */
  lemma TrimIdempotent(s: string)
    ensures Trim(Trim(s)) == Trim(s)
  {
    TrimOfTrimmed(Trim(s));
  }

  /** A non-trim character in front of a trimmed, non-empty string survives `trim`. */
  lemma TrimKeepsPrefix(c: char, s: string)
    requires !IsTrimChar(c) && s != [] && IsTrimmed(s)
    ensures Trim([c] + s) == [c] + s
  {
    TrimOfTrimmed([c] + s);
  }

  // ---------------------------------------------------------------------------
  // toLowerCase (ASCII), contains
  // ---------------------------------------------------------------------------

  function LowerChar(c: char): char {
    if 'A' <= c <= 'Z' then (c as int + 32) as char else c
  }

  /** `String.toLowerCase` restricted to the ASCII letters. */
  function Lower(s: string): (r: string)
    ensures |r| == |s|
    ensures forall i :: 0 <= i < |s| ==> r[i] == LowerChar(s[i])
  {
    seq(|s|, i requires 0 <= i < |s| => LowerChar(s[i]))
  }

  lemma LowerIdempotent(s: string)
    ensures Lower(Lower(s)) == Lower(s)
  {
  }

  /** `String.contains`: `sub` occurs somewhere in `s`. */
  predicate Contains(s: string, sub: string) {
    exists i | 0 <= i <= |s| - |sub| :: OccursAt(s, sub, i)
  }

  /** `sub` occurs in `s` starting at index `i`. */
  predicate OccursAt(s: string, sub: string, i: int) {
    0 <= i <= |s| - |sub| && s[i..i + |sub|] == sub
  }

  // ---------------------------------------------------------------------------
  // Integer.parseInt
  // ---------------------------------------------------------------------------

  const IntMin: int := -0x8000_0000
  const IntMax: int := 0x7FFF_FFFF

  predicate IsDigit(c: char) {
    '0' <= c <= '9'
  }

  predicate AllDigits(s: string) {
    forall i :: 0 <= i < |s| ==> IsDigit(s[i])
  }

  function DigitsValue(s: string): nat
    requires AllDigits(s)
  {
    if |s| == 0 then 0 else DigitsValue(s[..|s| - 1]) * 10 + (s[|s| - 1] as int - '0' as int)
  }

  /**
   * `Integer.parseInt(s)`: an optional `-` or `+` followed by at least one decimal digit,
   * with a value that fits in 32 bits; anything else is a `NumberFormatException` (None).
   */
  function ParseInt(s: string): (r: Option<int>)
    ensures r.Some? ==> IntMin <= r.value <= IntMax
    ensures r.Some? ==> |s| > 0 && (IsDigit(s[0]) || s[0] == '-' || s[0] == '+')
    ensures r.Some? ==> forall i :: 1 <= i < |s| ==> IsDigit(s[i])
    ensures r.Some? && r.value < 0 ==> s[0] == '-'
  {
    if |s| == 0 then None
    else
      var signed := s[0] == '-' || s[0] == '+';
      var digits := if signed then s[1..] else s;
      if |digits| == 0 || !AllDigits(digits) then None
      else
        var v := if s[0] == '-' then -(DigitsValue(digits) as int) else DigitsValue(digits);
        if IntMin <= v <= IntMax then Some(v) else None
  }

  /** The dialogs' numeric check: the text parses and the value lies in `lo..hi`. */
  predicate ParsesInRange(s: string, lo: int, hi: int) {
    ParseInt(s).Some? && lo <= ParseInt(s).value <= hi
  }

  function DigitChar(d: nat): (c: char)
    requires d < 10
    ensures IsDigit(c) && c as int - '0' as int == d
  {
    ('0' as int + d) as char
  }

  /** Decimal rendering of a natural number, as `String.valueOf` would print it. */
  function NatToString(n: nat): (r: string)
    ensures |r| > 0 && AllDigits(r)
    ensures DigitsValue(r) == n
    decreases n
  {
    if n < 10 then [DigitChar(n)]
    else
      var prefix := NatToString(n / 10);
      var r := prefix + [DigitChar(n % 10)];
      assert r[..|r| - 1] == prefix;
      r
  }

  /** `parseInt` reads back every decimal rendering that fits in 32 bits. */
  lemma ParseIntOfNatToString(n: nat)
    requires n <= IntMax
    ensures ParseInt(NatToString(n)) == Some(n)
  {
    var s := NatToString(n);
    assert IsDigit(s[0]);
  }

  // ---------------------------------------------------------------------------
  // String.split
  // ---------------------------------------------------------------------------

  /**
   * The two delimiters the program splits on: a single character (`split(",")`,
   * `split("\"")`) and the settings-import pattern `"key"\s*:\s*"`.
   */
  datatype Delim = Char(c: char) | KeyColonQuote(key: string)

  /** The regular-expression class `\s`: space, tab, newline, vertical tab, form feed, return. */
  predicate IsRegexSpace(c: char) {
    c == ' ' || c == '\t' || c == '\n' || c == '\U{000B}' || c == '\U{000C}' || c == '\r'
  }

  /** The end of the longest run of `\s` characters starting at `j`. */
  function SkipSpaces(s: string, j: nat): (k: nat)
    requires j <= |s|
    ensures j <= k <= |s|
    ensures k == |s| || !IsRegexSpace(s[k])
    ensures forall i :: j <= i < k ==> IsRegexSpace(s[i])
    decreases |s| - j
  {
    if j < |s| && IsRegexSpace(s[j]) then SkipSpaces(s, j + 1) else j
  }

  /**
   * The end of the delimiter match that starts exactly at `i`, if any. For the key pattern
   * the greedy `\s*` never needs to backtrack, because the character after it must be `:`
   * or `"`, neither of which is a space.
   */
  function MatchAt(s: string, i: nat, d: Delim): (r: Option<nat>)
    requires i <= |s|
    ensures r.Some? ==> i < r.value <= |s|
  {
    match d
    case Char(c) =>
      if i < |s| && s[i] == c then Some(i + 1) else None
    case KeyColonQuote(key) =>
      var head := "\"" + key + "\"";
      if !(head <= s[i..]) then None
      else
        var j := SkipSpaces(s, i + |head|);
        if j == |s| || s[j] != ':' then None
        else
          var k := SkipSpaces(s, j + 1);
          if k == |s| || s[k] != '"' then None else Some(k + 1)
  }

  /** `Matcher.find` from position `from`: the leftmost match, as (start, end). */
  function NextMatch(s: string, d: Delim, from: nat): (r: Option<(nat, nat)>)
    requires from <= |s|
    ensures r.Some? ==> from <= r.value.0 < r.value.1 <= |s|
    ensures r.Some? ==> MatchAt(s, r.value.0, d) == Some(r.value.1)
    ensures r.Some? ==> forall k :: from <= k < r.value.0 ==> MatchAt(s, k, d).None?
    ensures r.None? ==> forall k :: from <= k <= |s| ==> MatchAt(s, k, d).None?
    decreases |s| - from
  {
    if from == |s| then
      assert MatchAt(s, from, d).None?;
      None
    else
      match MatchAt(s, from, d)
      case Some(e) => Some((from, e))
      case None => NextMatch(s, d, from + 1)
  }

  /** Skipping a stretch of positions where no match starts does not change the next match. */
  lemma NextMatchSkip(s: string, d: Delim, from: nat, to: nat)
    requires from <= to <= |s|
    requires forall k :: from <= k < to ==> MatchAt(s, k, d).None?
    ensures NextMatch(s, d, from) == NextMatch(s, d, to)
    decreases (to as int) - (from as int)
  {
    if from < to {
      NextMatchSkip(s, d, from + 1, to);
    }
  }

  /** The pieces between consecutive matches from `from` on, before trailing empties are removed. */
  function Pieces(s: string, d: Delim, from: nat): (r: seq<string>)
    requires from <= |s|
    ensures |r| >= 1
    decreases |s| - from
  {
    match NextMatch(s, d, from)
    case None => [s[from..]]
    case Some(m) => [s[from..m.0]] + Pieces(s, d, m.1)
  }

  /** `split` with limit 0 drops every trailing empty piece. */
  function DropTrailingEmpty(xs: seq<string>): (r: seq<string>)
    ensures |r| <= |xs| && r == xs[..|r|]
    ensures r == [] || r[|r| - 1] != ""
    ensures forall i :: |r| <= i < |xs| ==> xs[i] == ""
  {
    if |xs| == 0 then xs
    else if xs[|xs| - 1] == "" then DropTrailingEmpty(xs[..|xs| - 1])
    else xs
  }

  /** A non-empty piece, and everything before it, survives the trailing-empty removal. */
  lemma DropTrailingEmptyKeeps(xs: seq<string>, k: nat)
    requires k < |xs| && xs[k] != ""
    ensures k < |DropTrailingEmpty(xs)|
    ensures DropTrailingEmpty(xs)[..k + 1] == xs[..k + 1]
  {
  }

  /** Java `String.split(regex)`: no match gives the whole string, otherwise the pieces minus trailing empties. */
  function Split(s: string, d: Delim): (r: seq<string>)
    ensures NextMatch(s, d, 0).None? ==> r == [s]
    ensures NextMatch(s, d, 0).Some? ==> r == DropTrailingEmpty(Pieces(s, d, 0))
  {
    if NextMatch(s, d, 0).None? then [s] else DropTrailingEmpty(Pieces(s, d, 0))
  }

  /** The pieces joined back with the separator character. */
  function JoinWith(xs: seq<string>, c: char): string
    requires |xs| >= 1
  {
    if |xs| == 1 then xs[0] else xs[0] + [c] + JoinWith(xs[1..], c)
  }

  /** Splitting on a character is undone by joining with it, and no piece contains it. */
  lemma {:induction false} PiecesRejoin(s: string, c: char, from: nat)
    requires from <= |s|
    ensures JoinWith(Pieces(s, Char(c), from), c) == s[from..]
    ensures forall k :: 0 <= k < |Pieces(s, Char(c), from)| ==> c !in Pieces(s, Char(c), from)[k]
    decreases |s| - from
  {
    match NextMatch(s, Char(c), from)
    case None =>
      LastPiece(s, c, from);
    case Some(m) =>
      var i := m.0;
      PieceBeforeMatch(s, c, from, i);
      PiecesRejoin(s, c, i + 1);
      JoinAfterPiece(s, c, from, i, Pieces(s, Char(c), i + 1), Pieces(s, Char(c), from));
  }

  /** Without a further separator, the rest of the text is the only piece and holds no separator. */
  lemma LastPiece(s: string, c: char, from: nat)
    requires from <= |s| && NextMatch(s, Char(c), from).None?
    ensures Pieces(s, Char(c), from) == [s[from..]] && c !in s[from..]
  {
    forall k | from <= k < |s| ensures s[k] != c {
      assert MatchAt(s, k, Char(c)).None?;
    }
  }

  /** At the next separator `i`, the first piece is the text up to it, free of separators. */
  lemma PieceBeforeMatch(s: string, c: char, from: nat, i: nat)
    requires from <= |s| && NextMatch(s, Char(c), from).Some? && NextMatch(s, Char(c), from).value.0 == i
    ensures i < |s| && s[i] == c && NextMatch(s, Char(c), from).value.1 == i + 1
    ensures Pieces(s, Char(c), from) == [s[from..i]] + Pieces(s, Char(c), i + 1)
    ensures c !in s[from..i]
  {
    forall k | from <= k < i ensures s[k] != c {
      assert MatchAt(s, k, Char(c)).None?;
    }
  }

  /** Joining the first piece with the rejoined rest gives the text back, and no piece has a separator. */
  lemma JoinAfterPiece(s: string, c: char, from: nat, i: nat, rest: seq<string>, ps: seq<string>)
    requires from <= i < |s| && s[i] == c && c !in s[from..i] && |rest| >= 1
    requires JoinWith(rest, c) == s[i + 1..]
    requires forall k :: 0 <= k < |rest| ==> c !in rest[k]
    requires ps == [s[from..i]] + rest
    ensures JoinWith(ps, c) == s[from..]
    ensures forall k :: 0 <= k < |ps| ==> c !in ps[k]
  {
    JoinCons(s[from..i], rest, c, ps);
    SliceAround(s, from, i);
    NoSeparatorCons(s[from..i], rest, c, ps);
  }

  /** Joining a piece in front of at least one more: the piece, the separator, then the rest joined. */
  lemma JoinCons(head: string, rest: seq<string>, c: char, ps: seq<string>)
    requires |rest| >= 1 && ps == [head] + rest
    ensures JoinWith(ps, c) == head + [c] + JoinWith(rest, c)
  {
    assert ps[1..] == rest;
  }

  /** A text cut at position `i` is the part before it, the character at it, and the part after. */
  lemma SliceAround(s: string, from: nat, i: nat)
    requires from <= i < |s|
    ensures s[from..] == s[from..i] + [s[i]] + s[i + 1..]
  {
  }

  lemma NoSeparatorCons(head: string, rest: seq<string>, c: char, ps: seq<string>)
    requires c !in head && ps == [head] + rest
    requires forall k :: 0 <= k < |rest| ==> c !in rest[k]
    ensures forall k :: 0 <= k < |ps| ==> c !in ps[k]
  {
    forall k | 0 < k < |ps| ensures c !in ps[k] {
      assert ps[k] == rest[k - 1];
    }
  }

  // ---------------------------------------------------------------------------
  // Comma-separated lists (aggregation members, sticky MAC addresses)
  // ---------------------------------------------------------------------------

  /** Each piece trimmed, the empty ones skipped, order kept. */
  function NonEmptyTrimmed(xs: seq<string>): (r: seq<string>)
    ensures |r| <= |xs|
    ensures forall k :: 0 <= k < |r| ==> r[k] != "" && IsTrimmed(r[k])
  {
    if |xs| == 0 then []
    else if Trim(xs[0]) == "" then NonEmptyTrimmed(xs[1..])
    else [Trim(xs[0])] + NonEmptyTrimmed(xs[1..])
  }

  lemma {:induction false} NonEmptyTrimmedAppend(xs: seq<string>, ys: seq<string>)
    ensures NonEmptyTrimmed(xs + ys) == NonEmptyTrimmed(xs) + NonEmptyTrimmed(ys)
    decreases |xs|
  {
    if |xs| == 0 {
      assert xs + ys == ys;
    } else {
      assert (xs + ys)[0] == xs[0];
      assert (xs + ys)[1..] == xs[1..] + ys;
      NonEmptyTrimmedAppend(xs[1..], ys);
    }
  }

  /** Trailing empty pieces never contribute an item, so dropping them changes nothing. */
  lemma NonEmptyTrimmedIgnoresTrailingEmpty(xs: seq<string>)
    ensures NonEmptyTrimmed(DropTrailingEmpty(xs)) == NonEmptyTrimmed(xs)
  {
    var r := DropTrailingEmpty(xs);
    var tail := xs[|r|..];
    assert xs == r + tail;
    forall k | 0 <= k < |tail| ensures tail[k] == "" {
      assert tail[k] == xs[|r| + k];
    }
    NonEmptyTrimmedAppend(r, tail);
    NonEmptyTrimmedOfEmpties(tail);
  }

  lemma {:induction false} NonEmptyTrimmedOfEmpties(xs: seq<string>)
    requires forall k :: 0 <= k < |xs| ==> xs[k] == ""
    ensures NonEmptyTrimmed(xs) == []
    decreases |xs|
  {
    if |xs| > 0 {
      var e := xs[0];
      assert |Trim(e)| <= |e| == 0;
      NonEmptyTrimmedOfEmpties(xs[1..]);
    }
  }

  /** A list of non-empty trimmed items passes through unchanged. */
  lemma {:induction false} NonEmptyTrimmedOfItems(xs: seq<string>)
    requires forall k :: 0 <= k < |xs| ==> xs[k] != "" && IsTrimmed(xs[k])
    ensures NonEmptyTrimmed(xs) == xs
    decreases |xs|
  {
    if |xs| > 0 {
      TrimOfTrimmed(xs[0]);
      NonEmptyTrimmedOfItems(xs[1..]);
      assert xs == [xs[0]] + xs[1..];
    }
  }

  /**
   * The items of a comma-separated field as the panels read it:
   * `if (!s.isEmpty()) for (p : s.split(",")) if (!p.trim().isEmpty()) use p.trim()`.
   */
  function CommaItems(s: string): (r: seq<string>)
    ensures forall k :: 0 <= k < |r| ==> r[k] != "" && IsTrimmed(r[k])
  {
    if s == "" then [] else NonEmptyTrimmed(Split(s, Char(',')))
  }

  /**
   * The items are exactly the non-empty trimmed fields between commas: neither the
   * emptiness guard nor `split`'s special cases change the result.
   */
  lemma CommaItemsAreFields(s: string)
    ensures CommaItems(s) == NonEmptyTrimmed(Pieces(s, Char(','), 0))
    ensures JoinWith(Pieces(s, Char(','), 0), ',') == s
  {
    PiecesRejoin(s, ',', 0);
    if s == "" {
      assert Pieces(s, Char(','), 0) == [""];
      assert Trim("") == "";
    } else if NextMatch(s, Char(','), 0).None? {
      assert Pieces(s, Char(','), 0) == [s];
    } else {
      NonEmptyTrimmedIgnoresTrailingEmpty(Pieces(s, Char(','), 0));
    }
  }
}
