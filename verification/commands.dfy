/**
 * What the "生成命令" button puts in the preview area: either a prompt asking for a
 * selection, or the generated Huawei VRP command lines, each terminated by a newline.
 */
module Commands {
  import opened Optional
  import opened Text

  datatype Output = Prompt(message: string) | Lines(lines: seq<string>)

  /** A line that is emitted only under a condition (an optional `description`, a port clause). */
  function When(cond: bool, line: string): (r: seq<string>)
    ensures |r| <= 1
    ensures r != [] <==> cond
    ensures cond ==> r == [line]
  {
    if cond then [line] else []
  }

  /** The preview text: every line followed by `\n`, as `StringBuilder.append(...).append("\n")` builds it. */
  function Render(lines: seq<string>): (r: string)
    ensures |lines| == 0 ==> r == ""
    ensures |lines| > 0 ==> |r| > 0 && r[|r| - 1] == '\n'
  {
    if |lines| == 0 then "" else lines[0] + "\n" + Render(lines[1..])
  }

  lemma {:induction false} RenderAppend(a: seq<string>, b: seq<string>)
    ensures Render(a + b) == Render(a) + Render(b)
    decreases |a|
  {
    if |a| == 0 {
      assert a + b == b;
    } else {
      assert (a + b)[0] == a[0];
      assert (a + b)[1..] == a[1..] + b;
      RenderAppend(a[1..], b);
    }
  }

  /** No generated line spans two lines of the preview. */
  predicate SingleLines(lines: seq<string>) {
    forall k :: 0 <= k < |lines| ==> '\n' !in lines[k]
  }

  /** The rendered text is the lines joined by newlines, plus the final newline. */
  lemma {:induction false} RenderIsJoin(lines: seq<string>)
    ensures Render(lines) == JoinWith(lines + [""], '\n')
    decreases |lines|
  {
    if |lines| > 0 {
      assert (lines + [""])[0] == lines[0];
      assert (lines + [""])[1..] == lines[1..] + [""];
      RenderIsJoin(lines[1..]);
    }
  }

  /** Joining pieces that do not contain the separator is injective. */
  lemma {:induction false} JoinInjective(xs: seq<string>, ys: seq<string>, c: char)
    requires |xs| >= 1 && |ys| >= 1
    requires forall k :: 0 <= k < |xs| ==> c !in xs[k]
    requires forall k :: 0 <= k < |ys| ==> c !in ys[k]
    requires JoinWith(xs, c) == JoinWith(ys, c)
    ensures xs == ys
    decreases |xs|
  {
    var s := JoinWith(xs, c);
    if |xs| == 1 && |ys| == 1 {
    } else if |xs| == 1 {
      assert false;
    } else if |ys| == 1 {
      assert false;
    } else {
      var tx := JoinWith(xs[1..], c);
      var ty := JoinWith(ys[1..], c);
      assert s == xs[0] + ([c] + tx);
      assert s == ys[0] + ([c] + ty);
      FirstPieceUnique(xs[0], ys[0], tx, ty, c);
      assert xs[0] == ys[0];
      assert tx == s[|xs[0]| + 1..] == ty;
      JoinInjective(xs[1..], ys[1..], c);
      assert xs == [xs[0]] + xs[1..];
      assert ys == [ys[0]] + ys[1..];
    }
  }

  lemma FirstPieceUnique(a: string, b: string, ta: string, tb: string, c: char)
    requires c !in a && c !in b
    requires a + ([c] + ta) == b + ([c] + tb)
    ensures a == b
  {
    var s := a + ([c] + ta);
    FirstSeparator(a, ta, c);
    FirstSeparator(b, tb, c);
    assert a == s[..|a|] == b;
  }

  /** In `a + c + t` with no `c` in `a`, the first `c` is the one right after `a`. */
  lemma FirstSeparator(a: string, t: string, c: char)
    requires c !in a
    ensures NextMatch(a + ([c] + t), Char(c), 0) == Some((|a|, |a| + 1))
  {
    var s := a + ([c] + t);
    forall k | 0 <= k < |a| ensures MatchAt(s, k, Char(c)).None? {
      assert s[k] == a[k];
    }
    NextMatchSkip(s, Char(c), 0, |a|);
  }

  /**
   * Reading the preview back line by line yields exactly the generated lines (and the empty
   * remainder after the final newline), provided no line contains a newline itself.
   */
  lemma RenderSplitsBack(lines: seq<string>)
    requires SingleLines(lines)
    ensures Pieces(Render(lines), Char('\n'), 0) == lines + [""]
  {
    var s := Render(lines);
    RenderIsJoin(lines);
    PiecesRejoin(s, '\n', 0);
    var ps := Pieces(s, Char('\n'), 0);
    assert s[0..] == s;
    JoinInjective(ps, lines + [""], '\n');
  }

  /** Splitting a text joined from separator-free pieces gives back exactly those pieces. */
  lemma SplitsJoin(xs: seq<string>, c: char)
    requires |xs| >= 1
    requires forall k :: 0 <= k < |xs| ==> c !in xs[k]
    ensures Pieces(JoinWith(xs, c), Char(c), 0) == xs
  {
    var s := JoinWith(xs, c);
    PiecesRejoin(s, c, 0);
    assert s[0..] == s;
    JoinInjective(Pieces(s, Char(c), 0), xs, c);
  }

  /**
   * A comma list typed as `a,b,c` from non-empty, trimmed, comma-free names is read back as
   * exactly those names, in order.
   */
  lemma CommaItemsOfJoin(xs: seq<string>)
    requires |xs| >= 1
    requires forall k :: 0 <= k < |xs| ==> xs[k] != "" && IsTrimmed(xs[k]) && ',' !in xs[k]
    ensures CommaItems(JoinWith(xs, ',')) == xs
  {
    var s := JoinWith(xs, ',');
    assert |xs| > 1 ==> s == xs[0] + [','] + JoinWith(xs[1..], ',');
    assert s != "";
    SplitsJoin(xs, ',');
    CommaItemsAreFields(s);
    NonEmptyTrimmedOfItems(xs);
  }

  /** How many lines start with `p`. */
  function CountPrefixed(lines: seq<string>, p: string): (n: nat)
    ensures n <= |lines|
    ensures n == 0 <==> forall k :: 0 <= k < |lines| ==> !(p <= lines[k])
  {
    if |lines| == 0 then 0
    else (if p <= lines[0] then 1 else 0) + CountPrefixed(lines[1..], p)
  }

  lemma {:induction false} CountPrefixedAppend(a: seq<string>, b: seq<string>, p: string)
    ensures CountPrefixed(a + b, p) == CountPrefixed(a, p) + CountPrefixed(b, p)
    decreases |a|
  {
    if |a| == 0 {
      assert a + b == b;
    } else {
      assert (a + b)[0] == a[0];
      assert (a + b)[1..] == a[1..] + b;
      CountPrefixedAppend(a[1..], b, p);
    }
  }

  /** The text after `prefix` on the first line that starts with it: what a reader of the script finds for that command. */
  function ValueAfter(lines: seq<string>, prefix: string): (r: Option<string>)
    ensures r.None? <==> forall k :: 0 <= k < |lines| ==> !(prefix <= lines[k])
    ensures r.Some? ==> exists k :: 0 <= k < |lines| && lines[k] == prefix + r.value
  {
    if |lines| == 0 then None
    else if prefix <= lines[0] then
      assert lines[0] == prefix + lines[0][|prefix|..];
      Some(lines[0][|prefix|..])
    else ValueAfter(lines[1..], prefix)
  }

  lemma ValueAfterCons(line: string, rest: seq<string>, prefix: string)
    ensures ValueAfter([line] + rest, prefix) ==
      if prefix <= line then Some(line[|prefix|..]) else ValueAfter(rest, prefix)
  {
    assert ([line] + rest)[1..] == rest;
  }

  lemma {:induction false} ValueAfterAppend(a: seq<string>, b: seq<string>, prefix: string)
    ensures ValueAfter(a + b, prefix) == if ValueAfter(a, prefix).Some? then ValueAfter(a, prefix) else ValueAfter(b, prefix)
    decreases |a|
  {
    if |a| == 0 {
      assert a + b == b;
    } else {
      assert a + b == [a[0]] + (a[1..] + b);
      ValueAfterCons(a[0], a[1..] + b, prefix);
      ValueAfterAppend(a[1..], b, prefix);
      assert a == [a[0]] + a[1..];
      ValueAfterCons(a[0], a[1..], prefix);
    }
  }

  /** A command line built as `prefix + value` yields `value` back. */
  lemma PrefixValue(prefix: string, value: string)
    ensures prefix <= prefix + value
    ensures (prefix + value)[|prefix|..] == value
  {
  }

  /** Two texts that differ at position `i` are not prefix-related. */
  lemma DiffersAt(p: string, s: string, i: nat)
    requires i < |p| && i < |s| && p[i] != s[i]
    ensures !(p <= s)
  {
  }

  /** When every line starts with `p`, every line is counted. */
  lemma {:induction false} AllPrefixed(lines: seq<string>, p: string)
    requires forall k :: 0 <= k < |lines| ==> p <= lines[k]
    ensures CountPrefixed(lines, p) == |lines|
    decreases |lines|
  {
    if |lines| > 0 {
      AllPrefixed(lines[1..], p);
    }
  }

  lemma CountPrefixedCons(line: string, rest: seq<string>, p: string)
    ensures CountPrefixed([line] + rest, p) == (if p <= line then 1 else 0) + CountPrefixed(rest, p)
  {
    assert ([line] + rest)[1..] == rest;
  }
}
