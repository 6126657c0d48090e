/** Placeholder substitution in alert message templates (src/helper/format.rs). */
module Format {

  /** `str::replace` with an empty pattern: `rep` goes before every character
      and at the end. */
  function InsertEverywhere(s: string, rep: string): (r: string)
    ensures |r| == |s| + (|s| + 1) * |rep|
  {
    if s == [] then rep else rep + [s[0]] + InsertEverywhere(s[1..], rep)
  }

  /** `i` blocks of width `k` laid end to end: `i * k`, without multiplication. */
  function Offset(i: nat, k: nat): nat {
    if i == 0 then 0 else Offset(i - 1, k) + k
  }

  lemma {:induction false} OffsetIsProduct(i: nat, k: nat)
    ensures Offset(i, k) == i * k
  {
    if i > 0 {
      OffsetIsProduct(i - 1, k);
      assert (i - 1) * k + k == i * k;
    }
  }

  /** Dropping a prefix of length `|x|` and then `j` more leaves `t[j..]`. */
  lemma SuffixAfterPrefix(x: string, t: string, j: nat)
    requires j <= |t|
    ensures (x + t)[|x| + j..] == t[j..]
  {
    assert (x + t)[|x|..] == t;
  }

  /** From block `i` on, the result is what `s[i..]` alone gives. */
  lemma {:induction false} InsertEverywhereFrom(s: string, rep: string, i: nat)
    requires i <= |s|
    ensures var r, o := InsertEverywhere(s, rep), Offset(i, |rep| + 1);
      o <= |r| && r[o..] == InsertEverywhere(s[i..], rep)
  {
    if i > 0 {
      var x, tail := rep + [s[0]], InsertEverywhere(s[1..], rep);
      var j := Offset(i - 1, |rep| + 1);
      assert InsertEverywhere(s, rep) == x + tail;
      InsertEverywhereFrom(s[1..], rep, i - 1);
      assert s[1..][i - 1..] == s[i..];
      SuffixAfterPrefix(x, tail, j);
    }
  }

  /** The result starts with `rep`, then `s[0]`; for an empty `s` it is `rep`. */
  lemma InsertEverywhereStart(s: string, rep: string)
    ensures var r := InsertEverywhere(s, rep);
      && |rep| <= |r| && r[..|rep|] == rep
      && (s != [] ==> |rep| < |r| && r[|rep|] == s[0])
      && (s == [] ==> r == rep)
  {
    if s != [] {
      assert InsertEverywhere(s, rep) == rep + ([s[0]] + InsertEverywhere(s[1..], rep));
    }
  }

  /** The contents of the result: block `i`, of width |rep| + 1, holds `rep`
      and then `s[i]`, and the result ends with `rep`. */
  lemma InsertEverywhereAt(s: string, rep: string, i: nat)
    requires i <= |s|
    ensures var r, o := InsertEverywhere(s, rep), Offset(i, |rep| + 1);
      && o + |rep| <= |r|
      && r[o..o + |rep|] == rep
      && (i < |s| ==> o + |rep| < |r| && r[o + |rep|] == s[i])
      && (i == |s| ==> r[o..] == rep)
  {
    InsertEverywhereFrom(s, rep, i);
    InsertEverywhereStart(s[i..], rep);
    var r, o := InsertEverywhere(s, rep), Offset(i, |rep| + 1);
    assert r[o..o + |rep|] == r[o..][..|rep|];
    assert i < |s| ==> r[o + |rep|] == r[o..][|rep|] && s[i..][0] == s[i];
  }

  /** `str::replace`: every non-overlapping occurrence of `pat`, found from left
      to right, is replaced by `rep`. */
  function ReplaceAll(s: string, pat: string, rep: string): (r: string)
    ensures pat != [] && |rep| <= |pat| ==> |r| <= |s|
    ensures pat != [] && |rep| == |pat| ==> |r| == |s|
    decreases |s|
  {
    if pat == [] then InsertEverywhere(s, rep)
    else if |s| < |pat| then s
    else if s[..|pat|] == pat then rep + ReplaceAll(s[|pat|..], pat, rep)
    else [s[0]] + ReplaceAll(s[1..], pat, rep)
  }

  /** `pat` occurs in `s` starting at index `i`. */
  predicate OccursAt(pat: string, s: string, i: int) {
    0 <= i && i + |pat| <= |s| && s[i..i + |pat|] == pat
  }

  /** `pat` occurs somewhere in `s`. */
  ghost predicate Occurs(pat: string, s: string) {
    exists i :: OccursAt(pat, s, i)
  }

  /** Replacing a pattern by itself changes nothing. */
  lemma {:induction false} ReplaceWithItself(s: string, pat: string)
    ensures ReplaceAll(s, pat, pat) == s
  {
    if pat == [] {
      InsertNothing(s);
    } else if |s| >= |pat| {
      if s[..|pat|] == pat {
        ReplaceWithItself(s[|pat|..], pat);
        assert s[..|pat|] + s[|pat|..] == s;
      } else {
        ReplaceWithItself(s[1..], pat);
        assert [s[0]] + s[1..] == s;
      }
    }
  }

  lemma {:induction false} InsertNothing(s: string)
    ensures InsertEverywhere(s, []) == s
  {
    if s != [] {
      InsertNothing(s[1..]);
      assert [s[0]] + s[1..] == s;
    }
  }

  /** A non-empty pattern that does not occur leaves the text unchanged. */
  lemma {:induction false} ReplaceAbsent(s: string, pat: string, rep: string)
    requires pat != [] && !Occurs(pat, s)
    ensures ReplaceAll(s, pat, rep) == s
  {
    if |s| >= |pat| {
      assert !OccursAt(pat, s, 0);
      assert s[0..0 + |pat|] == s[..|pat|];
      forall i | OccursAt(pat, s[1..], i) ensures OccursAt(pat, s, i + 1) {
        assert s[1..][i..i + |pat|] == s[i + 1..i + 1 + |pat|];
      }
      ReplaceAbsent(s[1..], pat, rep);
      assert [s[0]] + s[1..] == s;
    }
  }

  /** The leftmost occurrence is replaced first: if `pat` occurs right after
      `pre` and nowhere earlier, `pre` is kept, that occurrence becomes `rep`,
      and the search resumes after it, so occurrences never overlap. */
  lemma {:induction false} ReplaceFirstOccurrence(pre: string, pat: string, post: string, rep: string)
    requires pat != []
    requires forall j :: 0 <= j < |pre| ==> !OccursAt(pat, pre + pat + post, j)
    ensures ReplaceAll(pre + pat + post, pat, rep) == pre + rep + ReplaceAll(post, pat, rep)
  {
    if pre == [] {
      ReplaceAllAtMatch(pat, post, rep);
      assert pre + pat + post == pat + post && pre + rep == rep;
    } else {
      var s, rest := pre + pat + post, pre[1..];
      assert !OccursAt(pat, s, 0);
      ShiftedOccurrences(pre, pat, post);
      ReplaceFirstOccurrence(rest, pat, post, rep);
      ReplaceAllPastNonMatch(s, pat, rep);
      ConsSplit(pre, pat, post, rep, ReplaceAll(post, pat, rep));
    }
  }

  /** An occurrence at the start is replaced and the search resumes after it. */
  lemma ReplaceAllAtMatch(pat: string, post: string, rep: string)
    requires pat != []
    ensures ReplaceAll(pat + post, pat, rep) == rep + ReplaceAll(post, pat, rep)
  {
    var s := pat + post;
    assert s[..|pat|] == pat && s[|pat|..] == post;
  }

  /** With no occurrence at the start, the first character is kept. */
  lemma ReplaceAllPastNonMatch(s: string, pat: string, rep: string)
    requires pat != [] && |pat| <= |s| && !OccursAt(pat, s, 0)
    ensures ReplaceAll(s, pat, rep) == [s[0]] + ReplaceAll(s[1..], pat, rep)
  {
    assert s[0..0 + |pat|] == s[..|pat|];
  }

  /** Occurrences in the text without its first character are those in the
      text one position later. */
  lemma ShiftedOccurrences(pre: string, pat: string, post: string)
    requires pre != []
    requires forall j :: 0 <= j < |pre| ==> !OccursAt(pat, pre + pat + post, j)
    ensures forall j :: 0 <= j < |pre| - 1 ==> !OccursAt(pat, pre[1..] + pat + post, j)
  {
    var s, t := pre + pat + post, pre[1..] + pat + post;
    assert t == s[1..];
    forall j | 0 <= j < |pre| - 1 ensures !OccursAt(pat, t, j) {
      assert j + 1 + |pat| <= |s| ==> t[j..j + |pat|] == s[j + 1..j + 1 + |pat|];
      assert !OccursAt(pat, s, j + 1);
    }
  }

  /** Putting the first character of `pre` back in front of the result for the
      rest of the text gives the result for the whole text. */
  lemma ConsSplit(pre: string, pat: string, post: string, rep: string, r: string)
    requires pre != []
    ensures (pre + pat + post)[1..] == pre[1..] + pat + post
    ensures [(pre + pat + post)[0]] + (pre[1..] + rep + r) == pre + rep + r
  {
    assert (pre + pat + post)[1..] == pre[1..] + pat + post;
    assert [pre[0]] + pre[1..] == pre;
  }

  /** `order` lists the keys of `fmt`, each once: one possible iteration order
      of the map, which Rust leaves unspecified. */
  predicate IsEnumeration(order: seq<string>, fmt: map<string, string>) {
    && |order| == |fmt|
    && (forall i :: 0 <= i < |order| ==> order[i] in fmt)
    && (forall i, j :: 0 <= i < j < |order| ==> order[i] != order[j])
  }

  /** The pairs of `fmt`, taken in the order `order`, each applied with
      ReplaceAll to the result of the ones before it. */
  function Substitute(contents: string, fmt: map<string, string>, order: seq<string>): string
    requires forall i :: 0 <= i < |order| ==> order[i] in fmt
  {
    if order == [] then contents
    else
      var key := order[|order| - 1];
      ReplaceAll(Substitute(contents, fmt, order[..|order| - 1]), key, fmt[key])
  }

  /** `format_contents`: the loop over the map's pairs, in iteration order `order`. */
  method FormatContents(contents: string, fmt: map<string, string>, order: seq<string>)
    returns (formatted: string)
    requires IsEnumeration(order, fmt)
    ensures formatted == Substitute(contents, fmt, order)
  {
    formatted := contents;
    var i := 0;
    while i < |order|
      invariant 0 <= i <= |order|
      invariant formatted == Substitute(contents, fmt, order[..i])
    {
      var key := order[i];
      assert order[..i + 1][..i] == order[..i];
      formatted := ReplaceAll(formatted, key, fmt[key]);
      i := i + 1;
    }
    assert order[..|order|] == order;
  }

  /** An empty map leaves the text as it is. */
  lemma EmptyMapKeepsText(contents: string, order: seq<string>)
    requires IsEnumeration(order, map[])
    ensures Substitute(contents, map[], order) == contents
  {
  }

  /** A single pair replaces every occurrence of its key. */
  lemma SinglePair(contents: string, key: string, value: string, order: seq<string>)
    requires IsEnumeration(order, map[key := value])
    ensures Substitute(contents, map[key := value], order) == ReplaceAll(contents, key, value)
  {
    assert order == [key];
  }

  /** Pairs whose value equals their key leave the text unchanged, in any order. */
  lemma {:induction false} IdentityPairsKeepText(contents: string, fmt: map<string, string>, order: seq<string>)
    requires forall i :: 0 <= i < |order| ==> order[i] in fmt && fmt[order[i]] == order[i]
    ensures Substitute(contents, fmt, order) == contents
  {
    if order != [] {
      var key := order[|order| - 1];
      IdentityPairsKeepText(contents, fmt, order[..|order| - 1]);
      ReplaceWithItself(contents, key);
    }
  }

  /** A non-empty key that occurs neither in the text nor in what the earlier
      pairs substituted into it has no effect at its step. */
  lemma AbsentKeyHasNoEffect(contents: string, fmt: map<string, string>, order: seq<string>, i: nat)
    requires forall j :: 0 <= j < |order| ==> order[j] in fmt
    requires i < |order| && order[i] != []
    requires !Occurs(order[i], Substitute(contents, fmt, order[..i]))
    ensures Substitute(contents, fmt, order[..i + 1]) == Substitute(contents, fmt, order[..i])
  {
    assert order[..i + 1][..i] == order[..i];
    ReplaceAbsent(Substitute(contents, fmt, order[..i]), order[i], fmt[order[i]]);
  }
}
