/**
 The string primitives the chunker and the query page rely on, with the
 meaning Python gives them: `str.isspace` on one character, `str.split()`
 with no separator, `str.strip()` with no argument, and `sep.join(xs)`.
 */
module Text {

  /** A character Python's `str.isspace()` accepts: the code points that
      `str.split()` and `str.strip()` treat as whitespace. */
  predicate IsSpace(c: char) {
    || ('\t' <= c <= '\r')
    || ('\U{1C}' <= c <= '\U{1F}')
    || c == ' '
    || c == '\U{85}'
    || c == '\U{A0}'
    || c == '\U{1680}'
    || ('\U{2000}' <= c <= '\U{200A}')
    || c == '\U{2028}'
    || c == '\U{2029}'
    || c == '\U{202F}'
    || c == '\U{205F}'
    || c == '\U{3000}'
  }

  /** Empty, or whitespace only. */
  predicate Blank(s: string) {
    forall i :: 0 <= i < |s| ==> IsSpace(s[i])
  }

  /** What `str.split()` can produce: a non-empty run of non-whitespace. */
  predicate IsWord(w: string) {
    |w| > 0 && forall i :: 0 <= i < |w| ==> !IsSpace(w[i])
  }

  predicate AllWords(ws: seq<string>) {
    forall k :: 0 <= k < |ws| ==> IsWord(ws[k])
  }

  /** Length of the leading run of non-whitespace characters of `s`. */
  function WordLength(s: string): (n: nat)
    ensures n <= |s|
    ensures forall i :: 0 <= i < n ==> !IsSpace(s[i])
    ensures n < |s| ==> IsSpace(s[n])
  {
    if |s| == 0 || IsSpace(s[0]) then 0 else 1 + WordLength(s[1..])
  }

  /** `s.split()`: the maximal runs of non-whitespace, left to right. */
  function Split(s: string): (words: seq<string>)
    ensures AllWords(words)
    ensures |words| == 0 <==> Blank(s)
    decreases |s|
  {
    if |s| == 0 then []
    else if IsSpace(s[0]) then Split(s[1..])
    else
      var n := WordLength(s);
      [s[..n]] + Split(s[n..])
  }

  /** `sep.join(xs)`. */
  function Join(sep: string, xs: seq<string>): string
  {
    if |xs| == 0 then ""
    else if |xs| == 1 then xs[0]
    else xs[0] + sep + Join(sep, xs[1..])
  }

  /** `s.lstrip()`: drops the leading whitespace and keeps the rest. */
  function TrimStart(s: string): (r: string)
    ensures |r| <= |s| && r == s[|s| - |r|..]
    ensures Blank(s[..|s| - |r|])
    ensures |r| > 0 ==> !IsSpace(r[0])
  {
    if |s| > 0 && IsSpace(s[0]) then TrimStart(s[1..]) else s
  }

  /** `s.rstrip()`: drops the trailing whitespace and keeps the rest. */
  function TrimEnd(s: string): (r: string)
    ensures |r| <= |s| && r == s[..|r|]
    ensures Blank(s[|r|..])
    ensures |r| > 0 ==> !IsSpace(r[|r| - 1])
  {
    if |s| > 0 && IsSpace(s[|s| - 1]) then TrimEnd(s[..|s| - 1]) else s
  }

  /** `s.strip()`. */
  function Strip(s: string): string
  {
    TrimEnd(TrimStart(s))
  }

  /** `s.strip()` is falsy (empty) exactly when `s` is blank. */
  lemma {:induction false} StripEmptyIffBlank(s: string)
    ensures Strip(s) == "" <==> Blank(s)
  {
  }

  /** Splitting a word followed by either nothing or whitespace peels off
      exactly that word. */
  lemma {:induction false} SplitAfterWord(w: string, rest: string)
    requires IsWord(w)
    requires |rest| == 0 || IsSpace(rest[0])
    ensures Split(w + rest) == [w] + Split(rest)
  {
    var s := w + rest;
    WordLengthOfWord(w, rest);
    assert s[..|w|] == w;
    assert s[|w|..] == rest;
  }

  lemma {:induction false} WordLengthOfWord(w: string, rest: string)
    requires forall i :: 0 <= i < |w| ==> !IsSpace(w[i])
    requires |rest| == 0 || IsSpace(rest[0])
    ensures WordLength(w + rest) == |w|
    decreases |w|
  {
    if |w| > 0 {
      assert (w + rest)[1..] == w[1..] + rest;
      WordLengthOfWord(w[1..], rest);
    }
  }

  /** Joining words with a single space and splitting again gives the words
      back: no word holds whitespace, so every space is a boundary. */
  lemma {:induction false} SplitJoinSpace(ws: seq<string>)
    requires AllWords(ws)
    ensures Split(Join(" ", ws)) == ws
    decreases |ws|
  {
    if |ws| == 1 {
      SplitAfterWord(ws[0], "");
      assert ws[0] + "" == ws[0];
    } else if |ws| > 1 {
      SplitWordSpace(ws[0], Join(" ", ws[1..]));
      SplitJoinSpace(ws[1..]);
      assert ws == [ws[0]] + ws[1..];
    }
  }

  /** A word followed by one space is the first word of the text. */
  lemma {:induction false} SplitWordSpace(w: string, t: string)
    requires IsWord(w)
    ensures Split(w + " " + t) == [w] + Split(t)
  {
    assert w + " " + t == w + (" " + t);
    SplitAfterWord(w, " " + t);
    SplitAfterSpace(t);
  }

  /** A leading space changes nothing about the words. */
  lemma {:induction false} SplitAfterSpace(s: string)
    ensures Split(" " + s) == Split(s)
  {
  }

  /** Re-joining what `split()` produced and splitting again is the identity:
      `" ".join(s.split())` keeps the words and drops only the layout. */
  lemma {:induction false} SplitIdempotent(s: string)
    ensures Split(Join(" ", Split(s))) == Split(s)
  {
    SplitJoinSpace(Split(s));
  }

  /** Words laid out between separators: `gaps[0] + ws[0] + gaps[1] + ... +
      ws[n-1] + gaps[n]`. */
  function Interleave(gaps: seq<string>, ws: seq<string>): string
    requires |gaps| == |ws| + 1
    decreases |ws|
  {
    if |ws| == 0 then gaps[0] else gaps[0] + ws[0] + Interleave(gaps[1..], ws[1..])
  }

  /** Separators for `n` words: `n + 1` runs of whitespace, where the outer
      two may be empty and every inner one holds at least one character. */
  predicate Separators(gaps: seq<string>, n: nat) {
    && |gaps| == n + 1
    && (forall i :: 0 <= i < |gaps| ==> Blank(gaps[i]))
    && (forall i :: 0 < i < n ==> |gaps[i]| > 0)
  }

  /** Leading whitespace changes nothing about the words. */
  lemma {:induction false} SplitAfterBlank(g: string, t: string)
    requires Blank(g)
    ensures Split(g + t) == Split(t)
    decreases |g|
  {
    if |g| > 0 {
      assert (g + t)[1..] == g[1..] + t;
      SplitAfterBlank(g[1..], t);
    } else {
      assert g + t == t;
    }
  }

  /** Words separated by any whitespace runs, with optional whitespace at
      either end, split back into exactly those words. */
  lemma {:induction false} SplitInterleave(gaps: seq<string>, ws: seq<string>)
    requires AllWords(ws)
    requires Separators(gaps, |ws|)
    ensures Split(Interleave(gaps, ws)) == ws
    decreases |ws|
  {
    if |ws| == 0 {
      SplitAfterBlank(gaps[0], "");
      assert gaps[0] + "" == gaps[0];
    } else {
      SeparatorsTail(gaps, |ws|);
      LayoutLead(gaps[1..], ws[1..]);
      SplitGapWord(gaps[0], ws[0], Interleave(gaps[1..], ws[1..]));
      assert AllWords(ws[1..]) by {
        assert forall k :: 0 <= k < |ws| - 1 ==> ws[1..][k] == ws[k + 1];
      }
      SplitInterleave(gaps[1..], ws[1..]);
      assert ws == [ws[0]] + ws[1..];
    }
  }

  /** A word behind leading whitespace and followed by nothing or whitespace
      is the first word of the text. */
  lemma {:induction false} SplitGapWord(g: string, w: string, t: string)
    requires Blank(g) && IsWord(w)
    requires |t| == 0 || IsSpace(t[0])
    ensures Split(g + w + t) == [w] + Split(t)
  {
    assert g + w + t == g + (w + t);
    SplitAfterBlank(g, w + t);
    SplitAfterWord(w, t);
  }

  /** Dropping the first separator leaves separators for one word fewer, and
      the new first one is inner, so non-empty, unless no word is left. */
  lemma {:induction false} SeparatorsTail(gaps: seq<string>, n: nat)
    requires n > 0 && Separators(gaps, n)
    ensures Separators(gaps[1..], n - 1)
    ensures n > 1 ==> |gaps[1..][0]| > 0
  {
    assert forall i :: 0 <= i < |gaps| - 1 ==> gaps[1..][i] == gaps[i + 1];
  }

  /** A layout whose first separator is non-empty, or that has no word,
      is empty or starts with whitespace. */
  lemma {:induction false} LayoutLead(gaps: seq<string>, ws: seq<string>)
    requires Separators(gaps, |ws|)
    requires |ws| > 0 ==> |gaps[0]| > 0
    ensures |Interleave(gaps, ws)| == 0 || IsSpace(Interleave(gaps, ws)[0])
  {
    if |gaps[0]| > 0 {
      if |ws| > 0 {
        assert Interleave(gaps, ws) == gaps[0] + (ws[0] + Interleave(gaps[1..], ws[1..]));
      }
      assert Interleave(gaps, ws)[0] == gaps[0][0];
    }
  }

  /** Every text is its own words laid out between whitespace separators:
      `split()` loses only the layout, never a character of a word, and keeps
      the words in order. */
  lemma {:induction false} SplitLayout(s: string) returns (gaps: seq<string>)
    ensures Separators(gaps, |Split(s)|)
    ensures Interleave(gaps, Split(s)) == s
    ensures |s| > 0 && IsSpace(s[0]) ==> |gaps[0]| > 0
    decreases |s|
  {
    if |s| == 0 {
      gaps := [""];
    } else if IsSpace(s[0]) {
      var rest := SplitLayout(s[1..]);
      gaps := LayoutAfterSpace(s[0], rest, Split(s[1..]), s[1..]);
      assert s == [s[0]] + s[1..];
    } else {
      SplitWordFirst(s);
      var rest := SplitLayout(s[WordLength(s)..]);
      gaps := LayoutAfterWord(s[..WordLength(s)], rest, Split(s[WordLength(s)..]), s[WordLength(s)..]);
    }
  }

  /** A text that starts with a non-whitespace character splits into its
      leading word and the words of what follows it, which is empty or starts
      with whitespace. */
  lemma {:induction false} SplitWordFirst(s: string)
    requires |s| > 0 && !IsSpace(s[0])
    ensures IsWord(s[..WordLength(s)])
    ensures Split(s) == [s[..WordLength(s)]] + Split(s[WordLength(s)..])
    ensures s == s[..WordLength(s)] + s[WordLength(s)..]
    ensures |s[WordLength(s)..]| == 0 || IsSpace(s[WordLength(s)..][0])
  {
  }

  /** A whitespace character in front of a layout joins its first separator. */
  lemma {:induction false} LayoutAfterSpace(c: char, rest: seq<string>, ws: seq<string>, t: string)
    returns (gaps: seq<string>)
    requires IsSpace(c)
    requires Separators(rest, |ws|) && Interleave(rest, ws) == t
    ensures Separators(gaps, |ws|) && Interleave(gaps, ws) == [c] + t
    ensures |gaps[0]| > 0
  {
    gaps := [[c] + rest[0]] + rest[1..];
    assert gaps[1..] == rest[1..];
    assert Blank(gaps[0]) by {
      assert forall i :: 1 <= i < |gaps[0]| ==> gaps[0][i] == rest[0][i - 1];
    }
    assert forall i :: 1 <= i < |gaps| ==> gaps[i] == rest[i];
    if |ws| > 0 {
      assert Interleave(rest, ws) == rest[0] + (ws[0] + Interleave(rest[1..], ws[1..]));
    }
  }

  /** A word in front of a layout that is empty or starts with whitespace
      becomes its first word, with an empty separator before it. */
  lemma {:induction false} LayoutAfterWord(w: string, rest: seq<string>, ws: seq<string>, t: string)
    returns (gaps: seq<string>)
    requires IsWord(w) && AllWords(ws)
    requires Separators(rest, |ws|) && Interleave(rest, ws) == t
    requires |t| > 0 && IsSpace(t[0]) ==> |rest[0]| > 0
    requires |t| == 0 || IsSpace(t[0])
    ensures Separators(gaps, |ws| + 1) && Interleave(gaps, [w] + ws) == w + t
  {
    gaps := [""] + rest;
    assert gaps[1..] == rest;
    assert ([w] + ws)[1..] == ws;
    assert forall i :: 1 <= i < |gaps| ==> gaps[i] == rest[i - 1];
    if |ws| > 0 {
      assert t == rest[0] + (ws[0] + Interleave(rest[1..], ws[1..]));
      assert IsWord(ws[0]);
    }
  }

  /** Joining two non-empty lists puts one separator between the two joins. */
  lemma {:induction false} JoinAppend(sep: string, a: seq<string>, b: seq<string>)
    requires |a| > 0 && |b| > 0
    ensures Join(sep, a + b) == Join(sep, a) + sep + Join(sep, b)
    decreases |a|
  {
    if |a| > 1 {
      assert (a + b)[1..] == a[1..] + b;
      JoinAppend(sep, a[1..], b);
    } else {
      assert (a + b)[1..] == b;
    }
  }

  /** Every piece appears verbatim in the join, in list order, with the
      separator between it and each neighbour. */
  lemma {:induction false} JoinAround(sep: string, xs: seq<string>, k: nat)
    requires k < |xs|
    ensures Join(sep, xs) ==
      (if k == 0 then "" else Join(sep, xs[..k]) + sep)
      + xs[k]
      + (if k + 1 == |xs| then "" else sep + Join(sep, xs[k + 1..]))
  {
    var mid := [xs[k]] + xs[k + 1..];
    assert xs == xs[..k] + mid;
    assert Join(sep, mid) == xs[k] + (if k + 1 == |xs| then "" else sep + Join(sep, xs[k + 1..])) by {
      if k + 1 < |xs| {
        JoinAppend(sep, [xs[k]], xs[k + 1..]);
      } else {
        assert mid == [xs[k]];
      }
    }
    if k > 0 {
      JoinAppend(sep, xs[..k], mid);
    }
  }
}
