/**
 The three pieces of Rust's `str` API the core relies on: `split_whitespace`,
 `split_once` and `strip_prefix`, each with a reference characterisation.
 */
module Strings {
  import opened Results

  /**
   The Unicode White_Space property, which `char::is_whitespace` tests:
   tab through carriage return, space, and nineteen characters above ASCII.
   */
  predicate IsWhitespace(c: char) {
    if c <= ' ' then c == ' ' || '\U{0009}' <= c <= '\U{000D}'
    else if c < '\U{0085}' then false
    else
      || c == '\U{0085}'
      || c == '\U{00A0}'
      || c == '\U{1680}'
      || ('\U{2000}' <= c <= '\U{200A}')
      || c == '\U{2028}'
      || c == '\U{2029}'
      || c == '\U{202F}'
      || c == '\U{205F}'
      || c == '\U{3000}'
  }

  /** A token of `split_whitespace`: non-empty, without whitespace. */
  predicate IsWord(w: string) {
    |w| > 0 && forall i :: 0 <= i < |w| ==> !IsWhitespace(w[i])
  }

  /** The characters of `s` that are not whitespace, in order. */
  function NonSpace(s: string): string {
    if |s| == 0 then []
    else (if IsWhitespace(s[0]) then [] else [s[0]]) + NonSpace(s[1..])
  }

  /** The concatenation of a sequence of strings. */
  function Concat(ts: seq<string>): string {
    if |ts| == 0 then [] else ts[0] + Concat(ts[1..])
  }

  /** The tokens joined by a single space, as a UAL line is written. */
  function JoinSpaced(ts: seq<string>): string {
    if |ts| == 0 then []
    else if |ts| == 1 then ts[0]
    else ts[0] + " " + JoinSpaced(ts[1..])
  }

  /** Length of the maximal run of non-whitespace characters that starts `s`. */
  function WordLength(s: string): (n: nat)
    ensures n <= |s|
  {
    if |s| == 0 || IsWhitespace(s[0]) then 0 else 1 + WordLength(s[1..])
  }

  /** The run `WordLength` measures holds no whitespace and cannot be extended. */
  lemma {:induction false} WordLengthMaximal(s: string)
    ensures forall i :: 0 <= i < WordLength(s) ==> !IsWhitespace(s[i])
    ensures WordLength(s) < |s| ==> IsWhitespace(s[WordLength(s)])
  {
    if |s| > 0 && !IsWhitespace(s[0]) {
      WordLengthMaximal(s[1..]);
    }
  }

  lemma WordLengthIs(s: string, k: nat)
    requires k <= |s|
    requires forall i :: 0 <= i < k ==> !IsWhitespace(s[i])
    requires k < |s| ==> IsWhitespace(s[k])
    ensures WordLength(s) == k
  {
    WordLengthMaximal(s);
  }

  lemma {:induction false} NonSpaceAppend(a: string, b: string)
    ensures NonSpace(a + b) == NonSpace(a) + NonSpace(b)
  {
    if |a| == 0 {
      assert a + b == b;
    } else {
      assert (a + b)[1..] == a[1..] + b;
      NonSpaceAppend(a[1..], b);
    }
  }

  lemma {:induction false} NonSpaceOfWord(w: string)
    requires forall i :: 0 <= i < |w| ==> !IsWhitespace(w[i])
    ensures NonSpace(w) == w
  {
    if |w| > 0 {
      NonSpaceOfWord(w[1..]);
    }
  }

  /** Five tokens joined by single spaces, written out. */
  lemma JoinFive(a: string, b: string, c: string, d: string, e: string)
    ensures JoinSpaced([a, b, c, d, e]) == a + " " + b + " " + c + " " + d + " " + e
  {
    var ts := [a, b, c, d, e];
    assert ts[1..][1..][1..][1..] == [e];
    assert ts[1..][1..][1..] == [d, e];
    assert ts[1..][1..] == [c, d, e];
    assert ts[1..] == [b, c, d, e];
    assert JoinSpaced(ts[1..][1..][1..]) == d + " " + e;
    assert JoinSpaced(ts[1..][1..]) == c + " " + (d + " " + e);
    assert JoinSpaced(ts[1..]) == b + " " + (c + " " + (d + " " + e));
    assert JoinSpaced(ts) == a + " " + (b + " " + (c + " " + (d + " " + e)));
  }

  /**
   Rust's `str::split_whitespace`: the maximal runs of non-whitespace
   characters, in order; every token is a word.
   */
  function Tokens(s: string): seq<string>
    decreases |s|
  {
    if |s| == 0 then []
    else if IsWhitespace(s[0]) then Tokens(s[1..])
    else
      var n := WordLength(s);
      [s[..n]] + Tokens(s[n..])
  }

  /** Every token is a word: non-empty and free of whitespace. */
  lemma {:induction false} TokensAreWords(s: string)
    ensures forall i :: 0 <= i < |Tokens(s)| ==> IsWord(Tokens(s)[i])
    decreases |s|
  {
    if |s| > 0 {
      if IsWhitespace(s[0]) {
        TokensAreWords(s[1..]);
      } else {
        WordLengthMaximal(s);
        TokensAreWords(s[WordLength(s)..]);
      }
    }
  }

  /** Together the tokens hold exactly the non-whitespace characters of the line. */
  lemma {:induction false} TokensKeepText(s: string)
    ensures Concat(Tokens(s)) == NonSpace(s)
    decreases |s|
  {
    if |s| > 0 {
      if IsWhitespace(s[0]) {
        TokensKeepText(s[1..]);
      } else {
        var n := WordLength(s);
        WordLengthMaximal(s);
        assert s == s[..n] + s[n..];
        NonSpaceAppend(s[..n], s[n..]);
        NonSpaceOfWord(s[..n]);
        TokensKeepText(s[n..]);
        var rest := Tokens(s[n..]);
        assert ([s[..n]] + rest)[1..] == rest;
      }
    }
  }

  /** A word followed by nothing or by whitespace splits off as one token. */
  lemma TokensOfWordThen(w: string, rest: string)
    requires IsWord(w)
    requires |rest| == 0 || IsWhitespace(rest[0])
    ensures Tokens(w + rest) == [w] + Tokens(rest)
  {
    var s := w + rest;
    WordLengthIs(s, |w|);
    assert s[..|w|] == w;
    assert s[|w|..] == rest;
  }

  /**
   Joining words with single spaces and splitting on whitespace gives the
   words back: `split_whitespace` inverts `JoinSpaced` on words.
   */
  lemma {:induction false} TokensOfJoin(ts: seq<string>)
    requires forall i :: 0 <= i < |ts| ==> IsWord(ts[i])
    ensures Tokens(JoinSpaced(ts)) == ts
  {
    if |ts| == 1 {
      TokensOfWordThen(ts[0], []);
      assert ts[0] + [] == ts[0];
    } else if |ts| > 1 {
      var tail := JoinSpaced(ts[1..]);
      assert ts[0] + " " + tail == ts[0] + (" " + tail);
      TokensOfWordThen(ts[0], " " + tail);
      assert (" " + tail)[1..] == tail;
      TokensOfJoin(ts[1..]);
      assert ts == [ts[0]] + ts[1..];
    }
  }

  /** A run of whitespace characters, possibly empty. */
  predicate Blank(s: string) {
    forall i :: 0 <= i < |s| ==> IsWhitespace(s[i])
  }

  /** Whitespace in front of a line yields no token. */
  lemma {:induction false} TokensSkipSpace(ws: string, s: string)
    requires Blank(ws)
    ensures Tokens(ws + s) == Tokens(s)
  {
    if |ws| == 0 {
      assert ws + s == s;
    } else {
      assert (ws + s)[0] == ws[0];
      assert (ws + s)[1..] == ws[1..] + s;
      TokensSkipSpace(ws[1..], s);
    }
  }

  /**
   A line laid out as words each followed by its gap: `ts[0] + gaps[0] +
   ts[1] + gaps[1] + ...`. With single-space gaps and an empty last gap this
   is `JoinSpaced`; in general a gap may be any run of whitespace.
   */
  function Layout(ts: seq<string>, gaps: seq<string>): string
    requires |gaps| == |ts|
  {
    if |ts| == 0 then [] else ts[0] + gaps[0] + Layout(ts[1..], gaps[1..])
  }

  /**
   The words `ts` laid out with `gaps`: every gap is whitespace, and every
   gap but the last (the trailing whitespace of the line) is non-empty.
   */
  predicate Separated(ts: seq<string>, gaps: seq<string>) {
    && |gaps| == |ts|
    && (forall i :: 0 <= i < |ts| ==> IsWord(ts[i]))
    && (forall i :: 0 <= i < |gaps| ==> Blank(gaps[i]))
    && (forall i :: 0 <= i < |gaps| - 1 ==> |gaps[i]| > 0)
  }

  /**
   `split_whitespace` recovers the words of any line laid out with leading
   whitespace, runs of any whitespace between the words (tabs, several
   spaces, line breaks) and trailing whitespace: token boundaries are
   exactly the whitespace runs.
   */
  lemma {:induction false} TokensOfLayout(lead: string, ts: seq<string>, gaps: seq<string>)
    requires Blank(lead) && Separated(ts, gaps)
    ensures Tokens(lead + Layout(ts, gaps)) == ts
    decreases |ts|
  {
    TokensSkipSpace(lead, Layout(ts, gaps));
    if |ts| == 0 {
      assert Tokens([]) == [];
    } else {
      var tail := Layout(ts[1..], gaps[1..]);
      assert ts[0] + gaps[0] + tail == ts[0] + (gaps[0] + tail);
      TokensOfWordThen(ts[0], gaps[0] + tail);
      TokensSkipSpace(gaps[0], tail);
      assert Separated(ts[1..], gaps[1..]);
      assert Blank([]);
      assert [] + tail == tail;
      TokensOfLayout([], ts[1..], gaps[1..]);
      assert ts == [ts[0]] + ts[1..];
    }
  }

  /** Re-joining the tokens of any line and splitting again changes nothing. */
  lemma TokensIdempotent(s: string)
    ensures Tokens(JoinSpaced(Tokens(s))) == Tokens(s)
  {
    TokensAreWords(s);
    TokensOfJoin(Tokens(s));
  }

  /** Rust's `str::split_once(sep)`: the text around the FIRST `sep`, if any. */
  function SplitOnce(p: string, sep: char): Option<(string, string)> {
    if |p| == 0 then None
    else if p[0] == sep then Some(([], p[1..]))
    else
      match SplitOnce(p[1..], sep)
      case None => None
      case Some(kv) => Some(([p[0]] + kv.0, kv.1))
  }

  /**
   `split_once` fails exactly when there is no `sep`; otherwise the two parts
   with `sep` between them make up the input and the first part holds no
   `sep`, so the split is at the first occurrence and the rest may hold more.
   */
  lemma {:induction false} SplitOnceSpec(p: string, sep: char)
    ensures SplitOnce(p, sep).None? <==> sep !in p
    ensures SplitOnce(p, sep).Some? ==>
      var kv := SplitOnce(p, sep).value;
      p == kv.0 + [sep] + kv.1 && sep !in kv.0
  {
    if |p| > 0 && p[0] != sep {
      SplitOnceSpec(p[1..], sep);
      assert p == [p[0]] + p[1..];
    }
  }

  /** Splitting `k + sep + v` where `k` has no `sep` recovers `k` and `v`. */
  lemma {:induction false} SplitOnceOfJoin(k: string, sep: char, v: string)
    requires sep !in k
    ensures SplitOnce(k + [sep] + v, sep) == Some((k, v))
  {
    var p := k + [sep] + v;
    if |k| > 0 {
      assert p[1..] == k[1..] + [sep] + v;
      SplitOnceOfJoin(k[1..], sep, v);
      assert [p[0]] + k[1..] == k;
    }
  }

  /** Rust's `str::strip_prefix`: the rest of `s` after exactly one `prefix`. */
  function StripPrefix(s: string, prefix: string): (r: Option<string>)
    ensures r.Some? <==> prefix <= s
    ensures r.Some? ==> s == prefix + r.value
  {
    if prefix <= s then Some(s[|prefix|..]) else None
  }

  /** `sub` occurs as a contiguous part of `s`. */
  ghost predicate IsInfix(sub: string, s: string) {
    exists i :: 0 <= i <= |s| && sub <= s[i..]
  }

  lemma InfixOfConcat(a: string, sub: string, b: string)
    ensures IsInfix(sub, a + sub + b)
  {
    var s := a + sub + b;
    assert sub <= s[|a|..];
  }
}
