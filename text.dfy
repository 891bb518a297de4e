/**
 * The string operations the core relies on: ASCII `toLowerCase`, `startsWith`,
 * `includes` and `split(/\W+/)`.  Word characters are ASCII letters, digits
 * and underscore, exactly as `\W` reads them in a regular expression without
 * the `u` flag.
 */
module Text {

  /** `\w`: an ASCII letter, digit or underscore. */
  predicate IsWordChar(c: char) {
    ('a' <= c <= 'z') || ('A' <= c <= 'Z') || ('0' <= c <= '9') || c == '_'
  }

  predicate AllWordChars(s: string) {
    forall i :: 0 <= i < |s| ==> IsWordChar(s[i])
  }

  function LowerChar(c: char): char {
    if 'A' <= c <= 'Z' then (c as int + 32) as char else c
  }

  /** `toLowerCase` on the ASCII range; every other character is kept. */
  function Lower(s: string): (r: string)
    ensures |r| == |s|
    ensures forall i :: 0 <= i < |s| ==> r[i] == LowerChar(s[i])
  {
    seq(|s|, i requires 0 <= i < |s| => LowerChar(s[i]))
  }

  /** `s.startsWith(prefix)`. */
  predicate StartsWith(s: string, prefix: string) {
    |prefix| <= |s| && s[..|prefix|] == prefix
  }

  /** `s.includes(sub)`: `sub` occurs in `s` at some position. */
  predicate Includes(s: string, sub: string)
    decreases |s|
  {
    StartsWith(s, sub) || (|s| > 0 && Includes(s[1..], sub))
  }

  /** Every string includes the empty string. */
  lemma IncludesEmpty(s: string)
    ensures Includes(s, "")
  {
    assert StartsWith(s, "");
  }

  /** A string never includes one that is longer. */
  lemma {:induction false} IncludesLonger(s: string, sub: string)
    requires |sub| > |s|
    ensures !Includes(s, sub)
    decreases |s|
  {
    if |s| > 0 {
      IncludesLonger(s[1..], sub);
    }
  }

  /** A string made of word characters includes no string holding a non-word character. */
  lemma {:induction false} IncludesOnlyWords(s: string, sub: string, k: nat)
    requires AllWordChars(s)
    requires k < |sub| && !IsWordChar(sub[k])
    ensures !Includes(s, sub)
    decreases |s|
  {
    if |sub| <= |s| {
      assert IsWordChar(s[k]) && s[..|sub|][k] == s[k];
    }
    if |s| > 0 {
      IncludesOnlyWords(s[1..], sub, k);
    }
  }

  /** Drops the run of non-word characters at the front (one `\W+` match). */
  function SkipNonWord(s: string): (r: string)
    ensures |r| <= |s| && r == s[|s| - |r|..]
    ensures r == [] || IsWordChar(r[0])
    ensures forall i :: 0 <= i < |s| - |r| ==> !IsWordChar(s[i])
  {
    if s == [] || IsWordChar(s[0]) then s else SkipNonWord(s[1..])
  }

  /** The split loop: `cur` is the token read so far. */
  function SplitFrom(s: string, cur: string): (r: seq<string>)
    requires AllWordChars(cur)
    ensures |r| >= 1
    decreases |s|
  {
    if s == [] then [cur]
    else if IsWordChar(s[0]) then SplitFrom(s[1..], cur + [s[0]])
    else [cur] + SplitFrom(SkipNonWord(s), "")
  }

  /** Every piece of the split loop is made of word characters. */
  lemma {:induction false} SplitFromWords(s: string, cur: string)
    requires AllWordChars(cur)
    ensures forall t :: t in SplitFrom(s, cur) ==> AllWordChars(t)
    decreases |s|
  {
    if s != [] {
      if IsWordChar(s[0]) {
        SplitFromWords(s[1..], cur + [s[0]]);
      } else {
        SplitFromWords(SkipNonWord(s), "");
      }
    }
  }

  /**
   * `s.split(/\W+/)`: the pieces between maximal runs of non-word characters.
   * A leading or trailing run yields an empty first or last piece, and the
   * empty string splits into `[""]`.
   */
  function SplitWords(s: string): (r: seq<string>)
    ensures |r| >= 1
    ensures forall t :: t in r ==> AllWordChars(t)
  {
    SplitFromWords(s, "");
    SplitFrom(s, "")
  }

  /** The last piece is empty. */
  predicate EndsEmpty(r: seq<string>) {
    |r| > 0 && r[|r| - 1] == ""
  }

  /** The split loop ends with an empty piece when its input ends with a non-word character. */
  lemma {:induction false} SplitFromTrailing(s: string, cur: string)
    requires AllWordChars(cur)
    requires |s| > 0 && !IsWordChar(s[|s| - 1])
    ensures EndsEmpty(SplitFrom(s, cur))
    decreases |s|, 1
  {
    if IsWordChar(s[0]) {
      TrailingAfterWord(s, cur);
    } else {
      TrailingAfterBreak(s, cur);
    }
  }

  /** The word-character step of `SplitFromTrailing`. */
  lemma {:induction false} TrailingAfterWord(s: string, cur: string)
    requires AllWordChars(cur)
    requires |s| > 0 && !IsWordChar(s[|s| - 1]) && IsWordChar(s[0])
    ensures EndsEmpty(SplitFrom(s, cur))
    decreases |s|, 0
  {
    var next := cur + [s[0]];
    var tail := s[1..];
    assert tail[|tail| - 1] == s[|s| - 1];
    SplitFromWordStep(s, cur);
    SplitFromTrailing(tail, next);
  }

  /** The separator step of `SplitFromTrailing`. */
  lemma {:induction false} TrailingAfterBreak(s: string, cur: string)
    requires AllWordChars(cur)
    requires |s| > 0 && !IsWordChar(s[|s| - 1]) && !IsWordChar(s[0])
    ensures EndsEmpty(SplitFrom(s, cur))
    decreases |s|, 0
  {
    var rest := SkipNonWord(s);
    SplitFromBreak(s, cur);
    if rest == [] {
      assert SplitFrom(s, cur) == [cur, ""];
    } else {
      var tail := SplitFrom(rest, "");
      assert SplitFrom(s, cur) == [cur] + tail;
      assert rest == s[|s| - |rest|..];
      assert rest[|rest| - 1] == s[|s| - 1];
      SplitFromTrailing(rest, "");
      EndsEmptyAfter([cur], tail);
    }
  }

  lemma EndsEmptyAfter(a: seq<string>, b: seq<string>)
    requires EndsEmpty(b)
    ensures EndsEmpty(a + b)
  {
    assert (a + b)[|a + b| - 1] == b[|b| - 1];
  }

  /** A word character extends the current token. */
  lemma SplitFromWordStep(s: string, cur: string)
    requires AllWordChars(cur)
    requires |s| > 0 && IsWordChar(s[0])
    ensures SplitFrom(s, cur) == SplitFrom(s[1..], cur + [s[0]])
  {
  }

  /** A non-word character ends the current token; an input that was all separators leaves an empty last piece. */
  lemma SplitFromBreak(s: string, cur: string)
    requires AllWordChars(cur)
    requires |s| > 0 && !IsWordChar(s[0])
    ensures SplitFrom(s, cur) == [cur] + SplitFrom(SkipNonWord(s), "")
    ensures SkipNonWord(s) == [] ==> SplitFrom(s, cur) == [cur, ""]
  {
  }

  /** A string ending in a non-word character splits with a final empty piece. */
  lemma SplitWordsTrailing(s: string)
    requires |s| > 0 && !IsWordChar(s[|s| - 1])
    ensures SplitWords(s)[|SplitWords(s)| - 1] == ""
  {
    var r := SplitWords(s);
    assert r == SplitFrom(s, "");
    SplitFromTrailing(s, "");
    assert EndsEmpty(r);
  }

  /** A run of word characters extends the current token. */
  lemma {:induction false} SplitFromWordRun(s: string, rest: string, cur: string)
    requires AllWordChars(s) && AllWordChars(cur)
    requires rest == [] || !IsWordChar(rest[0])
    ensures SplitFrom(s + rest, cur) == SplitFrom(rest, cur + s)
    decreases |s|
  {
    if s == [] {
      assert s + rest == rest && cur + s == cur;
    } else {
      assert (s + rest)[0] == s[0] && (s + rest)[1..] == s[1..] + rest;
      assert cur + [s[0]] + s[1..] == cur + s;
      SplitFromWordRun(s[1..], rest, cur + [s[0]]);
    }
  }

  /** A single word splits into itself. */
  lemma SplitWordsWord(w: string)
    requires AllWordChars(w)
    ensures SplitWords(w) == [w]
  {
    SplitFromWordRun(w, [], "");
    assert w + [] == w && "" + w == w;
  }

  /** A word followed by one non-word character splits into the word and an empty piece. */
  lemma SplitWordsWordThen(w: string, c: char)
    requires AllWordChars(w) && !IsWordChar(c)
    ensures SplitWords(w + [c]) == [w, ""]
  {
    SplitFromWordRun(w, [c], "");
    assert "" + w == w;
    assert [c][1..] == [];
  }

  /** The tokens written one after another, with nothing between them. */
  function Concat(ws: seq<string>): string {
    if ws == [] then "" else ws[0] + Concat(ws[1..])
  }

  /** The word characters of `s`, in order. */
  function WordCharsOf(s: string): string {
    if s == [] then "" else (if IsWordChar(s[0]) then [s[0]] else "") + WordCharsOf(s[1..])
  }

  /**
   * The number of maximal runs of non-word characters in `s`, read one
   * character at a time; `inRun` says whether the previous character was a
   * non-word character.
   */
  function Runs(s: string, inRun: bool): nat {
    if s == [] then 0
    else if IsWordChar(s[0]) then Runs(s[1..], false)
    else (if inRun then 0 else 1) + Runs(s[1..], true)
  }

  /** Skipping a separator run drops no word character and no run start. */
  lemma {:induction false} SkipNonWordCounts(s: string)
    ensures WordCharsOf(SkipNonWord(s)) == WordCharsOf(s)
    ensures Runs(SkipNonWord(s), false) == Runs(s, true)
    decreases |s|
  {
    if s != [] && !IsWordChar(s[0]) {
      SkipNonWordCounts(s[1..]);
      assert WordCharsOf(s) == "" + WordCharsOf(s[1..]);
    }
  }

  /** The split loop's pieces hold the current token and then the word characters of the rest, one piece per separator run more. */
  lemma {:induction false} SplitFromCounts(s: string, cur: string)
    requires AllWordChars(cur)
    ensures Concat(SplitFrom(s, cur)) == cur + WordCharsOf(s)
    ensures |SplitFrom(s, cur)| == 1 + Runs(s, false)
    decreases |s|
  {
    if s == [] {
      assert Concat([cur]) == cur + Concat([]);
      assert cur + WordCharsOf(s) == cur;
    } else if IsWordChar(s[0]) {
      SplitFromCounts(s[1..], cur + [s[0]]);
      assert cur + [s[0]] + WordCharsOf(s[1..]) == cur + WordCharsOf(s);
    } else {
      var rest := SkipNonWord(s);
      var tail := SplitFrom(rest, "");
      SplitFromCounts(rest, "");
      SkipNonWordCounts(s);
      SkipNonWordCounts(s[1..]);
      assert SkipNonWord(s) == SkipNonWord(s[1..]);
      assert ([cur] + tail)[0] == cur && ([cur] + tail)[1..] == tail;
      assert "" + WordCharsOf(rest) == WordCharsOf(s[1..]);
    }
  }

  /**
   * All inputs: the tokens, written one after another, are exactly the word
   * characters of `s` in order, and there is one token more than there are
   * maximal runs of non-word characters.
   */
  lemma SplitWordsCounts(s: string)
    ensures Concat(SplitWords(s)) == WordCharsOf(s)
    ensures |SplitWords(s)| == 1 + Runs(s, false)
  {
    SplitFromCounts(s, "");
    assert "" + WordCharsOf(s) == WordCharsOf(s);
  }

  /** The tokens joined by single spaces. */
  function JoinWords(ws: seq<string>): string {
    if ws == [] then ""
    else if |ws| == 1 then ws[0]
    else ws[0] + " " + JoinWords(ws[1..])
  }

  /** The tokens `split(/\W+/)` can give back: all word characters, and only the first and last may be empty. */
  predicate Splittable(ws: seq<string>) {
    |ws| >= 1
    && (forall i :: 0 <= i < |ws| ==> AllWordChars(ws[i]))
    && (forall i :: 0 < i < |ws| - 1 ==> ws[i] != "")
  }

  /** A join starts with its first token. */
  lemma JoinWordsHead(ws: seq<string>)
    requires |ws| >= 1
    ensures |JoinWords(ws)| >= |ws[0]| && JoinWords(ws)[..|ws[0]|] == ws[0]
  {
  }

  /** Splitting tokens joined by spaces gives the tokens back. */
  lemma {:induction false} SplitFromJoin(ws: seq<string>)
    requires Splittable(ws)
    ensures SplitFrom(JoinWords(ws), "") == ws
    decreases |ws|
  {
    if |ws| == 1 {
      SplitFromWordRun(ws[0], [], "");
      assert ws[0] + [] == ws[0] && "" + ws[0] == ws[0];
      assert ws == [ws[0]];
    } else {
      var w := ws[0];
      var more := ws[1..];
      assert Splittable(more) by {
        assert forall i :: 0 <= i < |more| ==> more[i] == ws[i + 1];
      }
      var j := JoinWords(more);
      var sep := " " + j;
      JoinWordsHead(more);
      assert j == [] || IsWordChar(j[0]) by {
        if more[0] != "" {
          assert j[0] == j[..|more[0]|][0] == more[0][0];
        } else {
          assert |more| == 1;
        }
      }
      assert JoinWords(ws) == w + sep;
      SplitFromWordRun(w, sep, "");
      assert "" + w == w;
      SplitFromBreak(sep, w);
      assert sep[1..] == j;
      assert SkipNonWord(sep) == j;
      SplitFromJoin(more);
      assert [w] + more == ws;
    }
  }

  /** The round trip: `split(/\W+/)` of tokens joined by single spaces is those tokens. */
  lemma SplitWordsJoin(ws: seq<string>)
    requires Splittable(ws)
    ensures SplitWords(JoinWords(ws)) == ws
  {
    SplitFromJoin(ws);
  }
}
