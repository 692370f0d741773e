/** lib/string.c: null-terminated strings in a buffer, and splitting them into words. */
module Strings {
  import opened Sequences

  /** The null-terminated string "w" is at position "p" of memory. */
  ghost predicate IsStr(m: seq<char>, p: nat, w: string) {
    p + |w| < |m| && m[p + |w|] == '\0' && forall i :: 0 <= i < |w| ==> m[p + i] == w[i] && w[i] != '\0'
  }

  lemma {:induction false} StrChar(m: seq<char>, p: nat, w: string, k: nat)
    requires IsStr(m, p, w) && k <= |w|
    ensures m[p + k] == '\0' <==> k == |w|
    ensures k < |w| ==> m[p + k] == w[k]
  {
  }

  /** strchr on a string given by its characters: the terminator counts as one of them. */
  method Strchr(s: string, ch: char) returns (r: Option<nat>)
    requires '\0' !in s
    ensures r.Some? <==> ch in s || ch == '\0'
    ensures r.Some? ==> r.value <= |s| && (s + ['\0'])[r.value] == ch && ch !in s[..r.value]
  {
    var i := 0;
    while true
      invariant i <= |s| && ch !in s[..i]
      decreases |s| - i
    {
      if i == |s| {
        return if ch == '\0' then Some(i) else None;
      }
      if s[i] == ch {
        return Some(i);
      }
      i := i + 1;
    }
  }

  // ---------- words ----------

  /** How long the word at the start of a text is. */
  function WordLength(t: string, delimiters: string): (n: nat)
    ensures n <= |t| && (forall i :: 0 <= i < n ==> t[i] !in delimiters) && (n < |t| ==> t[n] in delimiters)
  {
    if t != "" && t[0] !in delimiters then 1 + WordLength(t[1..], delimiters) else 0
  }

  /** The words of a text: its longest pieces without delimiters, in order. */
  function Words(t: string, delimiters: string): seq<string>
    decreases |t|
  {
    if t == "" then []
    else if t[0] in delimiters then Words(t[1..], delimiters)
    else
      var n := WordLength(t, delimiters);
      [t[..n]] + Words(t[n..], delimiters)
  }

  /** Leading delimiters do not matter. */
  lemma {:induction false} WordsAfter(t: string, delimiters: string, k: nat)
    requires k <= |t| && forall i :: 0 <= i < k ==> t[i] in delimiters
    ensures Words(t, delimiters) == Words(t[k..], delimiters)
    decreases k
  {
    if k > 0 {
      WordsAfter(t[1..], delimiters, k - 1);
      assert t[1..][k - 1..] == t[k..];
    } else {
      assert t[0..] == t;
    }
  }

  lemma WordLengthIs(t: string, delimiters: string, n: nat)
    requires n <= |t| && (forall i :: 0 <= i < n ==> t[i] !in delimiters) && (n < |t| ==> t[n] in delimiters)
    ensures n == WordLength(t, delimiters)
  {
  }

  /** Words separated, preceded and followed by runs of spaces. */
  function Spaced(words: seq<string>, gaps: seq<nat>): string
    requires |gaps| == |words| + 1
  {
    if words == [] then Spaces(gaps[0]) else Spaces(gaps[0]) + words[0] + Spaced(words[1..], gaps[1..])
  }

  function Spaces(n: nat): (r: string)
    ensures |r| == n && forall i :: 0 <= i < n ==> r[i] == ' '
  {
    if n == 0 then "" else " " + Spaces(n - 1)
  }

  /** Whatever words a command line is put together from, with at least one space between two, are its words. */
  lemma {:induction false} WordsOfSpaced(words: seq<string>, gaps: seq<nat>)
    requires |gaps| == |words| + 1 && forall i :: 0 < i < |words| ==> gaps[i] > 0
    requires forall w :: w in words ==> w != "" && ' ' !in w
    ensures Words(Spaced(words, gaps), " ") == words
    decreases |words|
  {
    var t := Spaced(words, gaps);
    if words == [] {
      WordsAfter(t, " ", |t|);
    } else {
      var (k, w, rest) := (gaps[0], words[0], Spaced(words[1..], gaps[1..]));
      assert w in words;
      forall v | v in words[1..] ensures v in words {}
      WordsAfter(t, " ", k);
      assert t[k..] == w + rest;
      assert |words| > 1 ==> rest[0] == ' ' by {
        if |words| > 1 { assert gaps[1..][0] > 0 && rest[0] == Spaces(gaps[1])[0]; }
      }
      assert |words| == 1 ==> rest == Spaces(gaps[1]);
      assert rest != "" ==> rest[0] == ' ';
      WordLengthIs(w + rest, " ", |w|);
      assert (w + rest)[..|w|] == w && (w + rest)[|w|..] == rest;
      WordsOfSpaced(words[1..], gaps[1..]);
    }
  }

  // ---------- strtok_r ----------

  lemma {:induction false} StrTail(m: seq<char>, p: nat, w: string, k: nat)
    requires IsStr(m, p, w) && k <= |w|
    ensures IsStr(m, p + k, w[k..])
  {
    forall i | 0 <= i < |w[k..]| ensures m[p + k + i] == w[k..][i] && w[k..][i] != '\0' {
      assert w[k..][i] == w[k + i];
    }
  }

  /** Buffers in which only characters from "s" on have become null. */
  ghost predicate OnlyCut(before: seq<char>, after: seq<char>, s: nat) {
    |after| == |before| && forall i :: 0 <= i < |before| ==> after[i] == before[i] || (i >= s && after[i] == '\0')
  }

  /** A string that ends at or before "s" is still there. */
  lemma {:induction false} StrStays(before: seq<char>, after: seq<char>, s: nat, p: nat, w: string)
    requires OnlyCut(before, after, s) && IsStr(before, p, w) && p + |w| <= s
    ensures IsStr(after, p, w)
  {
  }

  /** What one call of strtok_r has done to the text "t" at "s": the first word is now a string at "token", and the
      text with the other words, "rest", is one at "save"; without a word nothing has changed. */
  ghost predicate Tokenized(before: seq<char>, after: seq<char>, s: nat, t: string, delimiters: string,
                            token: Option<nat>, save: nat, rest: string)
  {
    var words := Words(t, delimiters);
    && OnlyCut(before, after, s) && IsStr(after, save, rest) && s <= save && save + |rest| == s + |t|
    && if words == [] then token.None? && after == before && rest == ""
       else token.Some? && s <= token.value && token.value + |words[0]| <= save
            && IsStr(after, token.value, words[0]) && Words(rest, delimiters) == words[1..]
  }

  /** strtok_r from position "s", where the text "t" is. */
  method StrTok(buf: array<char>, s: nat, delimiters: string, ghost t: string)
      returns (token: Option<nat>, save: nat, ghost rest: string)
    requires IsStr(buf[..], s, t) && '\0' !in delimiters
    modifies buf
    ensures Tokenized(old(buf[..]), buf[..], s, t, delimiters, token, save, rest)
  {
    ghost var m := buf[..];
    var start, end := FindToken(buf, s, delimiters, t);
    if end == start {
      NoWord(m, s, t, delimiters);
      return None, start, "";
    }
    WordFound(m, s, t, delimiters, start, end);
    token := Some(start);
    rest := Remaining(s, t, end);
    save := CutAt(buf, end);
  }

  /** The end of strtok_r: the word that ends at "end" becomes a string of its own. */
  method CutAt(buf: array<char>, end: nat) returns (save: nat)
    requires end < buf.Length
    modifies buf
    ensures buf[..] == old(buf[..])[end := '\0'] && save == if old(buf[end]) == '\0' then end else end + 1
  {
    save := end;
    if buf[end] != '\0' {
      buf[end] := '\0';
      save := end + 1;
    }
  }

  /** Both loops of strtok_r: where the first word starts and ends. */
  method FindToken(buf: array<char>, s: nat, delimiters: string, ghost t: string) returns (start: nat, end: nat)
    requires IsStr(buf[..], s, t) && '\0' !in delimiters
    ensures s <= start <= end <= s + |t| && (forall i :: 0 <= i < start - s ==> t[i] in delimiters)
    ensures start == end <==> start == s + |t|
    ensures start < end ==> t[start - s] !in delimiters && end - start == WordLength(t[start - s..], delimiters)
  {
    start := SkipDelimiters(buf, s, delimiters, t);
    if buf[start] == '\0' {
      return start, start;
    }
    StrTail(buf[..], s, t, start - s);
    end := SkipWord(buf, start, delimiters, t[start - s..]);
    WordLengthIs(t[start - s..], delimiters, end - start);
  }

  lemma {:induction false} NoWord(m: seq<char>, s: nat, t: string, delimiters: string)
    requires IsStr(m, s, t) && forall i :: 0 <= i < |t| ==> t[i] in delimiters
    ensures Tokenized(m, m, s, t, delimiters, None, s + |t|, "")
  {
    WordsAfter(t, delimiters, |t|);
  }

  /** The text after a word that ends at "end". */
  ghost function Remaining(s: nat, t: string, end: nat): string
    requires s <= end <= s + |t|
  {
    if end < s + |t| then t[end - s + 1..] else ""
  }

  /** Cutting the first word off leaves it, and the text with the others, as strings of their own. */
  lemma {:induction false} WordFound(m: seq<char>, s: nat, t: string, delimiters: string, start: nat, end: nat)
    requires IsStr(m, s, t) && s <= start <= end <= s + |t|
    requires start < s + |t| && (forall i :: 0 <= i < start - s ==> t[i] in delimiters) && t[start - s] !in delimiters
    requires end - start == WordLength(t[start - s..], delimiters)
    ensures m[end] == '\0' <==> end == s + |t|
    ensures Tokenized(m, m[end := '\0'], s, t, delimiters, Some(start),
      if end < s + |t| then end + 1 else end, Remaining(s, t, end))
  {
    var (rest, word) := (Remaining(s, t, end), t[start - s..end - s]);
    WordIsCut(m, s, t, start, end);
    assert Words(t, delimiters) == [word] + Words(rest, delimiters) by {
      FirstWordAndRest(t, delimiters, start - s, end - start, rest);
    }
    TokenizedBy(m, m[end := '\0'], s, t, delimiters, start,
      if end < s + |t| then end + 1 else end, rest, word, Words(t, delimiters));
  }

  lemma {:induction false} TokenizedBy(before: seq<char>, after: seq<char>, s: nat, t: string, delimiters: string,
      token: nat, save: nat,
                                       rest: string, word: string, words: seq<string>)
    requires OnlyCut(before, after, s) && IsStr(after, save, rest) && s <= save && save + |rest| == s + |t|
    requires s <= token && token + |word| <= save && IsStr(after, token, word)
    requires words == Words(t, delimiters) == [word] + Words(rest, delimiters)
    ensures Tokenized(before, after, s, t, delimiters, Some(token), save, rest)
  {
    assert words != [] && words[0] == word && words[1..] == Words(rest, delimiters);
  }

  lemma {:induction false} FirstWordAndRest(t: string, delimiters: string, k: nat, n: nat, rest: string)
    requires k < |t| && (forall i :: 0 <= i < k ==> t[i] in delimiters) && t[k] !in delimiters
    requires n == WordLength(t[k..], delimiters) && rest == if k + n < |t| then t[k + n + 1..] else ""
    ensures Words(t, delimiters) == [t[k..k + n]] + Words(rest, delimiters)
  {
    WordsAfter(t, delimiters, k);
    WordsFrom(t[k..], delimiters, n, if k + n < |t| then t[k..][n + 1..] else "");
    Slices(t, k, n);
  }

  lemma {:induction false} WordsFrom(u: string, delimiters: string, n: nat, rest: string)
    requires u != "" && u[0] !in delimiters && n == WordLength(u, delimiters)
      && rest == if n < |u| then u[n + 1..] else ""
    ensures Words(u, delimiters) == [u[..n]] + Words(rest, delimiters)
  {
    if n < |u| { assert u[n..][1..] == rest; } else { assert u[n..] == rest; }
  }

  lemma {:induction false} Slices(t: string, k: nat, n: nat)
    requires k + n <= |t|
    ensures t[k..][..n] == t[k..k + n]
    ensures k + n < |t| ==> t[k..][n + 1..] == t[k + n + 1..]
  {
  }

  lemma {:induction false} WordIsCut(m: seq<char>, s: nat, t: string, start: nat, end: nat)
    requires IsStr(m, s, t) && s <= start <= end <= s + |t|
    ensures m[end] == '\0' <==> end == s + |t|
    ensures
      var cut := m[end := '\0'];
      && OnlyCut(m, cut, s) && IsStr(cut, start, t[start - s..end - s])
      && IsStr(cut, if end < s + |t| then end + 1 else end, Remaining(s, t, end))
  {
    StrChar(m, s, t, end - s);
    var cut := m[end := '\0'];
    var w := t[start - s..end - s];
    forall i | 0 <= i < |w| ensures cut[start + i] == w[i] && w[i] != '\0' { assert w[i] == t[start - s + i]; }
    var rest := Remaining(s, t, end);
    if end < s + |t| {
      forall i | 0 <= i < |rest| ensures cut[end + 1 + i] == rest[i] && rest[i] != '\0' {
        assert rest[i] == t[end - s + 1 + i];
      }
    }
  }

  /** The first loop of strtok_r. */
  method SkipDelimiters(buf: array<char>, s: nat, delimiters: string, ghost t: string) returns (i: nat)
    requires IsStr(buf[..], s, t) && '\0' !in delimiters
    ensures s <= i <= s + |t| && (buf[i] == '\0' <==> i == s + |t|)
    ensures forall j :: 0 <= j < i - s ==> t[j] in delimiters
    ensures i < s + |t| ==> t[i - s] !in delimiters
  {
    i := s;
    while true
      invariant s <= i <= s + |t| && forall j :: 0 <= j < i - s ==> t[j] in delimiters
      decreases s + |t| - i
    {
      StrChar(buf[..], s, t, i - s);
      var found := Strchr(delimiters, buf[i]);
      if found.None? || buf[i] == '\0' {
        return;
      }
      i := i + 1;
    }
  }

  /** Its second loop. */
  method SkipWord(buf: array<char>, s: nat, delimiters: string, ghost t: string) returns (i: nat)
    requires IsStr(buf[..], s, t) && '\0' !in delimiters
    ensures s <= i <= s + |t| && (buf[i] == '\0' <==> i == s + |t|)
    ensures forall j :: 0 <= j < i - s ==> t[j] !in delimiters
    ensures i < s + |t| ==> t[i - s] in delimiters
  {
    i := s;
    while true
      invariant s <= i <= s + |t| && forall j :: 0 <= j < i - s ==> t[j] !in delimiters
      decreases s + |t| - i
    {
      StrChar(buf[..], s, t, i - s);
      var found := Strchr(delimiters, buf[i]);
      if found.Some? {
        return;
      }
      i := i + 1;
    }
  }
}
