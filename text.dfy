/**
 * The JavaScript string built-ins that `parseMessage` relies on:
 * `trim`, `replace` with a one-character string pattern, `toLowerCase` /
 * `toUpperCase`, `split(/\s+/)` and `join(" ")`.
 */
module Text {

  /** JavaScript's WhiteSpace and LineTerminator code points: the set that both
      `String.prototype.trim` and the regular-expression class `\s` use. */
  predicate IsSpace(c: char) {
    c == ' ' || ('\t' <= c <= '\r') || c == '\U{A0}' || c == '\U{1680}' ||
    ('\U{2000}' <= c <= '\U{200A}') || c == '\U{2028}' || c == '\U{2029}' ||
    c == '\U{202F}' || c == '\U{205F}' || c == '\U{3000}' || c == '\U{FEFF}'
  }

  predicate NoSpace(s: string) {
    forall k | 0 <= k < |s| :: !IsSpace(s[k])
  }

  predicate AllSpace(s: string) {
    forall k | 0 <= k < |s| :: IsSpace(s[k])
  }

  /** Neither end of `s` is white space (trivially true of ""). */
  predicate Trimmed(s: string) {
    s == [] || (!IsSpace(s[0]) && !IsSpace(s[|s| - 1]))
  }

  predicate IsAsciiUpper(c: char) { 'A' <= c <= 'Z' }
  predicate IsAsciiLower(c: char) { 'a' <= c <= 'z' }

  predicate NoUpper(s: string) {
    forall k | 0 <= k < |s| :: !IsAsciiUpper(s[k])
  }

  // ---------------------------------------------------------------- trim

  /** Index of the first non-white-space character at or after `i`, or `|s|`. */
  function TrimStartAt(s: string, i: nat): (r: nat)
    requires i <= |s|
    ensures i <= r <= |s|
    ensures forall k | i <= k < r :: IsSpace(s[k])
    ensures r < |s| ==> !IsSpace(s[r])
    decreases |s| - i
  {
    if i < |s| && IsSpace(s[i]) then TrimStartAt(s, i + 1) else i
  }

  /** One past the last non-white-space character of `s[i..j]`, or `i`. */
  function TrimEndAt(s: string, i: nat, j: nat): (r: nat)
    requires i <= j <= |s|
    ensures i <= r <= j
    ensures forall k | r <= k < j :: IsSpace(s[k])
    ensures r > i ==> !IsSpace(s[r - 1])
  {
    if j > i && IsSpace(s[j - 1]) then TrimEndAt(s, i, j - 1) else j
  }

  /** `String.prototype.trim`: the slice of `s` left after removing white space
      at both ends. */
  function Trim(s: string): (r: string)
    ensures Trimmed(r)
    ensures r == [] <==> AllSpace(s)
    ensures Trimmed(s) ==> r == s
  {
    var i := TrimStartAt(s, 0);
    var j := TrimEndAt(s, i, |s|);
    TrimBounds(s, i, j);
    s[i..j]
  }

  lemma TrimBounds(s: string, i: nat, j: nat)
    requires i == TrimStartAt(s, 0) && j == TrimEndAt(s, i, |s|)
    ensures Trimmed(s[i..j])
    ensures AllSpace(s[..i]) && AllSpace(s[j..])
    ensures s[i..j] == [] <==> AllSpace(s)
    ensures Trimmed(s) ==> s[i..j] == s
  {
    assert AllSpace(s[..i]) && AllSpace(s[j..]);
  }

  /** What `Trim` removes is white space, at the two ends only. */
  lemma TrimSlice(s: string)
    ensures var r := Trim(s);
      exists i | 0 <= i <= |s| - |r| :: r == s[i..i + |r|] && AllSpace(s[..i]) && AllSpace(s[i + |r|..])
  {
    var i := TrimStartAt(s, 0);
    var j := TrimEndAt(s, i, |s|);
    TrimBounds(s, i, j);
    assert Trim(s) == s[i..i + |Trim(s)|];
  }

  lemma TrimIdempotent(s: string)
    ensures Trim(Trim(s)) == Trim(s)
  {
  }

  // ------------------------------------------------------- replace, case

  /** Index of the first `c` in `s`, or `|s|` (`indexOf`, with `|s|` for -1). */
  function IndexOf(s: string, c: char): (r: nat)
    ensures r <= |s|
    ensures c !in s[..r]
    ensures r < |s| ==> s[r] == c
  {
    if s == [] || s[0] == c then 0
    else
      var r := 1 + IndexOf(s[1..], c);
      assert s[..r] == [s[0]] + s[1..][..r - 1];
      r
  }

  /** `s.replace(a, b)` for one-character strings `a` and `b`: JavaScript
      replaces only the FIRST occurrence when the pattern is a string. */
  function ReplaceFirst(s: string, a: char, b: char): (r: string)
    ensures |r| == |s|
  {
    var i := IndexOf(s, a);
    if i == |s| then s else s[..i] + [b] + s[i + 1..]
  }

  /** Without an `a` in `s`, `s.replace(a, b)` is `s`. */
  lemma ReplaceAbsent(s: string, a: char, b: char)
    requires a !in s
    ensures ReplaceFirst(s, a, b) == s
  {
  }

  /** Only the first `a` is replaced: any later `a` in `q` stays. */
  lemma ReplaceFirstOnly(p: string, q: string, a: char, b: char)
    requires a !in p
    ensures ReplaceFirst(p + [a] + q, a, b) == p + [b] + q
  {
    var s := p + [a] + q;
    assert s[..|p|] == p && s[|p|] == a && s[|p| + 1..] == q;
    assert IndexOf(s, a) == |p| by {
      var r := IndexOf(s, a);
      assert r <= |p| ==> s[..r] == p[..r];
    }
  }

  /** Each character of `s.replace(a, b)`: `b` where the first `a` was, the
      character of `s` everywhere else. */
  lemma ReplaceFirstAt(s: string, a: char, b: char)
    ensures forall k | 0 <= k < |s| ::
      ReplaceFirst(s, a, b)[k] == (if s[k] == a && a !in s[..k] then b else s[k])
  {
    var i := IndexOf(s, a);
    forall k | 0 <= k < |s|
      ensures ReplaceFirst(s, a, b)[k] == (if s[k] == a && a !in s[..k] then b else s[k])
    {
      if k > i {
        assert s[i] in s[..k];
      } else if k < i {
        assert s[k] in s[..i];
      }
    }
  }

  /** The one-character lower-case mappings of `toLowerCase` whose result is
      ASCII: the capitals `A`-`Z`, and U+212A KELVIN SIGN, which becomes `k`.
      Every other character is kept. */
  function LowerChar(c: char): char {
    if IsAsciiUpper(c) then (c as int + 32) as char
    else if c == '\U{212A}' then 'k'
    else c
  }

  function UpperChar(c: char): char {
    if IsAsciiLower(c) then (c as int - 32) as char else c
  }

  /** `toLowerCase`, restricted to the mappings of `LowerChar`. */
  function Lower(s: string): (r: string)
    ensures |r| == |s|
  {
    seq(|s|, k requires 0 <= k < |s| => LowerChar(s[k]))
  }

  /** `toUpperCase`, restricted to the ASCII letters. */
  function Upper(s: string): (r: string)
    ensures |r| == |s|
  {
    seq(|s|, k requires 0 <= k < |s| => UpperChar(s[k]))
  }

  lemma LowerHasNoUpper(s: string)
    ensures NoUpper(Lower(s))
    ensures forall k | 0 <= k < |s| :: IsSpace(Lower(s)[k]) == IsSpace(s[k])
  {
  }

  lemma UpperIdempotent(s: string)
    ensures Upper(Upper(s)) == Upper(s)
  {
  }

  /** Upper-casing loses nothing that lower-casing keeps: both forms of a text
      lower-case to the same text. */
  lemma LowerOfUpper(s: string)
    ensures Lower(Upper(s)) == Lower(s)
  {
  }

  // ------------------------------------------------------------ split

  /** Index of the first white-space character of `s`, or `|s|`. */
  function FirstSpace(s: string): (r: nat)
    ensures r <= |s|
    ensures NoSpace(s[..r])
    ensures r < |s| ==> IsSpace(s[r])
  {
    if s == [] || IsSpace(s[0]) then 0
    else
      var r := 1 + FirstSpace(s[1..]);
      assert forall k | 1 <= k < r :: s[..r][k] == s[1..][..r - 1][k - 1];
      r
  }

  /** End of the run of white space that starts at `i`. */
  function SkipSpaces(s: string, i: nat): (r: nat)
    requires i <= |s|
    ensures i <= r <= |s|
    ensures AllSpace(s[i..r])
    ensures r < |s| ==> !IsSpace(s[r])
    decreases |s| - i
  {
    if i < |s| && IsSpace(s[i]) then
      var r := SkipSpaces(s, i + 1);
      assert forall k | 1 <= k < r - i :: s[i..r][k] == s[i + 1..r][k - 1];
      r
    else i
  }

  /** `s.split(/\s+/)`: the pieces between maximal runs of white space, which
      are empty at an end of `s` that is white space. */
  function Split(s: string): seq<string>
    decreases |s|
  {
    var i := FirstSpace(s);
    if i == |s| then [s]
    else [s[..i]] + Split(s[SkipSpaces(s, i)..])
  }

  /** There is always at least one piece, and no piece holds white space. */
  lemma {:induction false} SplitNoSpace(s: string)
    ensures |Split(s)| >= 1
    ensures forall j | 0 <= j < |Split(s)| :: NoSpace(Split(s)[j])
    decreases |s|
  {
    var i := FirstSpace(s);
    if i == |s| {
      assert s[..i] == s;
    } else {
      SplitNoSpace(s[SkipSpaces(s, i)..]);
    }
  }

  /** Splitting text without upper-case letters gives pieces without them. */
  lemma {:induction false} SplitNoUpper(s: string)
    requires NoUpper(s)
    ensures forall j | 0 <= j < |Split(s)| :: NoUpper(Split(s)[j])
    decreases |s|
  {
    var i := FirstSpace(s);
    if i == |s| {
      assert s[..i] == s;
    } else {
      var m := SkipSpaces(s, i);
      assert NoUpper(s[m..]) by {
        forall k | 0 <= k < |s[m..]| ensures !IsAsciiUpper(s[m..][k]) {
          assert s[m..][k] == s[m + k];
        }
      }
      SplitNoUpper(s[m..]);
    }
  }

  /** `ts.join(" ")`. */
  function Join(ts: seq<string>): (r: string)
    ensures ts == [] ==> r == ""
    ensures |ts| == 1 ==> r == ts[0]
  {
    if |ts| == 0 then "" else if |ts| == 1 then ts[0] else ts[0] + " " + Join(ts[1..])
  }

  /** On a non-empty trimmed string every piece `Split` returns is non-empty. */
  lemma {:induction false} SplitTrimmedNonEmpty(s: string)
    requires s != [] && Trimmed(s)
    ensures forall j | 0 <= j < |Split(s)| :: Split(s)[j] != []
    decreases |s|
  {
    var i := FirstSpace(s);
    if i < |s| {
      var m := SkipSpaces(s, i);
      forall k | i <= k < m ensures IsSpace(s[k]) {
        assert s[i..m][k - i] == s[k];
      }
      assert !IsSpace(s[|s| - 1]);
      assert m < |s|;
      assert s[m..][0] == s[m] && s[m..][|s| - 1 - m] == s[|s| - 1];
      SplitTrimmedNonEmpty(s[m..]);
    }
  }

  /** A text without white space is one piece. */
  lemma SplitWhole(t: string)
    requires NoSpace(t)
    ensures Split(t) == [t]
  {
    assert t[..FirstSpace(t)] == t;
  }

  /** A word, a run of white space of any length and a text that does not
      start with white space split into the word and the pieces of the text.
      When the text is empty the last piece is "", as in `"a ".split(/\s+/)`. */
  lemma SplitRun(t: string, w: string, rest: string)
    requires NoSpace(t)
    requires w != [] && AllSpace(w)
    requires rest == [] || !IsSpace(rest[0])
    ensures Split(t + w + rest) == [t] + Split(rest)
  {
    var s := t + w + rest;
    assert s == t + (w + rest);
    FirstSpaceOfWord(t, w + rest);
    assert s[..|t|] == t && s[|t| + |w|..] == rest;
    SkipRun(s, |t|, |t| + |w|);
  }

  /** A text that starts with a run of white space has "" as its first piece,
      then the pieces of what follows the run. */
  lemma SplitLeading(w: string, rest: string)
    requires w != [] && AllSpace(w)
    requires rest == [] || !IsSpace(rest[0])
    ensures Split(w + rest) == [""] + Split(rest)
  {
    var e: string := [];
    assert e + w + rest == w + rest;
    assert NoSpace(e);
    SplitRun(e, w, rest);
  }

  /** The run of white space from `i` ends at `j` when `s[i..j]` is white
      space and `s[j]` is not. */
  lemma {:induction false} SkipRun(s: string, i: nat, j: nat)
    requires i <= j <= |s|
    requires forall k | i <= k < j :: IsSpace(s[k])
    requires j == |s| || !IsSpace(s[j])
    ensures SkipSpaces(s, i) == j
    decreases j - i
  {
    if i < j {
      SkipRun(s, i + 1, j);
    }
  }

  /** Joining with single spaces and splitting on white space are inverse on
      non-empty lists of non-empty words. */
  lemma {:induction false} SplitJoin(ts: seq<string>)
    requires |ts| >= 1
    requires forall j | 0 <= j < |ts| :: ts[j] != [] && NoSpace(ts[j])
    ensures Split(Join(ts)) == ts
  {
    if |ts| == 1 {
      assert FirstSpace(ts[0]) == |ts[0]|;
    } else {
      JoinShape(ts[1..]);
      SplitRun(ts[0], " ", Join(ts[1..]));
      SplitJoin(ts[1..]);
    }
  }

  /** Words `ts` glued by runs of white space `ws`, `ws[j]` between `ts[j]`
      and `ts[j + 1]`. */
  function JoinRuns(ts: seq<string>, ws: seq<string>): (r: string)
    requires |ts| >= 1 && |ws| == |ts| - 1
    ensures |ts| == 1 ==> r == ts[0]
  {
    if |ts| == 1 then ts[0] else ts[0] + ws[0] + JoinRuns(ts[1..], ws[1..])
  }

  /** Splitting words glued by runs of white space of any length and kind
      gives the words back: `split(/\s+/)` treats every run as one
      separator. */
  lemma {:induction false} SplitJoinRuns(ts: seq<string>, ws: seq<string>)
    requires |ts| >= 1 && |ws| == |ts| - 1
    requires forall j | 0 <= j < |ts| :: ts[j] != [] && NoSpace(ts[j])
    requires forall j | 0 <= j < |ws| :: ws[j] != [] && AllSpace(ws[j])
    ensures Split(JoinRuns(ts, ws)) == ts
  {
    if |ts| == 1 {
      SplitWhole(ts[0]);
    } else {
      var rest := JoinRuns(ts[1..], ws[1..]);
      assert rest[0] == ts[1][0] by {
        JoinRunsHead(ts[1..], ws[1..]);
      }
      SplitRun(ts[0], ws[0], rest);
      SplitJoinRuns(ts[1..], ws[1..]);
    }
  }

  /** Glued words start with the first word. */
  lemma JoinRunsHead(ts: seq<string>, ws: seq<string>)
    requires |ts| >= 1 && |ws| == |ts| - 1
    ensures |JoinRuns(ts, ws)| >= |ts[0]|
    ensures JoinRuns(ts, ws)[..|ts[0]|] == ts[0]
  {
  }

  /** A word followed by white space splits at the end of the word. */
  lemma FirstSpaceOfWord(t: string, u: string)
    requires NoSpace(t)
    requires u != [] && IsSpace(u[0])
    ensures FirstSpace(t + u) == |t|
  {
    var s := t + u;
    assert s[..|t|] == t && s[|t|] == u[0];
    var r := FirstSpace(s);
    assert r <= |t| ==> s[..r] == t[..r];
  }

  /** Joining one more word adds exactly one `" "` and the word at the end.
      With `Join([]) == ""` and `Join([t]) == t` this fixes `Join` on every
      list: one space between each pair of neighbouring words. */
  lemma {:induction false} JoinSnoc(ts: seq<string>, t: string)
    requires ts != []
    ensures Join(ts + [t]) == Join(ts) + " " + t
  {
    var us := ts + [t];
    assert us[1..] == ts[1..] + [t];
    if |ts| == 1 {
      assert us[1..] == [t];
    } else {
      JoinSnoc(ts[1..], t);
    }
  }

  /** The joined string of non-empty words is trimmed, and non-empty exactly
      when there is a word. */
  lemma {:induction false} JoinShape(ts: seq<string>)
    requires forall j | 0 <= j < |ts| :: ts[j] != [] && NoSpace(ts[j])
    ensures Trimmed(Join(ts))
    ensures Join(ts) == [] <==> ts == []
  {
    if |ts| >= 2 {
      JoinShape(ts[1..]);
    }
  }

  /** Joining words without upper-case letters adds none. */
  lemma {:induction false} JoinNoUpper(ts: seq<string>)
    requires forall j | 0 <= j < |ts| :: NoUpper(ts[j])
    ensures NoUpper(Join(ts))
  {
    if |ts| >= 2 {
      JoinNoUpper(ts[1..]);
      var t, rest := ts[0], Join(ts[1..]);
      var s := t + " " + rest;
      forall k | 0 <= k < |s| ensures !IsAsciiUpper(s[k]) {
        if k < |t| {
          assert s[k] == t[k];
        } else if k > |t| {
          assert s[k] == rest[k - |t| - 1];
        }
      }
    }
  }
}
